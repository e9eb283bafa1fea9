/**
 The loop over a config file, and when its markers nest.
 */
module ConfigReader {
  import opened Wrappers
  import opened Text
  import opened ConfigValues
  import opened ConfigSections

  // ---------- what the lines say, without any output ----------

  // What an entry is filed under: its parents and its name.
  type Head = (seq<string>, string)

  // Going through the lines: the current section; the section last left for the default one,
  // until another is entered or an entry is read; whether no entry has been read in the default
  // section after leaving a section two or more levels deep; and what the last entry was filed
  // under, if no section was entered or left since.
  datatype Walk = Walk(current: seq<string>, stranded: seq<string>, clean: bool, last: Option<Head>)

  function EntryHead(current: seq<string>, name: string): Head {
    (current + KeyPath(name).0, KeyPath(name).1)
  }

  // Entries too deep are ignored.
  predicate Kept(current: seq<string>, name: string) {
    |EntryHead(current, name).0| <= MAXIMUM_LAYERS
  }

  function AfterEntry(w: Walk, head: Head): Walk {
    if w.current == [] then Walk([], [], w.clean && |w.stranded| <= 1, Some(head)) else w.(last := Some(head))
  }

  function Left(w: Walk): Walk {
    if w.current != [] then Walk([], w.current, w.clean, None) else w
  }

  function StepWalk(w: Walk, line: Line): Walk {
    match line
    case Header(section) =>
      var path := SectionParents(section);
      if path != [] then Walk(path, [], w.clean, None) else Left(w)
    case Entry(name, _) =>
      if Kept(w.current, name) then AfterEntry(w, EntryHead(w.current, name)) else w
  }

  function WalkAll(lines: seq<Line>): Walk
    decreases |lines|
  {
    if lines == [] then Walk([], [], true, None)
    else StepWalk(WalkAll(lines[..|lines| - 1]), lines[|lines| - 1])
  }

  // The file never reads an entry, nor ends, in the default section reached from a section two
  // or more levels deep.
  predicate Clean(lines: seq<Line>) {
    WalkAll(lines).clean && |WalkAll(lines).stranded| <= 1
  }

  // What a file holds: items, each with the section it stands in, followed by their values.
  datatype Value = Item(section: seq<string>, head: Head) | Input(text: string)

  function Inputs(inputs: seq<string>): seq<Value> {
    seq(|inputs|, i requires 0 <= i < |inputs| => Input(inputs[i]))
  }

  // An entry filed under the same head as the one before it belongs to that item.
  function EntryValues(w: Walk, head: Head, inputs: seq<string>): seq<Value> {
    (if w.last == Some(head) then [] else [Item(w.current, head)]) + Inputs(inputs)
  }

  function LineValues(w: Walk, line: Line): seq<Value> {
    if line.Entry? && Kept(w.current, line.name)
    then EntryValues(w, EntryHead(w.current, line.name), line.inputs)
    else []
  }

  // Every item and value of the file, in order.
  function FileValues(lines: seq<Line>): seq<Value>
    decreases |lines|
  {
    if lines == [] then [] else
    var before := lines[..|lines| - 1];
    FileValues(before) + LineValues(WalkAll(before), lines[|lines| - 1])
  }

  // ---------- what the output says ----------

  function HeadOf(x: ConfigItem): Head {
    (x.parents, x.name)
  }

  function ItemValues(output: seq<ConfigItem>, sections: seq<seq<string>>): seq<Value>
    requires |sections| == |output|
    decreases |output|
  {
    if output == [] then [] else
    var n := |output| - 1;
    ItemValues(output[..n], sections[..n]) +
    if Ordinary(output[n]) then [Item(sections[n], HeadOf(output[n]))] + Inputs(output[n].inputs) else []
  }

  function LastHead(output: seq<ConfigItem>): Option<Head> {
    if output != [] && Ordinary(output[|output| - 1]) then Some(HeadOf(output[|output| - 1])) else None
  }

  // Before the i-th item exactly the sections on the way to its own are open.
  predicate LawfulAt(output: seq<ConfigItem>, sections: seq<seq<string>>, i: nat)
    requires |sections| == |output| && i < |output|
  {
    Ordinary(output[i]) ==> Opened(output[..i]) == Some(Prefixes(sections[i]))
  }

  ghost predicate Lawful(output: seq<ConfigItem>, sections: seq<seq<string>>)
    requires |sections| == |output|
  {
    forall i :: 0 <= i < |output| ==> LawfulAt(output, sections, i)
  }

  // The markers are those of a stack: well nested, all closed at the end, and right at each item.
  ghost predicate Nested(output: seq<ConfigItem>, sections: seq<seq<string>>) {
    |sections| == |output| && Opened(output) == Some([]) && Lawful(output, sections)
  }

  // ---------- the loop's invariant ----------

  // Where the output stands, as long as all is well.
  predicate Standing(output: seq<ConfigItem>, w: Walk) {
    if w.current != [] then InSection(output, w.current)
    else if w.stranded != [] then JustClosed(output, w.stranded)
    else AllClosed(output)
  }

  ghost predicate Good(output: seq<ConfigItem>, sections: seq<seq<string>>, w: Walk) {
    && |sections| == |output|
    && (w.clean <==> Lawful(output, sections))
    && (w.clean ==> Standing(output, w))
    && (output != [] && Ordinary(output[|output| - 1]) ==> sections[|output| - 1] == w.current)
    && (w.current != [] ==> w.stranded == [])
    && w.last == LastHead(output)
  }

  function Pad(sections: seq<seq<string>>, k: nat, n: nat): seq<seq<string>>
    requires k <= |sections| && k <= n
  {
    sections[..k] + seq(n - k, _ => [])
  }

  // Adding markers, or taking some back, changes neither the law nor the values.
  lemma MarkersKeep(output: seq<ConfigItem>, sections: seq<seq<string>>, out: seq<ConfigItem>, k: nat)
    requires |sections| == |output| && OnlyMarkersAfter(output, out, k)
    ensures var sections' := Pad(sections, k, |out|);
      && (Lawful(out, sections') <==> Lawful(output, sections))
      && ItemValues(out, sections') == ItemValues(output, sections)
  {
    var sections' := Pad(sections, k, |out|);
    forall i | 0 <= i < k ensures LawfulAt(out, sections', i) <==> LawfulAt(output, sections, i) {
      assert out[..k][i] == output[..k][i];
      assert out[..i] == out[..k][..i] == output[..k][..i] == output[..i];
    }
    forall i | k <= i < |output| ensures LawfulAt(output, sections, i) {}
    forall i | k <= i < |out| ensures LawfulAt(out, sections', i) {}
    ValuesOfPrefix(output, sections, k);
    ValuesOfPrefix(out, sections', k);
    assert sections'[..k] == sections[..k];
  }

  lemma {:induction false} ValuesOfPrefix(output: seq<ConfigItem>, sections: seq<seq<string>>, k: nat)
    requires |sections| == |output| && k <= |output|
    requires forall i :: k <= i < |output| ==> !Ordinary(output[i])
    ensures ItemValues(output, sections) == ItemValues(output[..k], sections[..k])
    decreases |output|
  {
    var n := |output| - 1;
    if k == |output| {
      assert output[..k] == output && sections[..k] == sections;
    } else {
      ValuesOfPrefix(output[..n], sections[..n], k);
      assert output[..n][..k] == output[..k] && sections[..n][..k] == sections[..k];
    }
  }

  lemma AppendKeeps(output: seq<ConfigItem>, sections: seq<seq<string>>, x: ConfigItem, section: seq<string>)
    requires |sections| == |output| && Ordinary(x)
    ensures var out, sections' := output + [x], sections + [section];
      && (Lawful(out, sections') <==> Lawful(output, sections) && Opened(output) == Some(Prefixes(section)))
      && ItemValues(out, sections') == ItemValues(output, sections) + ([Item(section, HeadOf(x))] + Inputs(x.inputs))
  {
    var out, sections' := output + [x], sections + [section];
    assert out[..|output|] == output && sections'[..|output|] == sections;
    forall i | 0 <= i < |output| ensures LawfulAt(out, sections', i) <==> LawfulAt(output, sections, i) {
      assert out[..i] == output[..i];
    }
    assert LawfulAt(out, sections', |output|) <==> Opened(output) == Some(Prefixes(section));
  }

  lemma MergeKeeps(output: seq<ConfigItem>, sections: seq<seq<string>>, more: seq<string>)
    requires |sections| == |output| && output != [] && Ordinary(output[|output| - 1])
    ensures var n := |output| - 1; var x := output[n];
      var out := output[n := x.(inputs := x.inputs + more)];
      && (Lawful(out, sections) <==> Lawful(output, sections))
      && Opened(out) == Opened(output)
      && ItemValues(out, sections) == ItemValues(output, sections) + Inputs(more)
  {
    var n := |output| - 1;
    var x := output[n];
    var out := output[n := x.(inputs := x.inputs + more)];
    assert out[..n] == output[..n];
    forall i | 0 <= i < |output| ensures LawfulAt(out, sections, i) <==> LawfulAt(output, sections, i) {
      assert out[..i] == output[..i];
    }
    assert Inputs(x.inputs + more) == Inputs(x.inputs) + Inputs(more);
  }

  // ---------- the code ----------

  // ok says that no key read so far is named like a marker.  Without it the code runs all the
  // same, but no section is kept track of.

  method Close(output: seq<ConfigItem>, path: seq<string>, ghost sections: seq<seq<string>>, ghost ok: bool)
    returns (out: seq<ConfigItem>, ghost sections': seq<seq<string>>)
    requires (ok ==> |sections| == |output|) && path != []
    ensures EndsWithClose(out) && out[|out| - 1].parents == path
    ensures ok ==> |sections'| == |out| && (Lawful(out, sections') <==> Lawful(output, sections))
    ensures ok ==> ItemValues(out, sections') == ItemValues(output, sections)
    ensures InSection(output, path) ==> JustClosed(out, path)
  {
    out := output + [Marker(CLOSE, path)];
    sections' := [];
    if ok {
      MarkersKeep(output, sections, out, |output|);
      sections' := Pad(sections, |output|, |out|);
    }
    if InSection(output, path) {
      OpenedAppend(output, Marker(CLOSE, path));
    }
  }

  method ReadHeader(output: seq<ConfigItem>, current: string, section: string,
                    ghost sections: seq<seq<string>>, ghost w: Walk, ghost ok: bool)
    returns (out: seq<ConfigItem>, ghost sections': seq<seq<string>>)
    requires (ok ==> Good(output, sections, w)) && w.current == SectionParents(current)
    ensures ok ==> Good(out, sections', StepWalk(w, Header(section)))
    ensures ok ==> ItemValues(out, sections') == ItemValues(output, sections)
  {
    out, sections' := LeaveSection(output, current, sections, w, ok);
    if !IsDefault(section) {
      out, sections' := EnterSection(out, section, sections', Left(w), ok);
    }
  }

  method LeaveSection(output: seq<ConfigItem>, current: string,
                      ghost sections: seq<seq<string>>, ghost w: Walk, ghost ok: bool)
    returns (out: seq<ConfigItem>, ghost sections': seq<seq<string>>)
    requires (ok ==> Good(output, sections, w)) && w.current == SectionParents(current)
    ensures ok ==> Good(out, sections', Left(w))
    ensures ok ==> ItemValues(out, sections') == ItemValues(output, sections)
  {
    out, sections' := output, sections;
    if !IsDefault(current) {
      var parents, _ := GenerateParents(current, "");
      assert parents == SectionParents(current);
      out, sections' := Close(out, parents, sections, ok);
    }
  }

  method EnterSection(output: seq<ConfigItem>, section: string,
                      ghost sections: seq<seq<string>>, ghost w: Walk, ghost ok: bool)
    returns (out: seq<ConfigItem>, ghost sections': seq<seq<string>>)
    requires (ok ==> Good(output, sections, w)) && w.current == [] && !IsDefault(section)
    ensures ok ==> Good(out, sections', Walk(SectionParents(section), [], w.clean, None))
    ensures ok ==> ItemValues(out, sections') == ItemValues(output, sections)
  {
    var parents, _ := GenerateParents(section, "");
    assert parents == SectionParents(section);
    ghost var k;
    out, k := CheckParentSegments(output, parents);
    sections' := [];
    if ok {
      sections' := Pad(sections, k, |out|);
      EnterGood(output, sections, w, out, k, parents);
    }
  }

  lemma EnterGood(output: seq<ConfigItem>, sections: seq<seq<string>>, w: Walk, out: seq<ConfigItem>, k: nat, parents: seq<string>)
    requires Good(output, sections, w) && w.current == [] && parents != []
    requires OnlyMarkersAfter(output, out, k) && out != [] && out[|out| - 1] == Marker(OPEN, parents)
    requires AllClosed(output) || (EndsWithClose(output) && JustClosed(output, output[|output| - 1].parents)) ==>
               InSection(out, parents)
    ensures Good(out, Pad(sections, k, |out|), Walk(parents, [], w.clean, None))
    ensures ItemValues(out, Pad(sections, k, |out|)) == ItemValues(output, sections)
  {
    MarkersKeep(output, sections, out, k);
  }

  method ReadEntry(output: seq<ConfigItem>, current: string, key: string, items: seq<string>,
                   ghost sections: seq<seq<string>>, ghost w: Walk, ghost ok: bool)
    returns (out: seq<ConfigItem>, ghost sections': seq<seq<string>>)
    requires (ok ==> Good(output, sections, w)) && w.current == SectionParents(current)
    requires ok ==> KeyPath(key).1 != OPEN && KeyPath(key).1 != CLOSE
    ensures ok ==> Good(out, sections', StepWalk(w, Entry(key, items)))
    ensures ok ==> ItemValues(out, sections') == ItemValues(output, sections) + LineValues(w, Entry(key, items))
  {
    out, sections' := output, sections;
    var parents, name := GenerateParents(current, key);
    if |parents| > MAXIMUM_LAYERS {
      return;
    }
    out, sections' := AddItem(output, ConfigItem(parents, name, items), sections, w, ok);
  }

  // An item is right where it is exactly if no section is still open that it is not in.
  lemma StandingIsRight(output: seq<ConfigItem>, w: Walk, x: ConfigItem)
    requires w.clean && Standing(output, w) && Ordinary(x) && (w.current != [] ==> w.stranded == [])
    ensures Opened(output) == Some(Prefixes(w.current)) <==> AfterEntry(w, HeadOf(x)).clean
    ensures AfterEntry(w, HeadOf(x)).clean ==> Standing(output + [x], AfterEntry(w, HeadOf(x)))
  {
    OpenedAppend(output, x);
  }

  lemma AppendGood(output: seq<ConfigItem>, sections: seq<seq<string>>, x: ConfigItem, w: Walk)
    requires Good(output, sections, w) && Ordinary(x) && LastHead(output) != Some(HeadOf(x))
    ensures Good(output + [x], sections + [w.current], AfterEntry(w, HeadOf(x)))
    ensures ItemValues(output + [x], sections + [w.current]) ==
            ItemValues(output, sections) + EntryValues(w, HeadOf(x), x.inputs)
  {
    AppendKeeps(output, sections, x, w.current);
    if w.clean { StandingIsRight(output, w, x); }
  }

  lemma MergeGood(output: seq<ConfigItem>, sections: seq<seq<string>>, more: seq<string>, w: Walk)
    requires Good(output, sections, w) && output != [] && Ordinary(output[|output| - 1])
    ensures var n := |output| - 1; var out := output[n := output[n].(inputs := output[n].inputs + more)];
      && Good(out, sections, AfterEntry(w, HeadOf(output[n])))
      && ItemValues(out, sections) == ItemValues(output, sections) + EntryValues(w, HeadOf(output[n]), more)
  {
    MergeKeeps(output, sections, more);
    assert [] + Inputs(more) == Inputs(more);
  }

  // An entry of the current section; one with the same name and parents as the item before it
  // only adds to that item.
  method AddItem(output: seq<ConfigItem>, x: ConfigItem, ghost sections: seq<seq<string>>, ghost w: Walk, ghost ok: bool)
    returns (out: seq<ConfigItem>, ghost sections': seq<seq<string>>)
    requires ok ==> Good(output, sections, w) && Ordinary(x)
    ensures ok ==> Good(out, sections', AfterEntry(w, HeadOf(x)))
    ensures ok ==> ItemValues(out, sections') == ItemValues(output, sections) + EntryValues(w, HeadOf(x), x.inputs)
  {
    if output != [] && x.name == output[|output| - 1].name && x.parents == output[|output| - 1].parents {
      var n := |output| - 1;
      var last := output[n];
      out, sections' := output[n := last.(inputs := last.inputs + x.inputs)], sections;
      if ok { MergeGood(output, sections, x.inputs, w); }
    } else {
      out, sections' := output + [x], sections + [w.current];
      if ok { AppendGood(output, sections, x, w); }
    }
  }

  // A key named like a marker would be taken for one.
  predicate OrdinaryKeys(lines: seq<Line>) {
    forall l :: l in lines && l.Entry? ==> KeyPath(l.name).1 != OPEN && KeyPath(l.name).1 != CLOSE
  }

  method NextLine(lines: seq<string>, i: nat) returns (line: Option<Line>, next: nat)
    requires i < |lines|
    ensures (line, next) == ReadLine(lines, i)
  {
    var text := Trim(lines[i]);
    next := i + 1;
    if IsSkipped(text) {
      return None, next;
    }
    if IsHeader(text) {
      return Some(Header(SectionName(text))), next;
    }
    var entry;
    entry, next := NextEntry(text, lines, next);
    line := Some(entry);
  }

  method NextEntry(text: string, lines: seq<string>, i: nat) returns (entry: Line, next: nat)
    requires i <= |lines|
    ensures (entry, next) == EntryOf(text, lines, i)
  {
    var pos := Find(text, '=', 0);
    if pos.None? {
      return Entry(KeyName(Uncomment(text)), ["true"]), i;
    }
    var name := KeyName(Trim(text[..pos.value]));
    var item := Uncomment(text[pos.value + 1..]);
    entry, next := NextValue(name, item, lines, i);
  }

  method NextValue(name: string, start: string, lines: seq<string>, i: nat) returns (entry: Line, next: nat)
    requires i <= |lines|
    ensures (entry, next) == EntryAt(name, start, lines, i)
  {
    var item := start;
    next := i;
    if |item| > 1 && item[0] == '[' {
      item, next := GatherArray(item, lines, i);
    }
    entry := Entry(name, ItemsOf(item));
  }

  method GatherArray(start: string, lines: seq<string>, i: nat) returns (item: string, next: nat)
    requires start != "" && i <= |lines|
    ensures (item, next) == Gather(start, lines, i)
  {
    item, next := start, i;
    while item[|item| - 1] != ']' && next < |lines|
      invariant item != "" && next <= |lines| && Gather(item, lines, next) == Gather(start, lines, i)
      decreases |lines| - next
    {
      item := item + Trim(lines[next]);
      next := next + 1;
    }
  }

  lemma DefaultHasNoParents()
    ensures SectionParents("default") == []
  {
    assert IsDefault("default");
  }

  lemma NextLines(lines: seq<string>, i: nat)
    requires i < |lines|
    ensures var (line, next) := ReadLine(lines, i);
      LinesFrom(lines, i) == (if line.Some? then [line.value] else []) + LinesFrom(lines, next)
  {
  }

  lemma OneMore(done: seq<Line>, line: Line)
    ensures WalkAll(done + [line]) == StepWalk(WalkAll(done), line)
    ensures FileValues(done + [line]) == FileValues(done) + LineValues(WalkAll(done), line)
  {
    assert (done + [line])[..|done|] == done;
  }

  method ReadOne(output: seq<ConfigItem>, current: string, line: Line,
                 ghost sections: seq<seq<string>>, ghost w: Walk, ghost ok: bool)
    returns (out: seq<ConfigItem>, current': string, ghost sections': seq<seq<string>>)
    requires (ok ==> Good(output, sections, w)) && w.current == SectionParents(current)
    requires ok && line.Entry? ==> KeyPath(line.name).1 != OPEN && KeyPath(line.name).1 != CLOSE
    ensures (ok ==> Good(out, sections', StepWalk(w, line))) && StepWalk(w, line).current == SectionParents(current')
    ensures ok ==> ItemValues(out, sections') == ItemValues(output, sections) + LineValues(w, line)
  {
    current' := current;
    match line {
      case Header(section) =>
        out, sections' := ReadHeader(output, current, section, sections, w, ok);
        current' := section;
      case Entry(name, items) =>
        out, sections' := ReadEntry(output, current, name, items, sections, w, ok);
    }
  }

  // What has been read up to a line, and what came of it.
  ghost predicate Reading(done: seq<Line>, output: seq<ConfigItem>, current: string, sections: seq<seq<string>>, ok: bool) {
    && WalkAll(done).current == SectionParents(current)
    && (ok ==> Good(output, sections, WalkAll(done)) && ItemValues(output, sections) == FileValues(done))
  }

  lemma SplitDone(all: seq<Line>, done: seq<Line>, line: Option<Line>, rest: seq<Line>)
    requires done + ((if line.Some? then [line.value] else []) + rest) == all
    ensures line.None? ==> done + rest == all
    ensures line.Some? ==> (done + [line.value]) + rest == all
    ensures OrdinaryKeys(all) && line.Some? && line.value.Entry? ==>
              KeyPath(line.value.name).1 != OPEN && KeyPath(line.value.name).1 != CLOSE
  {
    if line.Some? { assert all[|done|] == line.value; }
  }

  method Consume(line: Line, output: seq<ConfigItem>, current: string,
                 ghost done: seq<Line>, ghost sections: seq<seq<string>>, ghost ok: bool)
    returns (out: seq<ConfigItem>, current': string, ghost sections': seq<seq<string>>)
    requires Reading(done, output, current, sections, ok)
    requires ok && line.Entry? ==> KeyPath(line.name).1 != OPEN && KeyPath(line.name).1 != CLOSE
    ensures Reading(done + [line], out, current', sections', ok)
  {
    OneMore(done, line);
    out, current', sections' := ReadOne(output, current, line, sections, WalkAll(done), ok);
  }

  // The sections the items stand in, as the file has them.
  ghost predicate Places(lines: seq<Line>, output: seq<ConfigItem>, sections: seq<seq<string>>) {
    |sections| == |output| && ItemValues(output, sections) == FileValues(lines)
  }

  lemma {:induction false} SameLength(output: seq<ConfigItem>, a: seq<seq<string>>, b: seq<seq<string>>)
    requires |a| == |b| == |output|
    ensures |ItemValues(output, a)| == |ItemValues(output, b)|
    decreases |output|
  {
    if output != [] {
      var n := |output| - 1;
      SameLength(output[..n], a[..n], b[..n]);
    }
  }

  lemma SplitAtItem(x: seq<Value>, x': seq<Value>, y: Value, y': Value, z: seq<Value>, z': seq<Value>)
    requires |x| == |x'| && x + ([y] + z) == x' + ([y'] + z')
    ensures x == x' && y == y'
  {
    assert x == (x + ([y] + z))[..|x|] && x' == (x' + ([y'] + z'))[..|x|];
    assert y == (x + ([y] + z))[|x|] && y' == (x' + ([y'] + z'))[|x|];
  }

  // What the file holds fixes every item's section, also of items without values.
  lemma {:induction false} SectionsFixed(output: seq<ConfigItem>, a: seq<seq<string>>, b: seq<seq<string>>)
    requires |a| == |b| == |output| && ItemValues(output, a) == ItemValues(output, b)
    ensures forall i :: 0 <= i < |output| && Ordinary(output[i]) ==> a[i] == b[i]
    decreases |output|
  {
    if output != [] {
      var n := |output| - 1;
      SameLength(output[..n], a[..n], b[..n]);
      if Ordinary(output[n]) {
        SplitAtItem(ItemValues(output[..n], a[..n]), ItemValues(output[..n], b[..n]),
                    Item(a[n], HeadOf(output[n])), Item(b[n], HeadOf(output[n])),
                    Inputs(output[n].inputs), Inputs(output[n].inputs));
      } else {
        assert ItemValues(output, a) == ItemValues(output[..n], a[..n]);
        assert ItemValues(output, b) == ItemValues(output[..n], b[..n]);
      }
      SectionsFixed(output[..n], a[..n], b[..n]);
      forall i | 0 <= i < |output| && Ordinary(output[i]) ensures a[i] == b[i] {
        if i < n { assert output[..n][i] == output[i] && a[..n][i] == a[i] && b[..n][i] == b[i]; }
      }
    }
  }

  lemma NestedAlike(output: seq<ConfigItem>, a: seq<seq<string>>, b: seq<seq<string>>)
    requires |a| == |b| == |output| && ItemValues(output, a) == ItemValues(output, b)
    ensures Nested(output, a) <==> Nested(output, b)
  {
    SectionsFixed(output, a, b);
    forall i | 0 <= i < |output| ensures LawfulAt(output, a, i) <==> LawfulAt(output, b, i) {}
  }

  // What the file leaves open at its end, if all its entries are where they should be.
  function LeftOpen(lines: seq<Line>): seq<seq<string>> {
    var path := WalkAll(lines).stranded;
    if path == [] then [] else Prefixes(path[..|path| - 1])
  }

  // What is promised of the output of a file without keys named as markers: it holds the file's
  // items and values once, in order, each item in its section; the markers nest exactly if the
  // file is clean; and if its entries are right, what its end leaves open is left open.
  ghost predicate Promised(lines: seq<Line>, output: seq<ConfigItem>) {
    && (exists sections :: Places(lines, output, sections))
    && (forall sections :: Places(lines, output, sections) ==> (Nested(output, sections) <==> Clean(lines)))
    && (WalkAll(lines).clean ==> Opened(output) == Some(LeftOpen(lines)))
  }

  method FromConfig(lines: seq<string>) returns (output: seq<ConfigItem>)
    ensures OrdinaryKeys(LinesFrom(lines, 0)) ==> Promised(LinesFrom(lines, 0), output)
  {
    output := [];
    ghost var sections: seq<seq<string>> := [];
    var current := "default";
    DefaultHasNoParents();
    ghost var all := LinesFrom(lines, 0);
    ghost var ok := OrdinaryKeys(all);
    ghost var done, rest: seq<Line> := [], all;
    var i := 0;
    while i < |lines|
      invariant i <= |lines| && rest == LinesFrom(lines, i) && done + rest == all
      invariant Reading(done, output, current, sections, ok)
    {
      var line, next := NextLine(lines, i);
      NextLines(lines, i);
      rest := LinesFrom(lines, next);
      SplitDone(all, done, line, rest);
      if line.Some? {
        output, current, sections := Consume(line.value, output, current, done, sections, ok);
        done := done + [line.value];
      }
      i := next;
    }
    assert done == all;
    output, sections := Finish(output, current, sections, WalkAll(done), ok);
    if ok { KeepsPromise(all, output, sections); }
  }

  lemma KeepsPromise(lines: seq<Line>, output: seq<ConfigItem>, sections: seq<seq<string>>)
    requires Places(lines, output, sections) && (Nested(output, sections) <==> Clean(lines))
    requires WalkAll(lines).clean ==> Opened(output) == Some(LeftOpen(lines))
    ensures Promised(lines, output)
  {
    forall other | Places(lines, output, other) ensures Nested(output, other) <==> Clean(lines) {
      NestedAlike(output, sections, other);
    }
  }

  method Finish(output: seq<ConfigItem>, current: string, ghost sections: seq<seq<string>>, ghost w: Walk, ghost ok: bool)
    returns (out: seq<ConfigItem>, ghost sections': seq<seq<string>>)
    requires (ok ==> Good(output, sections, w)) && w.current == SectionParents(current)
    ensures ok ==> |sections'| == |out| && ItemValues(out, sections') == ItemValues(output, sections)
    ensures ok ==> (Nested(out, sections') <==> w.clean && |w.stranded| <= 1)
    ensures ok && w.clean ==>
              Opened(out) == Some(if w.stranded == [] then [] else Prefixes(w.stranded[..|w.stranded| - 1]))
  {
    out, sections' := output, sections;
    if !IsDefault(current) {
      var parents, _ := GenerateParents(current, "");
      assert parents == SectionParents(current);
      out, sections' := Close(output, parents, sections, ok);
      ghost var before, was := out, sections';
      out := CloseDownTo(out, 2);
      if ok {
        MarkersKeep(before, was, out, |before|);
        sections' := Pad(was, |before|, |out|);
      }
    }
  }

  // ---------- a file that is not clean ----------

  const Stranding: seq<string> := ["[a.b]", "[default]"]

  lemma StrandingLines()
    ensures LinesFrom(Stranding, 0) == [Header("a.b"), Header("default")]
  {
    assert "[a.b]" == ['['] + "a.b" + [']'] && "[default]" == ['['] + "default" + [']'];
    WrittenHeaderReadsBack(Stranding, 0, "a.b");
    WrittenHeaderReadsBack(Stranding, 1, "default");
    assert LinesFrom(Stranding, 2) == [];
  }

  lemma DottedParents()
    ensures SectionParents("a.b") == ["a", "b"]
  {
    FindFirst("a.b", '.', 0, 1);
    FindNone("b", '.', 0);
    assert "a.b"[..1] == "a" && "a.b"[2..] == "b";
    assert Split("a.b", '.') == ["a", "b"];
  }

  // Two headers and nothing else: the outer section is left open.
  lemma StrandingWalk()
    ensures OrdinaryKeys(LinesFrom(Stranding, 0)) && WalkAll(LinesFrom(Stranding, 0)).clean
    ensures !Clean(LinesFrom(Stranding, 0)) && LeftOpen(LinesFrom(Stranding, 0)) == [["a"]]
  {
    StrandingLines();
    WalkTwo(Header("a.b"), Header("default"));
    StrandingSteps();
    StrandedTwoDeep(LinesFrom(Stranding, 0), "a", "b");
  }

  lemma StrandedTwoDeep(lines: seq<Line>, a: string, b: string)
    requires WalkAll(lines) == Walk([], [a, b], true, None)
    ensures !Clean(lines) && LeftOpen(lines) == [[a]]
  {
    var path := WalkAll(lines).stranded;
    assert path[..|path| - 1] == [a] && [a][..0] == [];
    assert Prefixes([a]) == Prefixes([]) + [[a]] == [[a]];
  }

  lemma StrandingSteps()
    ensures StepWalk(StepWalk(Walk([], [], true, None), Header("a.b")), Header("default")) ==
            Walk([], ["a", "b"], true, None)
  {
    DottedParents();
    DefaultHasNoParents();
  }

  lemma WalkTwo(a: Line, b: Line)
    ensures WalkAll([a, b]) == StepWalk(StepWalk(Walk([], [], true, None), a), b)
  {
    assert [a][..0] == [] && WalkAll([a]) == StepWalk(Walk([], [], true, None), a);
    assert [a, b][..|[a, b]| - 1] == [a];
  }

  method ReadStranding() returns (output: seq<ConfigItem>)
    ensures Opened(output) == Some([["a"]])
  {
    StrandingWalk();
    output := FromConfig(Stranding);
  }
}
