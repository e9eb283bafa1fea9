/**
 What a file holds and when it is clean, said of its lines without going through them.
 */
module ReaderLaws {
  import opened Wrappers
  import opened ConfigValues
  import opened ConfigSections
  import opened ConfigReader

  // ---------- sections ----------

  lemma Last(lines: seq<Line>)
    requires lines != []
    ensures var n := |lines| - 1; WalkAll(lines) == StepWalk(WalkAll(lines[..n]), lines[n])
  {
  }

  // The current section is that of the last header.
  lemma {:induction false} CurrentSection(lines: seq<Line>, h: nat)
    requires h < |lines| && lines[h].Header? && forall k :: h < k < |lines| ==> lines[k].Entry?
    ensures WalkAll(lines).current == SectionParents(lines[h].section)
    decreases |lines|
  {
    Last(lines);
    if h < |lines| - 1 { CurrentSection(lines[..|lines| - 1], h); }
  }

  lemma {:induction false} NoSection(lines: seq<Line>)
    requires forall k :: 0 <= k < |lines| ==> lines[k].Entry?
    ensures WalkAll(lines).current == [] && WalkAll(lines).stranded == []
    decreases |lines|
  {
    if lines != [] {
      Last(lines);
      NoSection(lines[..|lines| - 1]);
    }
  }

  // Entries are kept up to 255 levels deep, the section's and the key's together.
  lemma KeptUpTo(current: seq<string>, name: string)
    ensures Kept(current, name) <==> |current| + |KeyPath(name).0| <= 255
  {
  }

  // ---------- items ----------

  lemma Appended(lines: seq<Line>, l: Line)
    ensures WalkAll(lines + [l]) == StepWalk(WalkAll(lines), l)
    ensures FileValues(lines + [l]) == FileValues(lines) + LineValues(WalkAll(lines), l)
  {
    OneMore(lines, l);
  }

  // Headers hold nothing, nor do entries too deep.
  lemma HoldsNothing(lines: seq<Line>, l: Line)
    requires l.Header? || |WalkAll(lines).current| + |KeyPath(l.name).0| > 255
    ensures FileValues(lines + [l]) == FileValues(lines)
  {
    Appended(lines, l);
    assert FileValues(lines) + [] == FileValues(lines);
  }

  predicate Fits(current: seq<string>, l: Line) {
    l.Entry? && |current| + |KeyPath(l.name).0| <= 255
  }

  // An entry after a header is a new item: in its section, under the section's parents and those
  // of its key, with its values.
  lemma EntryAfterHeader(lines: seq<Line>, section: string, l: Line)
    requires Fits(SectionParents(section), l) && SectionParents(section) != []
    ensures var path := SectionParents(section);
      FileValues(lines + [Header(section)] + [l]) ==
      FileValues(lines) + ([Item(path, (path + KeyPath(l.name).0, KeyPath(l.name).1))] + Inputs(l.inputs))
  {
    Appended(lines, Header(section));
    HoldsNothing(lines, Header(section));
    Appended(lines + [Header(section)], l);
  }

  lemma AfterKept(w: Walk, x: Line)
    requires Fits(w.current, x)
    ensures StepWalk(w, x).current == w.current && StepWalk(w, x).last == Some(EntryHead(w.current, x.name))
  {
  }

  lemma SameHead(path: seq<string>, x: string, y: string)
    ensures EntryHead(path, x) == EntryHead(path, y) <==> KeyPath(x) == KeyPath(y)
  {
    SamePrefix(path, KeyPath(x).0, KeyPath(y).0);
  }

  // An entry right after another is a new item, unless both have the same parents and name:
  // then its values are added to that item.
  lemma EntryAfterEntry(lines: seq<Line>, x: Line, y: Line)
    requires Fits(WalkAll(lines).current, x) && Fits(WalkAll(lines).current, y)
    ensures var path := WalkAll(lines).current;
      FileValues(lines + [x] + [y]) == FileValues(lines + [x]) +
      ((if KeyPath(x.name) == KeyPath(y.name) then [] else [Item(path, (path + KeyPath(y.name).0, KeyPath(y.name).1))]) +
       Inputs(y.inputs))
  {
    var w := WalkAll(lines);
    Appended(lines, x);
    Appended(lines + [x], y);
    AfterKept(w, x);
    SameHead(w.current, x.name, y.name);
    ValuesAfter(WalkAll(lines + [x]), y, EntryHead(w.current, x.name));
  }

  lemma ValuesAfter(w: Walk, y: Line, last: Head)
    requires Fits(w.current, y) && w.last == Some(last)
    ensures LineValues(w, y) ==
            (if last == EntryHead(w.current, y.name) then [] else [Item(w.current, EntryHead(w.current, y.name))]) + Inputs(y.inputs)
  {
  }

  lemma SamePrefix(path: seq<string>, a: seq<string>, b: seq<string>)
    ensures path + a == path + b ==> a == b
  {
    if path + a == path + b {
      assert (path + a)[|path|..] == a && (path + b)[|path|..] == b;
    }
  }

  // The first entry of a file.
  lemma FirstEntry(l: Line)
    requires Fits([], l)
    ensures FileValues([l]) == [Item([], (KeyPath(l.name).0, KeyPath(l.name).1))] + Inputs(l.inputs)
  {
    Appended([], l);
    assert [] + [l] == [l];
    assert [] + KeyPath(l.name).0 == KeyPath(l.name).0;
    assert FileValues([]) == [];
  }

  // ---------- clean files ----------

  // What a line does: enter a section, the default one having no path; be kept as an entry; or
  // neither, as an entry too deep.
  datatype Deed = Enter(path: seq<string>) | Keep | Skip

  function DeedOf(current: seq<string>, l: Line): Deed {
    match l
    case Header(section) => Enter(SectionParents(section))
    case Entry(_, _) => if Fits(current, l) then Keep else Skip
  }

  ghost predicate DeedsOf(lines: seq<Line>, deeds: seq<Deed>) {
    |deeds| == |lines| && forall k :: 0 <= k < |lines| ==> deeds[k] == DeedOf(WalkAll(lines[..k]).current, lines[k])
  }

  // Deed g enters a section two or more levels deep, no section is entered up to deed h, which
  // enters the default one, and from there up to j nothing is entered but that, and nothing kept.
  ghost predicate Stranded(deeds: seq<Deed>, g: nat, h: nat, j: nat)
    requires j <= |deeds|
  {
    && g < h < j
    && deeds[g].Enter? && |deeds[g].path| >= 2
    && (forall k :: g < k < h ==> !deeds[k].Enter?)
    && deeds[h] == Enter([])
    && (forall k :: h < k < j ==> deeds[k] == Skip || deeds[k] == Enter([]))
  }

  ghost predicate SomeStranded(deeds: seq<Deed>, j: nat)
    requires j <= |deeds|
  {
    exists g, h :: Stranded(deeds, g, h, j)
  }

  datatype Place = Place(current: seq<string>, stranded: seq<string>, clean: bool)

  function PlaceStep(p: Place, d: Deed): Place {
    match d
    case Enter(path) =>
      if path != [] then Place(path, [], p.clean)
      else if p.current != [] then Place([], p.current, p.clean)
      else p
    case Keep => if p.current == [] then Place([], [], p.clean && |p.stranded| <= 1) else p
    case Skip => p
  }

  function PlaceAt(deeds: seq<Deed>, n: nat): Place
    requires n <= |deeds|
  {
    if n == 0 then Place([], [], true) else PlaceStep(PlaceAt(deeds, n - 1), deeds[n - 1])
  }

  lemma StepAlike(w: Walk, l: Line)
    ensures var w' := StepWalk(w, l);
      Place(w'.current, w'.stranded, w'.clean) == PlaceStep(Place(w.current, w.stranded, w.clean), DeedOf(w.current, l))
  {
  }

  lemma {:induction false} WalkAlike(lines: seq<Line>, deeds: seq<Deed>, n: nat)
    requires DeedsOf(lines, deeds) && n <= |lines|
    ensures var w := WalkAll(lines[..n]); Place(w.current, w.stranded, w.clean) == PlaceAt(deeds, n)
  {
    if n > 0 {
      WalkAlike(lines, deeds, n - 1);
      assert lines[..n][..n - 1] == lines[..n - 1] && lines[..n][n - 1] == lines[n - 1];
      Last(lines[..n]);
      StepAlike(WalkAll(lines[..n - 1]), lines[n - 1]);
    }
  }

  // The last section entered, if it is not the default one.
  lemma {:induction false} LastEntered(deeds: seq<Deed>, n: nat) returns (g: nat)
    requires n <= |deeds| && PlaceAt(deeds, n).current != []
    ensures g < n && deeds[g] == Enter(PlaceAt(deeds, n).current) && forall k :: g < k < n ==> !deeds[k].Enter?
  {
    g := n - 1;
    if !deeds[g].Enter? { g := LastEntered(deeds, g); }
  }

  lemma {:induction false} CurrentIsLast(deeds: seq<Deed>, n: nat, g: nat)
    requires g < n <= |deeds| && deeds[g].Enter?
    requires forall k :: g < k < n && deeds[k].Enter? ==> deeds[k] == deeds[g] == Enter([])
    ensures PlaceAt(deeds, n).current == deeds[g].path
  {
    if g < n - 1 { CurrentIsLast(deeds, n - 1, g); }
  }

  lemma {:induction false} NotBoth(deeds: seq<Deed>, n: nat)
    requires n <= |deeds|
    ensures PlaceAt(deeds, n).current != [] ==> PlaceAt(deeds, n).stranded == []
  {
    if n > 0 { NotBoth(deeds, n - 1); }
  }

  lemma {:induction false} FindStranded(deeds: seq<Deed>, n: nat) returns (g: nat, h: nat)
    requires n <= |deeds| && |PlaceAt(deeds, n).stranded| >= 2
    ensures Stranded(deeds, g, h, n)
  {
    NotBoth(deeds, n - 1);
    h := n - 1;
    if deeds[h] == Enter([]) && PlaceAt(deeds, h).current != [] {
      g := LastEntered(deeds, h);
    } else {
      g, h := FindStranded(deeds, n - 1);
    }
  }

  lemma {:induction false} StrandedIsFound(deeds: seq<Deed>, n: nat, g: nat, h: nat)
    requires n <= |deeds| && Stranded(deeds, g, h, n)
    ensures |PlaceAt(deeds, n).stranded| >= 2
  {
    if h == n - 1 {
      CurrentIsLast(deeds, h, g);
    } else {
      StrandedIsFound(deeds, n - 1, g, h);
      CurrentIsLast(deeds, n - 1, h);
    }
  }

  lemma SomeStrandedIff(deeds: seq<Deed>, n: nat)
    requires n <= |deeds|
    ensures SomeStranded(deeds, n) <==> |PlaceAt(deeds, n).stranded| >= 2
  {
    if SomeStranded(deeds, n) {
      var g, h :| Stranded(deeds, g, h, n);
      StrandedIsFound(deeds, n, g, h);
    }
    if |PlaceAt(deeds, n).stranded| >= 2 {
      var g, h := FindStranded(deeds, n);
    }
  }

  lemma {:induction false} EntriesRightIff(deeds: seq<Deed>, n: nat)
    requires n <= |deeds|
    ensures PlaceAt(deeds, n).clean <==> forall j :: 0 <= j < n && deeds[j].Keep? ==> !SomeStranded(deeds, j)
  {
    if n > 0 {
      EntriesRightIff(deeds, n - 1);
      SomeStrandedIff(deeds, n - 1);
      NotBoth(deeds, n - 1);
    }
  }

  // A file is clean exactly if no entry it keeps, and not its end, is stranded in the default
  // section.
  lemma CleanIff(lines: seq<Line>, deeds: seq<Deed>)
    requires DeedsOf(lines, deeds)
    ensures Clean(lines) <==>
            && (forall j :: 0 <= j < |deeds| && deeds[j].Keep? ==> !SomeStranded(deeds, j))
            && !SomeStranded(deeds, |deeds|)
  {
    WalkAlike(lines, deeds, |lines|);
    assert lines[..|lines|] == lines;
    EntriesRightIff(deeds, |deeds|);
    SomeStrandedIff(deeds, |deeds|);
  }
}
