/**
 What lines of a config file say, character by character.
 */
module ConfigLaws {
  import opened Wrappers
  import opened Text
  import opened ConfigValues
  import opened ConfigSections

  // Space is 32 and 9 to 13; a quote is one of two characters, three where a piece starts.
  lemma Characters(c: char)
    ensures IsSpace(c) <==> c as int == 32 || 9 <= c as int <= 13
    ensures IsQuote(c) <==> c as int == 34 || c as int == 39
    ensures OpensQuote(c) <==> c as int == 34 || c as int == 39 || c as int == 96
  {
  }

  // ---------- lines that say nothing ----------

  lemma {:induction false} StartSurvives(spaces: string, c: char, rest: string)
    requires Spaces(spaces) && !IsSpace(c)
    ensures var t := Trim(spaces + [c] + rest); t != "" && t[0] == c
    decreases |rest|
  {
    var s := spaces + [c] + rest;
    if rest == "" {
      assert s == spaces + [c] + "";
      Padded(spaces, [c], "");
    } else if IsSpace(rest[|rest| - 1]) {
      assert s[..|s| - 1] == spaces + [c] + rest[..|rest| - 1];
      StartSurvives(spaces, c, rest[..|rest| - 1]);
    } else {
      assert RTrim(s) == s && s == spaces + ([c] + rest);
      SpacesTrimmed(spaces, [c] + rest);
    }
  }

  // A comment: '#' or ';' is the first character that is no space.
  predicate IsComment(line: string) {
    exists k :: 0 <= k < |line| && Spaces(line[..k]) && (line[k] == '#' || line[k] == ';')
  }

  lemma CommentSaysNothing(lines: seq<string>, i: nat)
    requires i < |lines| && IsComment(lines[i])
    ensures ReadLine(lines, i) == (None, i + 1) && LinesFrom(lines, i) == LinesFrom(lines, i + 1)
  {
    var line := lines[i];
    var k :| 0 <= k < |line| && Spaces(line[..k]) && (line[k] == '#' || line[k] == ';');
    assert line == line[..k] + [line[k]] + line[k + 1..];
    StartSurvives(line[..k], line[k], line[k + 1..]);
  }

  lemma ShortSaysNothing(lines: seq<string>, i: nat)
    requires i < |lines| && |Trim(lines[i])| < 3
    ensures ReadLine(lines, i) == (None, i + 1) && LinesFrom(lines, i) == LinesFrom(lines, i + 1)
  {
  }

  // ---------- one file after another ----------

  // The array that starts at a line, if any, ends within the lines.
  predicate ArrayEnds(lines: seq<string>, i: nat)
    requires i < |lines|
  {
    var line := Trim(lines[i]);
    if IsSkipped(line) || IsHeader(line) then true else
    match NameAndValue(line).1
    case None => true
    case Some(item) =>
      if |item| > 1 && item[0] == '[' then
        var whole := Gather(item, lines, i + 1).0;
        whole[|whole| - 1] == ']'
      else true
  }

  predicate ArraysEnd(lines: seq<string>, i: nat)
    requires i <= |lines|
    decreases |lines| - i
  {
    i == |lines| || (ArrayEnds(lines, i) && ArraysEnd(lines, ReadLine(lines, i).1))
  }

  lemma {:induction false} GatherBefore(item: string, a: seq<string>, b: seq<string>, i: nat)
    requires item != "" && i <= |a|
    requires var whole := Gather(item, a, i).0; whole[|whole| - 1] == ']'
    ensures Gather(item, a + b, i) == Gather(item, a, i)
    decreases |a| - i
  {
    if item[|item| - 1] != ']' { GatherBefore(item + Trim(a[i]), a, b, i + 1); }
  }

  // From position n on, a file goes on as another one does from its start.
  ghost predicate GoesOn(both: seq<string>, n: nat, b: seq<string>) {
    |both| == n + |b| && forall k {:trigger b[k]} :: 0 <= k < |b| ==> both[n + k] == b[k]
  }

  lemma {:induction false} GatherAfter(item: string, both: seq<string>, n: nat, b: seq<string>, i: nat)
    requires GoesOn(both, n, b) && item != "" && i <= |b|
    ensures Gather(item, both, n + i).0 == Gather(item, b, i).0
    ensures Gather(item, both, n + i).1 == n + Gather(item, b, i).1
    decreases |b| - i
  {
    if item[|item| - 1] != ']' && i < |b| {
      assert both[n + i] == b[i];
      GatherAfter(item + Trim(b[i]), both, n, b, i + 1);
    }
  }

  lemma EntryAtBefore(name: string, item: string, a: seq<string>, b: seq<string>, i: nat)
    requires i <= |a|
    requires |item| > 1 && item[0] == '[' ==> var whole := Gather(item, a, i).0; whole[|whole| - 1] == ']'
    ensures EntryAt(name, item, a + b, i) == EntryAt(name, item, a, i)
  {
    if |item| > 1 && item[0] == '[' { GatherBefore(item, a, b, i); }
  }

  lemma EntryAtAfter(name: string, item: string, both: seq<string>, n: nat, b: seq<string>, i: nat)
    requires GoesOn(both, n, b) && i <= |b|
    ensures EntryAt(name, item, both, n + i).0 == EntryAt(name, item, b, i).0
    ensures EntryAt(name, item, both, n + i).1 == n + EntryAt(name, item, b, i).1
  {
    if |item| > 1 && item[0] == '[' { GatherAfter(item, both, n, b, i); }
  }

  lemma EntryOfBefore(line: string, a: seq<string>, b: seq<string>, i: nat)
    requires i <= |a|
    requires match NameAndValue(line).1
      case None => true
      case Some(item) =>
        |item| > 1 && item[0] == '[' ==> var whole := Gather(item, a, i).0; whole[|whole| - 1] == ']'
    ensures EntryOf(line, a + b, i) == EntryOf(line, a, i)
  {
    match NameAndValue(line)
    case (_, None) =>
    case (name, Some(item)) => EntryAtBefore(name, item, a, b, i);
  }

  lemma EntryOfAfter(line: string, both: seq<string>, n: nat, b: seq<string>, i: nat)
    requires GoesOn(both, n, b) && i <= |b|
    ensures EntryOf(line, both, n + i).0 == EntryOf(line, b, i).0
    ensures EntryOf(line, both, n + i).1 == n + EntryOf(line, b, i).1
  {
    match NameAndValue(line)
    case (_, None) =>
    case (name, Some(item)) => EntryAtAfter(name, item, both, n, b, i);
  }

  lemma ReadBefore(a: seq<string>, b: seq<string>, i: nat)
    requires i < |a| && ArrayEnds(a, i)
    ensures ReadLine(a + b, i) == ReadLine(a, i)
  {
    var line := Trim(a[i]);
    assert (a + b)[i] == a[i];
    if !IsSkipped(line) && !IsHeader(line) { EntryOfBefore(line, a, b, i + 1); }
  }

  function Shifted(r: (Option<Line>, nat), n: nat): (Option<Line>, nat) {
    (r.0, n + r.1)
  }

  lemma LineOfAfter(line: string, both: seq<string>, n: nat, b: seq<string>, i: nat)
    requires GoesOn(both, n, b) && i <= |b|
    ensures LineOf(line, both, n + i) == Shifted(LineOf(line, b, i), n)
  {
    EntryOfAfter(line, both, n, b, i);
  }

  lemma ReadIsLineOf(lines: seq<string>, i: nat, text: string)
    requires i < |lines| && lines[i] == text
    ensures ReadLine(lines, i) == LineOf(Trim(text), lines, i + 1)
  {
  }

  lemma ReadAfter(both: seq<string>, n: nat, b: seq<string>, i: nat)
    requires GoesOn(both, n, b) && i < |b|
    ensures ReadLine(both, n + i) == Shifted(ReadLine(b, i), n)
  {
    assert both[n + i] == b[i];
    ReadIsLineOf(both, n + i, b[i]);
    ReadIsLineOf(b, i, b[i]);
    LineOfAfter(Trim(b[i]), both, n, b, i + 1);
  }

  lemma SameStep(x: seq<string>, i: nat, y: seq<string>, j: nat, tail: seq<Line>, shift: nat)
    requires i < |x| && j < |y| && ReadLine(x, i).0 == ReadLine(y, j).0 && ReadLine(x, i).1 == shift + ReadLine(y, j).1
    requires LinesFrom(x, ReadLine(x, i).1) == LinesFrom(y, ReadLine(y, j).1) + tail
    ensures LinesFrom(x, i) == LinesFrom(y, j) + tail
  {
  }

  lemma {:induction false} LinesAfter(both: seq<string>, n: nat, b: seq<string>, i: nat)
    requires GoesOn(both, n, b) && i <= |b|
    ensures LinesFrom(both, n + i) == LinesFrom(b, i)
    decreases |b| - i
  {
    if i < |b| {
      ReadAfter(both, n, b, i);
      LinesAfter(both, n, b, ReadLine(b, i).1);
      SameStep(both, n + i, b, i, [], n);
    }
  }

  // If no array is open at the end of the first, two files one after the other read as the first
  // and then the second.
  lemma {:induction false} FilesInSequence(a: seq<string>, b: seq<string>, i: nat)
    requires i <= |a| && ArraysEnd(a, i)
    ensures LinesFrom(a + b, i) == LinesFrom(a, i) + LinesFrom(b, 0)
    decreases |a| - i
  {
    if i == |a| {
      LinesAfter(a + b, |a|, b, 0);
      assert LinesFrom(a, i) == [];
    } else {
      ReadBefore(a, b, i);
      FilesInSequence(a, b, ReadLine(a, i).1);
      SameStep(a + b, i, a, i, LinesFrom(b, 0), 0);
    }
  }

  // A comment line outside arrays makes no difference.
  lemma {:induction false} CommentMakesNoDifference(a: seq<string>, comment: string, b: seq<string>)
    requires ArraysEnd(a, 0) && IsComment(comment)
    ensures LinesFrom(a + ([comment] + b), 0) == LinesFrom(a + b, 0)
  {
    FilesInSequence(a, [comment] + b, 0);
    FilesInSequence(a, b, 0);
    CommentFirst(comment, b);
  }

  lemma CommentFirst(comment: string, b: seq<string>)
    requires IsComment(comment)
    ensures LinesFrom([comment] + b, 0) == LinesFrom(b, 0)
  {
    CommentSaysNothing([comment] + b, 0);
    LinesAfter([comment] + b, 1, b, 0);
  }

  // ---------- trimming ----------

  lemma {:induction false} RTrimKeepsFront(a: string, b: string)
    requires RTrim(b) != ""
    ensures RTrim(a + b) == a + RTrim(b)
    decreases |b|
  {
    if IsSpace(b[|b| - 1]) {
      assert (a + b)[..|a + b| - 1] == a + b[..|b| - 1];
      RTrimKeepsFront(a, b[..|b| - 1]);
    }
  }

  lemma {:induction false} RTrimTwice(s: string)
    ensures RTrim(RTrim(s)) == RTrim(s)
    decreases |s|
  {
    if s != "" && IsSpace(s[|s| - 1]) { RTrimTwice(s[..|s| - 1]); }
  }

  lemma TrimAfterRTrim(s: string)
    ensures Trim(RTrim(s)) == Trim(s) && Uncomment(RTrim(s)) == Uncomment(s)
  {
    RTrimTwice(s);
  }

  lemma {:induction false} SolidEnd(s: string)
    requires s != "" && !IsSpace(s[0])
    ensures RTrim(s) != "" && RTrim(s)[0] == s[0]
    decreases |s|
  {
    if IsSpace(s[|s| - 1]) {
      assert |s| > 1;
      SolidEnd(s[..|s| - 1]);
    }
  }

  // ---------- names and values ----------

  // Nothing, or a comment sign and anything.
  predicate IsTail(s: string) {
    s == "" || s[0] == '#'
  }

  // A value, spaces around it, and a comment or none after it.
  function Spelled(gap: string, value: string, after: string, comment: string): string {
    gap + (value + (after + comment))
  }

  lemma ValueSpelled(gap: string, value: string, after: string, comment: string)
    requires Spaces(gap) && Spaces(after) && Solid(value) && '#' !in value && IsTail(comment)
    ensures Uncomment(Spelled(gap, value, after, comment)) == value
    ensures var t := RTrim(Spelled(gap, value, after, comment)); t != "" && Trim(t) != ""
  {
    var s := Spelled(gap, value, after, comment);
    TrimAfterRTrim(s);
    if comment == "" {
      assert s == gap + value + after;
      Padded(gap, value, after);
      FindNone(value, '#', 0);
    } else {
      CommentCutOff(gap, value, after, comment);
    }
  }

  lemma CommentCutOff(gap: string, value: string, after: string, comment: string)
    requires Spaces(gap) && Spaces(after) && Solid(value) && '#' !in value && comment != "" && comment[0] == '#'
    ensures var s := Spelled(gap, value, after, comment); Uncomment(s) == value && Trim(s) != ""
  {
    SolidEnd(comment);
    RTrimKeepsFront(gap + (value + after), comment);
    var s := Spelled(gap, value, after, comment);
    var end := RTrim(comment);
    assert s == gap + (value + after) + comment;
    var item := value + after + end;
    assert gap + (value + after) + end == gap + item;
    SpacesTrimmed(gap, item);
    assert Trim(s) == item;
    assert item[|value + after|] == '#';
    forall i | 0 <= i < |value + after| ensures item[i] != '#' {
      if i >= |value| { assert IsSpace(after[i - |value|]); }
    }
    FindFirst(item, '#', 0, |value + after|);
    assert item[..|value + after|] == "" + value + after;
    Padded("", value, after);
  }

  // Not the start of a header or a comment, and no '=' in it.  A comment sign may be in it: a '='
  // after one is found all the same, and what is before it is the name.
  predicate IsName(name: string) {
    Solid(name) && '=' !in name && name[0] != '[' && name[0] != ';' && name[0] != '#'
  }

  // name = value, with spaces and a comment or not.
  lemma NameAndValueSpelled(before: string, name: string, mid: string, gap: string, value: string, after: string, comment: string)
    requires Spaces(before) && Spaces(mid) && IsName(name)
    requires Spaces(gap) && Spaces(after) && Solid(value) && '#' !in value && IsTail(comment)
    ensures var t := Trim(before + (name + mid + ['='] + Spelled(gap, value, after, comment)));
      && NameAndValue(t) == (KeyName(name), Some(value))
      && |t| >= 3 && t[0] == name[0]
  {
    var rest := Spelled(gap, value, after, comment);
    var head := name + mid + ['='];
    ValueSpelled(gap, value, after, comment);
    TrimAfterRTrim(rest);
    RTrimKeepsFront(before + head, rest);
    assert before + (head + rest) == before + head + rest;
    assert before + head + RTrim(rest) == before + (head + RTrim(rest));
    SpacesTrimmed(before, head + RTrim(rest));
    var t := head + RTrim(rest);
    assert Trim(before + (name + mid + ['='] + rest)) == t;
    NameFound(name, mid, RTrim(rest));
  }

  lemma NameFound(name: string, mid: string, rest: string)
    requires Spaces(mid) && IsName(name)
    ensures var t := name + mid + ['='] + rest;
      NameAndValue(t) == (KeyName(name), Some(Uncomment(rest)))
  {
    var t := name + mid + ['='] + rest;
    forall i | 0 <= i < |name + mid| ensures t[i] != '=' {
      if i >= |name| { assert IsSpace(mid[i - |name|]); }
    }
    FindFirst(t, '=', 0, |name + mid|);
    assert t[..|name + mid|] == "" + name + mid && t[|name + mid| + 1..] == rest;
    Padded("", name, mid);
  }

  // The line reads as an entry of that name with the items of that value.
  lemma EntryLine(lines: seq<string>, i: nat, before: string, name: string, mid: string, gap: string, value: string, after: string, comment: string)
    requires i < |lines| && lines[i] == before + (name + mid + ['='] + Spelled(gap, value, after, comment))
    requires Spaces(before) && Spaces(mid) && IsName(name)
    requires Spaces(gap) && Spaces(after) && Solid(value) && '#' !in value && IsTail(comment)
    requires value[0] == '[' ==> value[|value| - 1] == ']'
    ensures ReadLine(lines, i) == (Some(Entry(KeyName(name), ItemsOf(value))), i + 1)
  {
    NameAndValueSpelled(before, name, mid, gap, value, after, comment);
    var t := Trim(lines[i]);
    assert !IsSkipped(t) && !IsHeader(t);
    assert EntryOf(t, lines, i + 1) == EntryAt(KeyName(name), value, lines, i + 1);
  }

  // A name alone is an entry with the one value "true".
  lemma NameLine(lines: seq<string>, i: nat, before: string, name: string, after: string, comment: string)
    requires i < |lines| && lines[i] == Spelled(before, name, after, comment) && '=' !in lines[i] && |Trim(lines[i])| >= 3
    requires Spaces(before) && Spaces(after) && IsName(name) && '#' !in name && IsTail(comment)
    ensures ReadLine(lines, i) == (Some(Entry(KeyName(name), ["true"])), i + 1)
  {
    ValueSpelled(before, name, after, comment);
    var s := lines[i];
    var t := Trim(s);
    assert s == before + [name[0]] + (name[1..] + (after + comment));
    StartSurvives(before, name[0], name[1..] + (after + comment));
    TrimFree(s, '=');
    FindNone(t, '=', 0);
    TrimTwice(s);
    assert NameAndValue(t) == (KeyName(Uncomment(t)), None);
    assert !IsSkipped(t) && !IsHeader(t);
  }

  lemma TrimTwice(s: string)
    ensures Trim(Trim(s)) == Trim(s) && Uncomment(Trim(s)) == Uncomment(s)
  {
    RTrimPrefix(s);
    LTrimSuffix(RTrim(s));
    TrimSolid(Trim(s));
  }

  lemma QuotedName(name: string, q: char)
    requires IsQuote(q) && '.' !in name
    ensures KeyName([q] + name + [q]) == name
    ensures (name != "" ==> !IsQuote(name[0])) ==> KeyName(name) == name
  {
    assert ([q] + name + [q])[1..|name| + 1] == name;
  }

  // ---------- headers ----------

  lemma HeaderLine(lines: seq<string>, i: nat, before: string, section: string, after: string)
    requires i < |lines| && lines[i] == before + (['['] + section + [']']) + after
    requires Spaces(before) && Spaces(after) && section != ""
    ensures ReadLine(lines, i) == (Some(Header(SectionName(['['] + section + [']']))), i + 1)
  {
    Padded(before, ['['] + section + [']'], after);
  }

  // One pair of brackets or two; the default section in any case.
  lemma SectionNames(section: string)
    requires section != "" && section[0] != '['
    ensures SectionName(['['] + section + [']']) == if IsDefault(section) then "default" else section
    ensures SectionName(['[', '['] + section + [']', ']']) == if IsDefault(section) then "default" else section
  {
    assert (['['] + section + [']'])[1..|section| + 1] == section;
    var twice := ['[', '['] + section + [']', ']'];
    assert twice[1..|twice| - 1] == ['['] + section + [']'];
  }

  lemma {:induction false} SameLettersMeans(s: string, lower: string)
    ensures SameLetters(s, lower) <==>
            |s| == |lower| && forall i :: 0 <= i < |s| ==>
              (if 'A' <= s[i] <= 'Z' then s[i] - 'A' + 'a' else s[i]) == lower[i]
  {
    if s != "" && |s| == |lower| {
      SameLettersMeans(s[1..], lower[1..]);
      assert forall i :: 1 <= i < |s| ==> s[i] == s[1..][i - 1] && lower[i] == lower[1..][i - 1];
    }
  }

  // ---------- lists without quotes ----------

  // An item of an unquoted list: it starts with no space and no quote, and has no separator.
  predicate IsItem(t: string, d: Delimiter) {
    t != "" && !IsSpace(t[0]) && !OpensQuote(t[0]) && forall i :: 0 <= i < |t| ==> !Delimits(d, t[i])
  }

  lemma TakeItem(t: string, d: Delimiter, mark: char, rest: string)
    requires IsItem(t, d) && Delimits(d, mark)
    ensures TakePiece(t + ([mark] + rest), d) == (t, rest)
    ensures TakePiece(t, d) == (t, "")
  {
    var s := t + ([mark] + rest);
    assert s[0] == t[0] && s[|t|] == mark;
    FirstDelimiter(s, d, 0, |t|);
    assert s[..|t|] == t && s[|t| + 1..] == rest;
    FirstDelimiter(t, d, 0, |t|);
  }

  // Items, one separator after each but the last, and any spaces after each separator.
  function Separated(items: seq<string>, mark: char, gaps: seq<string>): string
    requires |gaps| == |items|
  {
    if items == [] then ""
    else if |items| == 1 then items[0]
    else items[0] + ([mark] + (gaps[0] + Separated(items[1..], mark, gaps[1..])))
  }

  predicate IsList(items: seq<string>, d: Delimiter, mark: char, gaps: seq<string>) {
    && items != [] && |gaps| == |items| && Delimits(d, mark)
    && (forall t :: t in items ==> IsItem(t, d)) && (forall g :: g in gaps ==> Spaces(g))
    && Solid(items[|items| - 1])
  }

  predicate Starts(s: string, c: char) {
    s != "" && s[0] == c
  }

  lemma {:induction false} ListIsSolid(items: seq<string>, d: Delimiter, mark: char, gaps: seq<string>)
    requires IsList(items, d, mark, gaps)
    ensures Solid(Separated(items, mark, gaps))
    ensures forall c :: Starts(Separated(items, mark, gaps), c) <==> Starts(items[0], c)
  {
    assert IsItem(items[0], d);
    if |items| > 1 { ListIsSolid(items[1..], d, mark, gaps[1..]); }
  }

  lemma ItemThenRest(t: string, d: Delimiter, mark: char, gap: string, more: string)
    requires IsItem(t, d) && Delimits(d, mark) && Spaces(gap) && Solid(more)
    ensures Pieces(t + ([mark] + (gap + more)), d) == [t] + Pieces(more, d)
  {
    TakeItem(t, d, mark, gap + more);
    PiecesStep(t + ([mark] + (gap + more)), d, t, gap + more);
    Padded(gap, more, "");
    assert gap + more == gap + more + "";
  }

  lemma {:induction false} ListPieces(items: seq<string>, d: Delimiter, mark: char, gaps: seq<string>)
    requires IsList(items, d, mark, gaps)
    ensures Pieces(Separated(items, mark, gaps), d) == items
  {
    assert IsItem(items[0], d) && Spaces(gaps[0]);
    if |items| == 1 {
      TakeItem(items[0], d, mark, "");
      PiecesStep(items[0], d, items[0], "");
    } else {
      ListIsSolid(items[1..], d, mark, gaps[1..]);
      ListPieces(items[1..], d, mark, gaps[1..]);
      ItemThenRest(items[0], d, mark, gaps[0], Separated(items[1..], mark, gaps[1..]));
    }
  }

  lemma ItemsUnquoted(items: seq<string>, d: Delimiter)
    requires forall t :: t in items ==> IsItem(t, d)
    ensures StripAll(items) == items
  {
    forall i | 0 <= i < |items| ensures RemoveQuotes(items[i]) == items[i] {
      assert IsItem(items[i], d);
    }
  }

  lemma CommaSplits(item: string)
    requires Solid(item) && item[0] != '[' && ',' in item
    ensures ItemsOf(item) == StripAll(Pieces(item, Char(',')))
  {
    TrimSolid(item);
  }

  // a, b and c, with a comma after each but the last.
  lemma CommaList(items: seq<string>, gaps: seq<string>)
    requires IsList(items, Char(','), ',', gaps) && |items| > 1 && !Starts(items[0], '[')
    ensures ItemsOf(Separated(items, ',', gaps)) == items
  {
    var s := Separated(items, ',', gaps);
    ListIsSolid(items, Char(','), ',', gaps);
    ListPieces(items, Char(','), ',', gaps);
    assert s[|items[0]|] == ',';
    CommaSplits(s);
    ItemsUnquoted(items, Char(','));
  }

  // The same in brackets, of one item or more.
  lemma BracketList(items: seq<string>, gaps: seq<string>, before: string, after: string)
    requires IsList(items, Char(','), ',', gaps) && Spaces(before) && Spaces(after)
    ensures ItemsOf(['['] + (before + Separated(items, ',', gaps) + after) + [']']) == items
  {
    var body := before + Separated(items, ',', gaps) + after;
    var s := ['['] + body + [']'];
    assert s[1..|s| - 1] == body;
    ListIsSolid(items, Char(','), ',', gaps);
    Padded(before, Separated(items, ',', gaps), after);
    ListPieces(items, Char(','), ',', gaps);
    ItemsUnquoted(items, Char(','));
  }

  lemma {:induction false} AllSpaces(s: string)
    requires Spaces(s)
    ensures Trim(s) == ""
    decreases |s|
  {
    if s != "" {
      AllSpaces(s[..|s| - 1]);
      assert RTrim(s) == RTrim(s[..|s| - 1]);
    }
  }

  lemma EmptyBrackets(spaces: string)
    requires Spaces(spaces)
    ensures ItemsOf(['['] + spaces + [']']) == []
  {
    var s := ['['] + spaces + [']'];
    assert s[1..|s| - 1] == spaces;
    AllSpaces(spaces);
  }

  lemma SpaceSplits(item: string)
    requires Solid(item) && item[0] != '[' && ',' !in item && ' ' in item
    ensures ItemsOf(item) == StripAll(Pieces(item, Space))
  {
    TrimSolid(item);
  }

  // Words with spaces between them, and no commas.
  lemma SpaceList(items: seq<string>, gaps: seq<string>)
    requires IsList(items, Space, ' ', gaps) && |items| > 1 && !Starts(items[0], '[')
    requires ',' !in Separated(items, ' ', gaps)
    ensures ItemsOf(Separated(items, ' ', gaps)) == items
  {
    var s := Separated(items, ' ', gaps);
    ListIsSolid(items, Space, ' ', gaps);
    ListPieces(items, Space, ' ', gaps);
    assert s[|items[0]|] == ' ';
    SpaceSplits(s);
    ItemsUnquoted(items, Space);
  }

  lemma OneWord(t: string)
    requires IsItem(t, Space) && ',' !in t && (|t| > 1 ==> t[0] != '[')
    ensures ItemsOf(t) == [t]
  {
    assert ' ' !in t;
    assert RemoveQuotes(t) == t;
    StripOne(t);
  }

  // ---------- escaped quotes ----------

  // The text with a backslash before each of the quotes.
  function Escaped(t: string, q: char): string {
    if t == "" then "" else (if t[0] == q then ['\\', q] else [t[0]]) + Escaped(t[1..], q)
  }

  lemma {:induction false} EscapedBack(t: string, q: char)
    requires OpensQuote(q) && '\\' !in t
    ensures Unescape(Escaped(t, q), q) == t
  {
    if t != "" {
      EscapedBack(t[1..], q);
      var more, e := Escaped(t[1..], q), Escaped(t, q);
      if t[0] == q {
        assert e[2..] == more;
      } else {
        assert e[1..] == more;
      }
      assert t == [t[0]] + t[1..];
    }
  }

  lemma {:induction false} EscapedFacts(t: string, q: char)
    requires OpensQuote(q) && '\\' !in t
    ensures AllEscaped(Escaped(t, q), q) && (q in t <==> q in Escaped(t, q)) && (q !in t ==> Escaped(t, q) == t)
  {
    if t != "" {
      EscapedFacts(t[1..], q);
      EscapedOneMore(t[0], Escaped(t[1..], q), q);
      assert t == [t[0]] + t[1..];
    }
  }

  lemma EscapedOneMore(c: char, more: string, q: char)
    requires OpensQuote(q) && c != '\\' && AllEscaped(more, q)
    ensures AllEscaped((if c == q then ['\\', q] else [c]) + more, q)
  {
  }

  lemma {:induction false} ClosesAt(s: string, from: nat, at: nat)
    requires 0 < from <= at < |s| && s[at] == s[0] && s[at - 1] != '\\'
    requires forall k :: from <= k < at && s[k] == s[0] ==> s[k - 1] == '\\'
    ensures ClosingQuote(s, from) == Some(at)
    decreases at - from
  {
    if s[from] == s[0] {
      assert Find(s, s[0], from) == Some(from);
      if from < at { ClosesAt(s, from + 1, at); }
    } else {
      ClosesAt(s, from + 1, at);
      SkipOne(s, from);
    }
  }

  lemma SkipOne(s: string, from: nat)
    requires 0 < from < |s| && s[from] != s[0]
    ensures ClosingQuote(s, from) == ClosingQuote(s, from + 1)
  {
    assert Find(s, s[0], from) == Find(s, s[0], from + 1);
  }

  // s is e in quotes, and more.
  ghost predicate InQuotes(s: string, e: string, q: char) {
    && |s| >= |e| + 2 && s[0] == q && s[|e| + 1] == q
    && (forall k {:trigger e[k]} :: 0 <= k < |e| ==> s[k + 1] == e[k])
  }

  ghost predicate AllEscaped(e: string, q: char) {
    && (forall k :: 0 <= k < |e| && e[k] == q ==> k > 0 && e[k - 1] == '\\')
    && (e != "" ==> e[|e| - 1] != '\\')
  }

  lemma EscapedCloses(s: string, e: string, q: char)
    requires InQuotes(s, e, q) && AllEscaped(e, q) && q != '\\'
    ensures ClosingQuote(s, 1) == Some(|e| + 1)
  {
    if e != "" { assert s[|e|] == e[|e| - 1]; }
    forall k | 1 <= k < |e| + 1 && s[k] == q ensures s[k - 1] == '\\' {
      assert e[k - 1] == q && s[k - 1] == e[k - 2];
    }
    ClosesAt(s, 1, |e| + 1);
  }

  lemma EscapeSeen(s: string, e: string, q: char)
    requires InQuotes(s, e, q) && AllEscaped(e, q) && q != '\\'
    ensures SkipsEscape(s) <==> q in e
  {
    BeforeFirst(s, q, 1);
    if q in e {
      var k :| 0 <= k < |e| && e[k] == q;
      assert s[k + 1] == q;
      var f := Find(s, q, 1).value;
      assert e[f - 1] == q && s[f - 1] == e[f - 2];
    } else {
      forall i | 1 <= i < |e| + 1 ensures s[i] != q { assert s[i] == e[i - 1]; }
      FindFirst(s, q, 1, |e| + 1);
      if e != "" { assert s[|e|] == e[|e| - 1]; }
    }
  }

  // Quoted text, each quote in it after a backslash, reads as the text without those backslashes.
  lemma EscapedReads(t: string, q: char, tail: string, d: Delimiter)
    requires OpensQuote(q) && '\\' !in t
    ensures TakePiece([q] + Escaped(t, q) + [q] + tail, d) == (t, if tail == "" then "" else tail[1..])
  {
    var e := Escaped(t, q);
    EscapedFacts(t, q);
    EscapedBack(t, q);
    var s := [q] + e + [q] + tail;
    assert InQuotes(s, e, q);
    EscapedCloses(s, e, q);
    EscapeSeen(s, e, q);
    TakenInQuotes(s, e, q, tail, d);
  }

  lemma QuotedPiece(s: string, d: Delimiter, end: nat)
    requires s != "" && OpensQuote(s[0]) && ClosingQuote(s, 1) == Some(end)
    ensures TakePiece(s, d) == (if SkipsEscape(s) then Unescape(s[1..end], s[0]) else s[1..end],
                                if end + 2 < |s| then s[end + 2..] else "")
  {
  }

  lemma TakenInQuotes(s: string, e: string, q: char, tail: string, d: Delimiter)
    requires OpensQuote(q) && s == [q] + e + [q] + tail && ClosingQuote(s, 1) == Some(|e| + 1)
    ensures TakePiece(s, d) == (if SkipsEscape(s) then Unescape(e, q) else e, if tail == "" then "" else tail[1..])
  {
    QuotedPiece(s, d, |e| + 1);
    QuotedSlices(s, e, q, tail);
  }

  lemma QuotedSlices(s: string, e: string, q: char, tail: string)
    requires s == [q] + e + [q] + tail
    ensures s[1..|e| + 1] == e
    ensures (if |e| + 3 < |s| then s[|e| + 3..] else "") == if tail == "" then "" else tail[1..]
  {
    if |tail| > 1 { assert s[|e| + 3..] == tail[1..]; }
  }

  // ---------- dotted names ----------

  // A dotted key is its last part, under the parts before it; a dotted section is its parts.
  lemma DottedNames(parts: seq<string>)
    requires |parts| > 1 && (forall p :: p in parts ==> '.' !in p) && parts[|parts| - 1] != ""
    ensures KeyPath(Joined(parts, '.')) == (StripAll(parts[..|parts| - 1]), RemoveQuotes(parts[|parts| - 1]))
    ensures !IsDefault(Joined(parts, '.')) ==> SectionParents(Joined(parts, '.')) == StripAll(parts)
  {
    JoinedSplits(parts, '.');
  }

  lemma PlainNames(name: string)
    requires '.' !in name
    ensures KeyPath(name) == ([], name)
    ensures !IsDefault(name) ==> SectionParents(name) == [RemoveQuotes(name)]
  {
    StripOne(name);
  }
}
