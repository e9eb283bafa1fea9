/**
 Reading a config file into items, with section markers.

 A "++" item opens a section and a "--" item closes it.  The reader keeps no stack: it looks
 back at the last item written, closes as many levels as the next header needs, and sometimes
 takes a "--" back.  What the markers promise is that of a stack nonetheless, except where the
 file returns to the default section from two or more levels down.
 */
module ConfigSections {
  import opened Wrappers
  import opened Text
  import opened ConfigValues

  datatype ConfigItem = ConfigItem(parents: seq<string>, name: string, inputs: seq<string>)

  const OPEN: string := "++"
  const CLOSE: string := "--"
  const MAXIMUM_LAYERS := 255

  predicate Ordinary(x: ConfigItem) {
    x.name != OPEN && x.name != CLOSE
  }

  // ---------- lines ----------

  // What a line, or an array written over several lines, says.
  datatype Line = Header(section: string) | Entry(name: string, inputs: seq<string>)

  // The name of the default section, in any case.
  predicate IsDefault(s: string) {
    SameLetters(s, "default")
  }

  predicate SameLetters(s: string, lower: string) {
    |s| == |lower| && (s == "" || (ToLowerChar(s[0]) == lower[0] && SameLetters(s[1..], lower[1..])))
  }

  function SectionName(line: string): string
    requires |line| >= 2
  {
    var s := line[1..|line| - 1];
    var t := if |s| > 1 && s[0] == '[' && s[|s| - 1] == ']' then s[1..|s| - 1] else s;
    if IsDefault(t) then "default" else t
  }

  // An array goes on until a line that ends it, or the end of the file.
  function Gather(item: string, lines: seq<string>, i: nat): (r: (string, nat))
    requires item != "" && i <= |lines|
    ensures i <= r.1 <= |lines| && r.0 != ""
    decreases |lines| - i
  {
    if item[|item| - 1] == ']' || i == |lines| then (item, i)
    else Gather(item + Trim(lines[i]), lines, i + 1)
  }

  function KeyName(text: string): string {
    if '.' in text then text else RemoveQuotes(text)
  }

  // The name a line gives, and the text of its value up to a comment, if it has one.
  function NameAndValue(line: string): (string, Option<string>) {
    match Find(line, '=', 0)
    case None => (KeyName(Uncomment(line)), None)
    case Some(pos) => (KeyName(Trim(line[..pos])), Some(Uncomment(line[pos + 1..])))
  }

  function EntryOf(line: string, lines: seq<string>, i: nat): (r: (Line, nat))
    requires i <= |lines|
    ensures i <= r.1 <= |lines| && r.0.Entry?
  {
    match NameAndValue(line)
    case (name, None) => (Entry(name, ["true"]), i)
    case (name, Some(item)) => EntryAt(name, item, lines, i)
  }

  function EntryAt(name: string, item: string, lines: seq<string>, i: nat): (r: (Line, nat))
    requires i <= |lines|
    ensures i <= r.1 <= |lines| && r.0.Entry?
  {
    var (whole, next) := if |item| > 1 && item[0] == '[' then Gather(item, lines, i) else (item, i);
    (Entry(name, ItemsOf(whole)), next)
  }

  predicate IsHeader(line: string) {
    |line| >= 3 && line[0] == '[' && line[|line| - 1] == ']'
  }

  predicate IsSkipped(line: string) {
    |line| < 3 || (!IsHeader(line) && (line[0] == ';' || line[0] == '#'))
  }

  // What a trimmed line says, if anything, and where the next one starts; next is the line after it.
  function LineOf(line: string, lines: seq<string>, next: nat): (r: (Option<Line>, nat))
    requires next <= |lines|
    ensures next <= r.1 <= |lines|
  {
    if IsSkipped(line) then (None, next)
    else if IsHeader(line) then (Some(Header(SectionName(line))), next)
    else
      var (entry, after) := EntryOf(line, lines, next);
      (Some(entry), after)
  }

  function ReadLine(lines: seq<string>, i: nat): (r: (Option<Line>, nat))
    requires i < |lines|
    ensures i < r.1 <= |lines|
  {
    LineOf(Trim(lines[i]), lines, i + 1)
  }

  function LinesFrom(lines: seq<string>, i: nat): seq<Line>
    requires i <= |lines|
    decreases |lines| - i
  {
    if i == |lines| then [] else
    var (line, next) := ReadLine(lines, i);
    (if line.Some? then [line.value] else []) + LinesFrom(lines, next)
  }

  // ---------- what the writer writes ----------

  // A name that reads as itself, and does not make its line a header or a comment.
  predicate IsKey(name: string) {
    && name != "" && '=' !in name && !IsSpace(name[0]) && !IsSpace(name[|name| - 1])
    && name[0] != '[' && name[0] != ';' && name[0] != '#' && KeyName(name) == name
  }

  // An argument that survives being written and read: its value is kept, and it fits on a line.
  predicate Survives(args: seq<string>, arg: string) {
    ValueKept(args, arg) && '\n' !in arg
  }

  function WrittenLine(name: string, args: seq<string>): string {
    name + ['='] + JoinText(args)
  }

  lemma WrittenEnd(args: seq<string>)
    requires args != []
    ensures var value := JoinText(args); value != "" && !IsSpace(value[|value| - 1])
  {
    BodyEnd(args);
  }

  // An array is written with its end; anything else does not look like one.
  lemma WrittenArray(args: seq<string>)
    requires args != []
    ensures var item := Trim(JoinText(args)); item != "" && (item[0] == '[' ==> item[|item| - 1] == ']')
  {
    if |args| > 1 {
      TrimSolid(JoinText(args));
    } else {
      PartIsSolid(args[0]);
      TrimPrinted(args[0]);
      assert JoinText(args) == ConvertArg(args[0]);
    }
  }

  // A written line is no header and no comment; its name and value are found.
  lemma WrittenSplits(name: string, args: seq<string>)
    requires IsKey(name) && args != []
    ensures var line := WrittenLine(name, args);
      && Trim(line) == line && !IsSkipped(line) && !IsHeader(line)
      && Find(line, '=', 0) == Some(|name|) && line[|name| + 1..] == JoinText(args)
      && KeyName(Trim(line[..|name|])) == name
  {
    var line := WrittenLine(name, args);
    WrittenEnd(args);
    assert line[0] == name[0] && line[|line| - 1] == JoinText(args)[|JoinText(args)| - 1];
    TrimSolid(line);
    FindFirst(line, '=', 0, |name|);
    assert line[..|name|] == name;
    TrimSolid(name);
  }

  // The last line of a file, whatever its value has become by then.
  lemma LastLineReads(name: string, args: seq<string>)
    requires IsKey(name) && args != []
    ensures LinesFrom([WrittenLine(name, args)], 0) == [Entry(name, ParseValue(JoinText(args)))]
  {
    var lines := [WrittenLine(name, args)];
    WrittenSplits(name, args);
    assert ReadLine(lines, 0) == (Some(Entry(name, ParseValue(JoinText(args)))), 1);
    assert LinesFrom(lines, 1) == [];
  }

  // A line as the writer prints it reads as the entry it was printed for, wherever it stands.
  lemma WrittenLineReadsBack(lines: seq<string>, i: nat, name: string, args: seq<string>)
    requires i < |lines| && lines[i] == WrittenLine(name, args)
    requires IsKey(name) && args != [] && forall a :: a in args ==> Survives(args, a)
    ensures ReadLine(lines, i) == (Some(Entry(name, args)), i + 1)
  {
    WrittenSplits(name, args);
    WrittenArray(args);
    PrintedChars(args, '#');
    UncommentedSame(JoinText(args));
    ValueRoundTripIff(args);
  }

  // ---------- nothing appears that was not there ----------

  lemma {:induction false} GatherFree(item: string, lines: seq<string>, i: nat, c: char)
    requires item != "" && i <= |lines| && c !in item && forall l :: l in lines ==> c !in l
    ensures c !in Gather(item, lines, i).0
    decreases |lines| - i
  {
    if item[|item| - 1] != ']' && i < |lines| {
      TrimFree(lines[i], c);
      GatherFree(item + Trim(lines[i]), lines, i + 1, c);
    }
  }

  lemma UncommentFree(text: string, c: char)
    requires c !in text
    ensures c !in Uncomment(text)
  {
    TrimFree(text, c);
    match Find(Trim(text), '#', 0)
    case Some(k) => TrimFree(Trim(text)[..k], c);
    case None =>
  }

  lemma EntryAtFree(name: string, item: string, lines: seq<string>, i: nat, c: char)
    requires i <= |lines| && c !in item && (forall l :: l in lines ==> c !in l) && !IsQuote(c) && c != '`'
    ensures forall p :: p in EntryAt(name, item, lines, i).0.inputs ==> c !in p
  {
    if |item| > 1 && item[0] == '[' {
      GatherFree(item, lines, i, c);
      ItemsFree(Gather(item, lines, i).0, c);
    } else {
      ItemsFree(item, c);
    }
  }

  lemma EntryWithout(line: string, lines: seq<string>, i: nat)
    requires i <= |lines| && Find(line, '=', 0).None?
    ensures forall p :: p in EntryOf(line, lines, i).0.inputs ==> '\n' !in p
  {
    assert EntryOf(line, lines, i).0.inputs == ["true"];
  }

  lemma EntryWithValue(line: string, lines: seq<string>, i: nat, pos: nat)
    requires i <= |lines| && Find(line, '=', 0) == Some(pos)
    ensures EntryOf(line, lines, i) == EntryAt(KeyName(Trim(line[..pos])), Uncomment(line[pos + 1..]), lines, i)
  {
  }

  lemma EntryFree(line: string, lines: seq<string>, i: nat)
    requires i <= |lines| && '\n' !in line && forall l :: l in lines ==> '\n' !in l
    ensures forall p :: p in EntryOf(line, lines, i).0.inputs ==> '\n' !in p
  {
    match Find(line, '=', 0)
    case None => EntryWithout(line, lines, i);
    case Some(pos) =>
      UncommentFree(line[pos + 1..], '\n');
      EntryAtFree(KeyName(Trim(line[..pos])), Uncomment(line[pos + 1..]), lines, i, '\n');
      EntryWithValue(line, lines, i, pos);
  }

  lemma {:induction false} LinesFree(lines: seq<string>, i: nat)
    requires i <= |lines| && forall l :: l in lines ==> '\n' !in l
    ensures forall e, p :: e in LinesFrom(lines, i) && e.Entry? && p in e.inputs ==> '\n' !in p
    decreases |lines| - i
  {
    if i < |lines| {
      var (line, next) := ReadLine(lines, i);
      TrimFree(lines[i], '\n');
      EntryFree(Trim(lines[i]), lines, i + 1);
      LinesFree(lines, next);
    }
  }

  lemma {:induction false} SplitFree(text: string, c: char)
    ensures forall l :: l in Split(text, c) ==> c !in l
    decreases |text|
  {
    BeforeFirst(text, c, 0);
    match Find(text, c, 0)
    case None =>
    case Some(k) => if k + 1 < |text| { SplitFree(text[k + 1..], c); }
  }

  // ---------- the round trip of a line, and of a file ----------

  lemma SplitLine(line: string, rest: string)
    requires '\n' !in line
    ensures Split(line + ['\n'] + rest, '\n') == [line] + if rest == "" then [] else Split(rest, '\n')
  {
    var text := line + ['\n'] + rest;
    FindFirst(text, '\n', 0, |line|);
    assert text[..|line|] == line && text[|line| + 1..] == rest;
  }

  // A list of arguments, written as a line of text and read line by line, comes back as the one
  // entry it was exactly if each argument survives.
  lemma {:induction false} RoundTripIff(name: string, args: seq<string>)
    requires IsKey(name) && '\n' !in name && args != []
    ensures LinesFrom(Split(WrittenLine(name, args) + ['\n'], '\n'), 0) == [Entry(name, args)] <==>
            forall a :: a in args ==> Survives(args, a)
  {
    var text := WrittenLine(name, args) + ['\n'];
    PrintedChars(args, '\n');
    if '\n' in JoinText(args) {
      var a :| a in args && '\n' in a;
      SplitFree(text, '\n');
      LinesFree(Split(text, '\n'), 0);
      assert Entry(name, args).inputs == args;
      NotAlone(LinesFrom(Split(text, '\n'), 0), Entry(name, args));
    } else {
      assert text == WrittenLine(name, args) + ['\n'] + "";
      SplitLine(WrittenLine(name, args), "");
      LastLineReads(name, args);
      ValueRoundTripIff(args);
      OneEntry(name, ParseValue(JoinText(args)), args);
    }
  }

  lemma OneEntry(name: string, items: seq<string>, args: seq<string>)
    ensures [Entry(name, items)] == [Entry(name, args)] <==> items == args
  {
    assert [Entry(name, items)][0] == Entry(name, items);
  }

  lemma NotAlone(lines: seq<Line>, l: Line)
    requires l !in lines
    ensures lines != [l]
  {
    if lines != [] { assert lines[0] in lines; }
  }

  predicate ComesBack(name: string, args: seq<string>) {
    LinesFrom(Split(WrittenLine(name, args) + ['\n'], '\n'), 0) == [Entry(name, args)]
  }

  lemma LostIfOne(args: seq<string>, arg: string)
    requires arg in args && !Survives(args, arg)
    ensures !ComesBack("x", args)
  {
    RoundTripIff("x", args);
  }

  // Lists that do not come back: a number with leading space,
  lemma LeadingSpaceIsLost()
    ensures !ComesBack("x", [" 1"])
  {
    assert " 1"[1..] == "1" && "1"[1..] == "";
    assert Scans(Digits, "") && Scans(Lead, "1");
    LostIfOne([" 1"], " 1");
  }

  // a comment sign, a line end,
  lemma CommentIsLost()
    ensures !ComesBack("x", ["a#b"]) && !ComesBack("x", ["a\nb"])
  {
    assert "a#b"[1] == '#' && "a\nb"[1] == '\n';
    LostIfOne(["a#b"], "a#b");
    LostIfOne(["a\nb"], "a\nb");
  }

  // and in a list, a quoted word,
  lemma QuotedWordIsLost()
    ensures !ComesBack("x", ["'a'", "b"])
  {
    NotBare("'a'");
    LostIfOne(["'a'", "b"], "'a'");
  }

  // both quotes,
  lemma BothQuotesAreLost()
    ensures !ComesBack("x", ["\"'", "b"])
  {
    NotBare("\"'");
    assert "\"'"[0] == '"' && "\"'"[1] == '\'';
    LostIfOne(["\"'", "b"], "\"'");
  }

  // or a backslash before the closing quote.
  lemma FinalBackslashIsLost()
    ensures !ComesBack("x", ["a\\", "b"])
  {
    assert "a\\"[1] == '\\';
    NotBare("a\\");
    LostIfOne(["a\\", "b"], "a\\");
  }

  lemma NotBare(arg: string)
    requires arg != "" && !IsSpace(arg[0]) && !SafeChar(arg[|arg| - 1])
    ensures !Bare(arg)
  {
    if Bare(arg) { PrintedBare(arg); }
  }

  // A section's name as the writer puts it: not empty, not bracketed, on one line.
  predicate IsSectionName(section: string) {
    && section != "" && '\n' !in section
    && (section[0] == '[' ==> section[|section| - 1] != ']')
    && (IsDefault(section) ==> section == "default")
  }

  predicate Writable(l: Line) {
    match l
    case Header(section) => IsSectionName(section)
    case Entry(name, args) =>
      IsKey(name) && '\n' !in name && args != [] && forall a :: a in args ==> Survives(args, a)
  }

  function LineText(l: Line): string {
    match l
    case Header(section) => ['['] + section + [']']
    case Entry(name, args) => WrittenLine(name, args)
  }

  function FileText(file: seq<Line>): string {
    if file == [] then "" else LineText(file[0]) + ['\n'] + FileText(file[1..])
  }

  function Texts(file: seq<Line>): seq<string> {
    seq(|file|, i requires 0 <= i < |file| => LineText(file[i]))
  }

  lemma OnOneLine(l: Line)
    requires Writable(l)
    ensures '\n' !in LineText(l)
  {
    if l.Entry? { PrintedChars(l.inputs, '\n'); }
  }

  lemma {:induction false} FileLines(file: seq<Line>)
    requires file != [] && forall l :: l in file ==> Writable(l)
    ensures FileText(file) != "" && Split(FileText(file), '\n') == Texts(file)
  {
    var more := file[1..];
    assert Writable(file[0]);
    OnOneLine(file[0]);
    SplitLine(LineText(file[0]), FileText(more));
    if more != [] {
      FileLines(more);
    }
    TextsStep(file);
  }

  lemma TextsStep(file: seq<Line>)
    requires file != []
    ensures Texts(file) == [LineText(file[0])] + Texts(file[1..])
  {
  }

  lemma WrittenHeaderReadsBack(lines: seq<string>, i: nat, section: string)
    requires i < |lines| && lines[i] == ['['] + section + [']'] && IsSectionName(section)
    ensures ReadLine(lines, i) == (Some(Header(section)), i + 1)
  {
    var line := lines[i];
    assert line[1..|line| - 1] == section;
    TrimSolid(line);
  }

  lemma WrittenReadsBack(lines: seq<string>, i: nat, l: Line)
    requires i < |lines| && lines[i] == LineText(l) && Writable(l)
    ensures ReadLine(lines, i) == (Some(l), i + 1)
  {
    match l
    case Header(section) => WrittenHeaderReadsBack(lines, i, section);
    case Entry(name, args) => WrittenLineReadsBack(lines, i, name, args);
  }

  lemma NextLineFrom(lines: seq<string>, i: nat, l: Line)
    requires i < |lines| && ReadLine(lines, i) == (Some(l), i + 1)
    ensures LinesFrom(lines, i) == [l] + LinesFrom(lines, i + 1)
  {
  }

  lemma {:induction false} Chain(file: seq<Line>, from: nat -> seq<Line>, i: nat)
    requires i <= |file| && from(|file|) == []
    requires forall k: nat :: k < |file| ==> from(k) == [file[k]] + from(k + 1)
    ensures from(i) == file[i..]
    decreases |file| - i
  {
    if i < |file| { Chain(file, from, i + 1); }
  }

  lemma {:induction false} LinesReadBack(file: seq<Line>, texts: seq<string>)
    requires |texts| == |file| && forall l :: l in file ==> Writable(l)
    requires forall k :: 0 <= k < |file| ==> texts[k] == LineText(file[k])
    ensures LinesFrom(texts, 0) == file
  {
    var from := (i: nat) => if i <= |texts| then LinesFrom(texts, i) else [];
    forall k: nat | k < |file| ensures from(k) == [file[k]] + from(k + 1) {
      assert file[k] in file;
      WrittenReadsBack(texts, k, file[k]);
      NextLineFrom(texts, k, file[k]);
    }
    Chain(file, from, 0);
  }

  // A whole file of written headers and entries, cut at its line ends, reads as what was written.
  lemma {:induction false} FileReadsBack(file: seq<Line>)
    requires file != [] && forall l :: l in file ==> Writable(l)
    ensures LinesFrom(Split(FileText(file), '\n'), 0) == file
  {
    FileLines(file);
    LinesReadBack(file, Texts(file));
  }

  // ---------- arrays over several lines ----------

  function Trimmed(lines: seq<string>, i: nat, j: nat): string
    requires i <= j <= |lines|
    decreases j - i
  {
    if i == j then "" else Trim(lines[i]) + Trimmed(lines, i + 1, j)
  }

  lemma {:induction false} GatherJoins(item: string, lines: seq<string>, i: nat)
    requires item != "" && i <= |lines|
    ensures var (whole, next) := Gather(item, lines, i); whole == item + Trimmed(lines, i, next)
    decreases |lines| - i
  {
    if item[|item| - 1] != ']' && i < |lines| {
      GatherJoins(item + Trim(lines[i]), lines, i + 1);
    } else {
      assert item + "" == item;
    }
  }

  lemma EntryWith(line: string, name: string, item: string, lines: seq<string>, i: nat)
    requires IsKey(name) && line == name + ['='] + item && i <= |lines|
    requires |item| > 1 && item[0] == '[' && '#' !in item && !IsSpace(item[|item| - 1])
    ensures EntryOf(line, lines, i) ==
            (Entry(name, ItemsOf(Gather(item, lines, i).0)), Gather(item, lines, i).1)
    ensures Trim(line) == line && !IsSkipped(line) && !IsHeader(line)
  {
    FindFirst(line, '=', 0, |name|);
    assert line[..|name|] == name && line[|name| + 1..] == item;
    TrimSolid(name);
    TrimSolid(item);
    UncommentedSame(item);
    assert line[0] == name[0] && line[|line| - 1] == item[|item| - 1];
    TrimSolid(line);
  }

  // An array written over several lines reads as it would on one, and the lines it goes on over
  // are used up; the comment sign is looked for on its first line only.
  lemma ArrayOverLines(lines: seq<string>, i: nat, name: string, item: string)
    requires i < |lines| && IsKey(name) && lines[i] == name + ['='] + item
    requires |item| > 1 && item[0] == '[' && '#' !in item && !IsSpace(item[|item| - 1])
    requires var whole := Gather(item, lines, i + 1).0; '#' !in whole && whole[|whole| - 1] == ']'
    ensures var next := Gather(item, lines, i + 1).1; var whole := item + Trimmed(lines, i + 1, next);
      && ReadLine(lines, i).1 == next
      && ReadLine(lines, i).0 == ReadLine([name + ['='] + whole], 0).0
  {
    GatherJoins(item, lines, i + 1);
    var whole := Gather(item, lines, i + 1).0;
    EntryWith(lines[i], name, item, lines, i + 1);
    EntryWith(name + ['='] + whole, name, whole, [name + ['='] + whole], 1);
  }

  // ---------- paths ----------

  function SectionParents(section: string): seq<string> {
    if IsDefault(section) then []
    else StripAll(if '.' in section then Split(section, '.') else [section])
  }

  // The parents a dotted key adds, and the key itself.
  function KeyPath(name: string): (seq<string>, string) {
    if '.' in name then
      var plist := Split(name, '.');
      (StripAll(plist[..|plist| - 1]), RemoveQuotes(plist[|plist| - 1]))
    else ([], name)
  }

  method GenerateParents(section: string, name: string) returns (parents: seq<string>, rest: string)
    ensures parents == SectionParents(section) + KeyPath(name).0 && rest == KeyPath(name).1
  {
    parents := [];
    rest := name;
    if !IsDefault(section) {
      parents := if '.' in section then Split(section, '.') else [section];
    }
    ghost var own := parents;
    ghost var more: seq<string> := [];
    if '.' in name {
      var plist := Split(name, '.');
      rest := RemoveQuotes(plist[|plist| - 1]);
      more := plist[..|plist| - 1];
      parents := parents + plist[..|plist| - 1];
    }
    parents := StripEach(parents);
    assert parents == StripAll(own) + StripAll(more);
  }

  method StripEach(raw: seq<string>) returns (parents: seq<string>)
    ensures parents == StripAll(raw)
  {
    parents := raw;
    for i := 0 to |parents|
      invariant |parents| == |raw|
      invariant forall j :: 0 <= j < |raw| ==> parents[j] == if j < i then RemoveQuotes(raw[j]) else raw[j]
    {
      parents := parents[i := RemoveQuotes(parents[i])];
    }
  }

  // All ways down to a section, outermost first.
  function Prefixes(path: seq<string>): seq<seq<string>> {
    if path == [] then [] else Prefixes(path[..|path| - 1]) + [path]
  }

  lemma PrefixesNext(path: seq<string>, k: nat)
    requires k < |path|
    ensures Prefixes(path[..k + 1]) == Prefixes(path[..k]) + [path[..k + 1]]
  {
    assert path[..k + 1][..k] == path[..k];
  }

  // ---------- markers ----------

  // The sections open after some items; None if a marker closes what is not innermost.
  function Opened(output: seq<ConfigItem>): Option<seq<seq<string>>>
    decreases |output|
  {
    if output == [] then Some([]) else
    var x := output[|output| - 1];
    match Opened(output[..|output| - 1])
    case None => None
    case Some(st) =>
      if x.name == OPEN then Some(st + [x.parents])
      else if x.name == CLOSE then
        (if st != [] && st[|st| - 1] == x.parents then Some(st[..|st| - 1]) else None)
      else Some(st)
  }

  lemma OpenedAppend(output: seq<ConfigItem>, x: ConfigItem)
    requires Opened(output).Some?
    ensures var st := Opened(output).value;
      && (x.name == OPEN ==> Opened(output + [x]) == Some(st + [x.parents]))
      && (x.name == CLOSE && st != [] && st[|st| - 1] == x.parents ==> Opened(output + [x]) == Some(st[..|st| - 1]))
      && (Ordinary(x) ==> Opened(output + [x]) == Some(st))
  {
    assert (output + [x])[..|output|] == output;
  }

  predicate EndsWithClose(output: seq<ConfigItem>) {
    output != [] && output[|output| - 1].name == CLOSE
  }

  // A section of the given path has just been closed, and nothing else.
  predicate JustClosed(output: seq<ConfigItem>, path: seq<string>) {
    && EndsWithClose(output) && output[|output| - 1].parents == path && path != []
    && Opened(output) == Some(Prefixes(path[..|path| - 1]))
  }

  predicate AllClosed(output: seq<ConfigItem>) {
    Opened(output) == Some([]) && !EndsWithClose(output)
  }

  predicate InSection(output: seq<ConfigItem>, path: seq<string>) {
    Opened(output) == Some(Prefixes(path)) && output != [] && !EndsWithClose(output)
  }

  function Marker(name: string, parents: seq<string>): ConfigItem {
    ConfigItem(parents, name, [])
  }

  // What stays of the output when markers are added, one "--" at its end perhaps taken back.
  predicate OnlyMarkersAfter(output: seq<ConfigItem>, out: seq<ConfigItem>, k: nat) {
    && k <= |output| && k <= |out| && out[..k] == output[..k]
    && (forall i :: k <= i < |output| ==> !Ordinary(output[i]))
    && (forall i :: k <= i < |out| ==> !Ordinary(out[i]))
  }

  // Close levels until the last one closed has fewer than the given number of segments.
  method CloseDownTo(output: seq<ConfigItem>, msize: nat) returns (out: seq<ConfigItem>)
    requires EndsWithClose(output) && msize >= 1
    ensures EndsWithClose(out) && |output| <= |out| && OnlyMarkersAfter(output, out, |output|)
    ensures var path := output[|output| - 1].parents; var n := if |path| < msize then |path| else msize - 1;
      && out[|out| - 1].parents == path[..n]
      && (JustClosed(output, path) && (n > 0 || path == []) ==> JustClosed(out, path[..n]))
  {
    out := output;
    ghost var path := output[|output| - 1].parents;
    assert path[..|path|] == path;
    while |out[|out| - 1].parents| >= msize
      invariant EndsWithClose(out) && |output| <= |out| && OnlyMarkersAfter(output, out, |output|)
      invariant |out[|out| - 1].parents| <= |path| && out[|out| - 1].parents == path[..|out[|out| - 1].parents|]
      invariant |path| < msize ==> |out[|out| - 1].parents| == |path|
      invariant |path| >= msize ==> |out[|out| - 1].parents| >= msize - 1
      invariant JustClosed(output, path) && |out[|out| - 1].parents| > 0 ==> JustClosed(out, out[|out| - 1].parents)
      decreases |out[|out| - 1].parents|
    {
      var last := out[|out| - 1];
      var shorter := last.(parents := last.parents[..|last.parents| - 1]);
      ghost var was := out;
      out := out + [shorter];
      if JustClosed(output, path) && |shorter.parents| > 0 {
        OpenedAppend(was, shorter);
      }
      assert shorter.parents == path[..|shorter.parents|];
    }
  }

  // Open the levels of a path one by one, all but the last.
  method OpenFrom(output: seq<ConfigItem>, parents: seq<string>, common: nat) returns (out: seq<ConfigItem>)
    requires common < |parents|
    ensures OnlyMarkersAfter(output, out, |output|) && |output| <= |out|
    ensures Opened(output) == Some(Prefixes(parents[..common])) ==>
              Opened(out) == Some(Prefixes(parents[..|parents| - 1]))
  {
    out := output;
    for ii := common to |parents| - 1
      invariant OnlyMarkersAfter(output, out, |output|) && |output| <= |out|
      invariant Opened(output) == Some(Prefixes(parents[..common])) ==> Opened(out) == Some(Prefixes(parents[..ii]))
    {
      if Opened(output) == Some(Prefixes(parents[..common])) {
        OpenedAppend(out, Marker(OPEN, parents[..ii + 1]));
        PrefixesNext(parents, ii);
      }
      out := out + [Marker(OPEN, parents[..ii + 1])];
    }
  }

  // How many leading segments two paths share, of the first n.
  method CommonSegments(a: seq<string>, b: seq<string>, n: nat) returns (common: nat)
    requires n <= |a| && n <= |b|
    ensures common <= n && a[..common] == b[..common]
  {
    common := 0;
    while common < n && a[common] == b[common]
      invariant common <= n && a[..common] == b[..common]
    {
      common := common + 1;
    }
  }

  // Taking back the last "--" leaves its section open.
  lemma TakeBack(output: seq<ConfigItem>, path: seq<string>)
    requires JustClosed(output, path)
    ensures Opened(output[..|output| - 1]) == Some(Prefixes(path))
  {
    var st := Opened(output[..|output| - 1]).value;
    assert st == st[..|st| - 1] + [st[|st| - 1]];
  }

  lemma MarkersTransitive(a: seq<ConfigItem>, b: seq<ConfigItem>, c: seq<ConfigItem>, k: nat)
    requires OnlyMarkersAfter(a, b, k) && OnlyMarkersAfter(b, c, |b|)
    ensures OnlyMarkersAfter(a, c, k)
  {
    forall i | k <= i < |c| ensures !Ordinary(c[i]) {
      if i < |b| { assert c[..|b|][i] == b[i]; }
    }
    assert c[..k] == c[..|b|][..k];
  }

  // The last item says which section was just closed: close, or reopen, down to what the new
  // one shares with it, then open its own levels.
  method SwitchSection(output: seq<ConfigItem>, parents: seq<string>)
    returns (out: seq<ConfigItem>, ghost k: nat)
    requires EndsWithClose(output) && |parents| > 1
    ensures OnlyMarkersAfter(output, out, k)
    ensures JustClosed(output, output[|output| - 1].parents) ==>
              Opened(out) == Some(Prefixes(parents[..|parents| - 1]))
  {
    ghost var fine := JustClosed(output, output[|output| - 1].parents);
    k := |output|;
    out := CloseDownTo(output, |parents|);
    var last := out[|out| - 1].parents;
    assert fine ==> JustClosed(out, last);
    var mpair := if |last| < |parents| - 1 then |last| else |parents| - 1;
    var common := CommonSegments(last, parents, mpair);
    if common == mpair {
      assert last[..common] == last;
      if fine { TakeBack(out, last); }
      if |out| == |output| { k := |output| - 1; }
      out := out[..|out| - 1];
    } else {
      out := CloseDownTo(out, common + 2);
      assert last[..common + 1][..common] == parents[..common];
    }
    assert fine ==> Opened(out) == Some(Prefixes(parents[..common]));
    ghost var mid := out;
    out := OpenFrom(out, parents, common);
    MarkersTransitive(output, mid, out, k);
  }

  // From a section just closed, or from no section at all, the levels of the new one are open.
  method CheckParentSegments(output: seq<ConfigItem>, parents: seq<string>)
    returns (out: seq<ConfigItem>, ghost k: nat)
    requires parents != []
    ensures OnlyMarkersAfter(output, out, k) && out != [] && out[|out| - 1] == Marker(OPEN, parents)
    ensures AllClosed(output) || (EndsWithClose(output) && JustClosed(output, output[|output| - 1].parents)) ==>
              InSection(out, parents)
  {
    out := output;
    k := |output|;
    if EndsWithClose(output) && |parents| > 1 {
      out, k := SwitchSection(output, parents);
    } else if EndsWithClose(output) {
      out := CloseDownTo(output, 2);
    } else if |parents| > 1 {
      out := OpenFrom(output, parents, 0);
    }
    if Opened(out) == Some(Prefixes(parents[..|parents| - 1])) {
      OpenedAppend(out, Marker(OPEN, parents));
    }
    out := out + [Marker(OPEN, parents)];
  }
}
