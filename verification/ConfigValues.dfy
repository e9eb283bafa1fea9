/**
 Values in config files: how the writer prints a list of arguments and the reader takes it
 apart again.  The formatter's default characters are used: '[', ']' and ',' for arrays, the
 double quote for strings, the single quote for characters, '#' for comments.
 */
module ConfigValues {
  import opened Wrappers
  import opened Text
  import opened Counting

  // ---------- what the writer leaves unquoted ----------

  predicate IsHexDigit(c: char) {
    IsDigit(c) || 'a' <= c <= 'f' || 'A' <= c <= 'F'
  }

  predicate IsAlnum(c: char) {
    IsDigit(c) || 'a' <= c <= 'z' || 'A' <= c <= 'Z'
  }

  predicate All(s: string, p: char -> bool) {
    s == "" || (p(s[0]) && All(s[1..], p))
  }

  // What strtold has read so far of a number.
  datatype Scan =
    | Lead | Signed
    | Zero | Digits | Point | Fraction         // decimal; Zero may turn out hexadecimal
    | Exponent | ExponentSign | ExponentDigits // also of a hexadecimal number
    | Hex | HexDigits | HexPoint | HexFraction
    | Word(w: string) | NanTag | NanClosed     // inf, infinity, nan, nan(...)

  // The state after one more character, if what is read is still the start of a number.
  function ScanChar(st: Scan, c: char): Option<Scan> {
    match st
    case Lead => if IsSpace(c) then Some(Lead) else if c == '+' || c == '-' then Some(Signed) else ScanStart(c)
    case Signed => ScanStart(c)
    case Zero => if c == 'x' || c == 'X' then Some(Hex) else ScanDecimal(c)
    case Digits => ScanDecimal(c)
    case Point => if IsDigit(c) then Some(Fraction) else None
    case Fraction => if IsDigit(c) then Some(Fraction) else ScanExponent(c, 'e')
    case Exponent =>
      if c == '+' || c == '-' then Some(ExponentSign) else if IsDigit(c) then Some(ExponentDigits) else None
    case ExponentSign => if IsDigit(c) then Some(ExponentDigits) else None
    case ExponentDigits => if IsDigit(c) then Some(ExponentDigits) else None
    case Hex => if IsHexDigit(c) then Some(HexDigits) else if c == '.' then Some(HexPoint) else None
    case HexDigits =>
      if IsHexDigit(c) then Some(HexDigits) else if c == '.' then Some(HexFraction) else ScanExponent(c, 'p')
    case HexPoint => if IsHexDigit(c) then Some(HexFraction) else None
    case HexFraction => if IsHexDigit(c) then Some(HexFraction) else ScanExponent(c, 'p')
    case Word(w) =>
      if w == "nan" && c == '(' then Some(NanTag)
      else if IsAlnum(c) && (w + [ToLowerChar(c)] <= "infinity" || w + [ToLowerChar(c)] <= "nan")
      then Some(Word(w + [ToLowerChar(c)]))
      else None
    case NanTag => if c == ')' then Some(NanClosed) else if IsAlnum(c) || c == '_' then Some(NanTag) else None
    case NanClosed => None
  }

  function ScanStart(c: char): Option<Scan> {
    if c == '0' then Some(Zero)
    else if IsDigit(c) then Some(Digits)
    else if c == '.' then Some(Point)
    else if ToLowerChar(c) == 'i' || ToLowerChar(c) == 'n' then Some(Word([ToLowerChar(c)]))
    else None
  }

  function ScanDecimal(c: char): Option<Scan> {
    if IsDigit(c) then Some(Digits) else if c == '.' then Some(Fraction) else ScanExponent(c, 'e')
  }

  function ScanExponent(c: char, mark: char): Option<Scan> {
    if ToLowerChar(c) == mark then Some(Exponent) else None
  }

  predicate IsNumber(st: Scan) {
    || st.Zero? || st.Digits? || st.Fraction? || st.ExponentDigits? || st.HexDigits? || st.HexFraction?
    || st.NanClosed? || (st.Word? && (st.w == "inf" || st.w == "infinity" || st.w == "nan"))
  }

  predicate Scans(st: Scan, s: string)
    decreases |s|
  {
    if s == "" then IsNumber(st) else
    match ScanChar(st, s[0])
    case None => false
    case Some(st') => Scans(st', s[1..])
  }

  // strtold accepts the text as a whole.
  predicate FloatText(s: string) {
    Scans(Lead, s)
  }

  predicate IsOctalDigit(c: char) {
    '0' <= c <= '7'
  }

  predicate IsBinaryDigit(c: char) {
    c == '0' || c == '1'
  }

  predicate PrefixedInteger(s: string) {
    && |s| >= 2 && s[0] == '0'
    && ((s[1] == 'x' && All(s[2..], IsHexDigit))
        || (s[1] == 'o' && All(s[2..], IsOctalDigit))
        || (s[1] == 'b' && All(s[2..], IsBinaryDigit)))
  }

  predicate StartsHex(s: string) {
    |s| >= 2 && s[0] == '0' && (s[1] == 'x' || s[1] == 'X')
  }

  predicate IsWord(arg: string) {
    arg == "true" || arg == "false" || arg == "nan" || arg == "inf"
  }

  // What is printed as it is.
  predicate Bare(arg: string) {
    IsWord(arg) || (!StartsHex(arg) && FloatText(arg)) || PrefixedInteger(arg)
  }

  function ConvertArg(arg: string): string {
    if arg == "" then ['"', '"']
    else if Bare(arg) then arg
    else if |arg| == 1 || '"' in arg then ['\''] + arg + ['\'']
    else ['"'] + arg + ['"']
  }

  function Converted(args: seq<string>): seq<string> {
    seq(|args|, i requires 0 <= i < |args| => ConvertArg(args[i]))
  }

  function JoinParts(parts: seq<string>): string {
    if parts == [] then ""
    else if |parts| == 1 then parts[0]
    else parts[0] + ", " + JoinParts(parts[1..])
  }

  // An array if there is more than one part.
  function ListText(parts: seq<string>): string {
    if |parts| > 1 then "[" + JoinParts(parts) + "]" else JoinParts(parts)
  }

  // The text of a list of arguments.
  function JoinText(args: seq<string>): string {
    ListText(Converted(args))
  }

  lemma {:induction false} JoinPartsAppend(parts: seq<string>, part: string)
    requires parts != []
    ensures JoinParts(parts + [part]) == JoinParts(parts) + ", " + part
  {
    if |parts| == 1 {
      assert (parts + [part])[1..] == [part];
    } else {
      JoinPartsAppend(parts[1..], part);
      assert (parts + [part])[1..] == parts[1..] + [part];
    }
  }

  method Join(parts: seq<string>) returns (joined: string)
    ensures joined == ListText(parts)
  {
    var body := "";
    for start := 0 to |parts|
      invariant body == JoinParts(parts[..start])
    {
      if start > 0 {
        JoinPartsAppend(parts[..start], parts[start]);
        body := body + ", ";
      }
      assert parts[..start + 1] == parts[..start] + [parts[start]];
      body := body + parts[start];
    }
    assert parts[..|parts|] == parts;
    joined := if |parts| > 1 then "[" + body + "]" else body;
  }

  method IniJoin(args: seq<string>) returns (joined: string)
    ensures joined == JoinText(args)
  {
    joined := Join(Converted(args));
  }

  // ---------- the reader ----------

  datatype Delimiter = Space | Char(c: char)

  predicate Delimits(d: Delimiter, c: char) {
    if d.Space? then IsSpace(c) else c == d.c
  }

  predicate OpensQuote(c: char) {
    c == '"' || c == '\'' || c == '`'
  }

  // The quote that closes s[0]: one not preceded by a backslash.
  function ClosingQuote(s: string, from: nat): (r: Option<nat>)
    requires s != "" && from > 0
    ensures r.Some? ==> from <= r.value < |s| && s[r.value] == s[0]
    decreases |s| - from
  {
    match Find(s, s[0], from)
    case None => None
    case Some(k) => if s[k - 1] == '\\' then ClosingQuote(s, k + 1) else Some(k)
  }

  predicate SkipsEscape(s: string)
    requires s != ""
  {
    var first := Find(s, s[0], 1);
    first.Some? && s[first.value - 1] == '\\'
  }

  function Unescape(s: string, quote: char): string {
    if |s| < 2 then s
    else if s[0] == '\\' && s[1] == quote then [quote] + Unescape(s[2..], quote)
    else [s[0]] + Unescape(s[1..], quote)
  }

  function FindDelimiter(s: string, d: Delimiter, from: nat): (r: Option<nat>)
    ensures r.Some? ==> from <= r.value < |s| && Delimits(d, s[r.value])
    decreases |s| - from
  {
    if from >= |s| then None
    else if Delimits(d, s[from]) then Some(from)
    else FindDelimiter(s, d, from + 1)
  }

  lemma {:induction false} FirstDelimiter(s: string, d: Delimiter, from: nat, at: nat)
    requires from <= at <= |s| && forall i :: from <= i < at ==> !Delimits(d, s[i])
    requires at < |s| ==> Delimits(d, s[at])
    ensures FindDelimiter(s, d, from) == if at < |s| then Some(at) else None
    decreases at - from
  {
    if from < at { FirstDelimiter(s, d, from + 1, at); }
  }

  // The first piece of non-empty text, and what follows it and one delimiter.
  function TakePiece(s: string, d: Delimiter): (r: (string, string))
    requires s != ""
    ensures |r.1| < |s|
  {
    if OpensQuote(s[0]) then
      var raw := match ClosingQuote(s, 1)
        case Some(end) => (s[1..end], if end + 2 < |s| then s[end + 2..] else "")
        case None => (s[1..], "");
      (if SkipsEscape(s) then Unescape(raw.0, s[0]) else raw.0, raw.1)
    else
      match FindDelimiter(s, d, 0)
      case Some(k) => (s[..k], s[k + 1..])
      case None => (s, "")
  }

  function Pieces(s: string, d: Delimiter): seq<string>
    decreases |s|
  {
    if s == "" then [] else
    var (piece, rest) := TakePiece(s, d);
    [piece] + Pieces(Trim(rest), d)
  }

  method FindClosing(str: string) returns (end: Option<nat>, embeddedQuote: bool)
    requires str != ""
    ensures end == ClosingQuote(str, 1) && embeddedQuote == SkipsEscape(str)
  {
    embeddedQuote := false;
    end := Find(str, str[0], 1);
    while end.Some? && str[end.value - 1] == '\\'
      invariant end.Some? ==> 1 <= end.value < |str|
      invariant if embeddedQuote then SkipsEscape(str) else end == Find(str, str[0], 1)
      invariant (match end
                 case None => None
                 case Some(k) => if str[k - 1] == '\\' then ClosingQuote(str, k + 1) else end)
                == ClosingQuote(str, 1)
      decreases if end.Some? then |str| - end.value else 0
    {
      end := Find(str, str[0], end.value + 1);
      embeddedQuote := true;
    }
  }

  method NextPiece(str: string, d: Delimiter) returns (piece: string, rest: string)
    requires str != ""
    ensures (piece, rest) == TakePiece(str, d)
  {
    if OpensQuote(str[0]) {
      var end, embeddedQuote := FindClosing(str);
      if end.Some? {
        piece := str[1..end.value];
        rest := if end.value + 2 < |str| then str[end.value + 2..] else "";
      } else {
        piece := str[1..];
        rest := "";
      }
      if embeddedQuote {
        piece := Unescape(piece, str[0]);
      }
    } else {
      var it := FindDelimiter(str, d, 0);
      if it.Some? {
        piece := str[..it.value];
        rest := str[it.value + 1..];
      } else {
        piece := str;
        rest := "";
      }
    }
  }

  lemma PiecesStep(s: string, d: Delimiter, piece: string, rest: string)
    requires s != "" && (piece, rest) == TakePiece(s, d)
    ensures Pieces(s, d) == [piece] + Pieces(Trim(rest), d) && |Trim(rest)| < |s|
  {
  }

  method SplitUp(text: string, d: Delimiter) returns (output: seq<string>)
    ensures output == Pieces(Trim(text), d)
  {
    var str := Trim(text);
    output := [];
    while str != ""
      invariant output + Pieces(str, d) == Pieces(Trim(text), d)
      decreases |str|
    {
      ghost var sofar := output;
      var piece, rest := NextPiece(str, d);
      PiecesStep(str, d, piece, rest);
      output := output + [piece];
      str := Trim(rest);
      assert sofar + ([piece] + Pieces(str, d)) == output + Pieces(str, d);
    }
  }

  function StripAll(items: seq<string>): seq<string> {
    seq(|items|, i requires 0 <= i < |items| => RemoveQuotes(items[i]))
  }

  // A value with its comment cut off.
  function Uncomment(text: string): string {
    var item := Trim(text);
    match Find(item, '#', 0)
    case Some(k) => Trim(item[..k])
    case None => item
  }

  // The items of a value that is complete on its line.
  function ItemsOf(item: string): seq<string> {
    StripAll(
      if |item| > 1 && item[0] == '[' then Pieces(Trim(item[1..|item| - 1]), Char(','))
      else if ',' in item then Pieces(Trim(item), Char(','))
      else if ' ' in item then Pieces(Trim(item), Space)
      else [item])
  }

  function ParseValue(text: string): seq<string> {
    ItemsOf(Uncomment(text))
  }

  // ---------- one argument ----------

  // What comes back for an argument: unquoted text loses its leading space.
  function Normal(arg: string): string {
    if Bare(arg) then LTrim(arg) else arg
  }

  function QuoteFor(arg: string): char {
    if arg != "" && (|arg| == 1 || '"' in arg) then '\'' else '"'
  }

  predicate EndsEscaping(arg: string) {
    arg != "" && arg[|arg| - 1] == '\\'
  }

  // What is printed is taken back whole, wherever it stands: quoted text must not hold its
  // quote, escape the closing one, or look quoted itself.
  predicate Readable(arg: string) {
    Bare(arg) || (QuoteFor(arg) !in arg && !EndsEscaping(arg) && RemoveQuotes(arg) == arg)
  }

  predicate SafeChar(c: char) {
    IsAlnum(c) || c == '+' || c == '-' || c == '.' || c == '_' || c == '(' || c == ')'
  }

  predicate SafeText(s: string) {
    s != "" && forall i :: 0 <= i < |s| ==> SafeChar(s[i])
  }

  lemma {:induction false} SafeByAll(s: string, p: char -> bool)
    requires All(s, p) && forall c :: p(c) ==> SafeChar(c)
    ensures forall i :: 0 <= i < |s| ==> SafeChar(s[i])
  {
    if s != "" { SafeByAll(s[1..], p); }
  }

  lemma ScanCharSafe(st: Scan, c: char)
    requires ScanChar(st, c).Some? && (st.Lead? ==> !IsSpace(c))
    ensures SafeChar(c) && !ScanChar(st, c).value.Lead?
  {
  }

  lemma {:induction false} ScansSafe(st: Scan, s: string)
    requires Scans(st, s) && !st.Lead?
    ensures forall i :: 0 <= i < |s| ==> SafeChar(s[i])
    decreases |s|
  {
    if s != "" {
      ScanCharSafe(st, s[0]);
      ScansSafe(ScanChar(st, s[0]).value, s[1..]);
    }
  }

  lemma {:induction false} FloatSafe(s: string)
    requires FloatText(s)
    ensures SafeText(LTrim(s))
    decreases |s|
  {
    if IsSpace(s[0]) {
      FloatSafe(s[1..]);
    } else {
      ScanCharSafe(Lead, s[0]);
      ScansSafe(ScanChar(Lead, s[0]).value, s[1..]);
    }
  }

  lemma PrefixedSafe(s: string)
    requires PrefixedInteger(s)
    ensures SafeText(s)
  {
    if s[1] == 'x' { SafeByAll(s[2..], IsHexDigit); }
    else if s[1] == 'o' { SafeByAll(s[2..], IsOctalDigit); }
    else { SafeByAll(s[2..], IsBinaryDigit); }
    forall i | 0 <= i < |s| ensures SafeChar(s[i]) {
      if i >= 2 { assert s[2..][i - 2] == s[i]; }
    }
  }

  lemma BareSafe(arg: string)
    requires Bare(arg)
    ensures SafeText(LTrim(arg))
  {
    if !StartsHex(arg) && FloatText(arg) {
      FloatSafe(arg);
    } else if PrefixedInteger(arg) {
      PrefixedSafe(arg);
      assert LTrim(arg) == arg;
    } else {
      WordSafe(arg);
    }
  }

  lemma WordSafe(arg: string)
    requires IsWord(arg)
    ensures SafeText(arg) && LTrim(arg) == arg
  {
    forall i | 0 <= i < |arg| ensures SafeChar(arg[i]) {
      assert IsAlnum(arg[i]);
    }
    assert !IsSpace(arg[0]);
  }

  lemma QuotedForm(arg: string)
    requires !Bare(arg)
    ensures ConvertArg(arg) == [QuoteFor(arg)] + arg + [QuoteFor(arg)]
  {
    if arg == "" { assert ['"'] + arg + ['"'] == ['"', '"']; }
  }

  // ---------- taking a quoted part ----------

  // Every quote before the closing one comes after a backslash; the closing one does not.
  lemma {:induction false} ClosingFacts(s: string, from: nat)
    requires s != "" && 0 < from <= |s|
    ensures ClosingQuote(s, from).Some? ==> s[ClosingQuote(s, from).value - 1] != '\\'
    ensures var end := match ClosingQuote(s, from) case Some(k) => k case None => |s|;
      forall k :: from <= k < end && s[k] == s[0] ==> s[k - 1] == '\\'
    decreases |s| - from
  {
    BeforeFirst(s, s[0], from);
    match Find(s, s[0], from)
    case None =>
    case Some(k) => if s[k - 1] == '\\' { ClosingFacts(s, k + 1); }
  }

  lemma {:induction false} UnescapeCounts(s: string, q: char)
    requires IsQuote(q)
    ensures |Unescape(s, q)| <= |s|
    ensures Count(Unescape(s, q), '\\') <= Count(s, '\\') && Count(Unescape(s, q), ',') == Count(s, ',')
    decreases |s|
  {
    if |s| >= 2 {
      if s[0] == '\\' && s[1] == q {
        UnescapeCounts(s[2..], q);
        assert s[1..][1..] == s[2..];
      } else {
        UnescapeCounts(s[1..], q);
      }
    }
  }

  lemma {:induction false} UnescapeDrops(s: string, q: char, i: nat)
    requires IsQuote(q) && i + 1 < |s| && s[i] == '\\' && s[i + 1] == q
    ensures Count(Unescape(s, q), '\\') < Count(s, '\\')
    decreases |s|
  {
    if s[0] == '\\' && s[1] == q {
      UnescapeCounts(s[2..], q);
      assert s[1..][1..] == s[2..];
    } else {
      UnescapeDrops(s[1..], q, i - 1);
    }
  }

  lemma RemoveQuotesCounts(s: string, c: char)
    requires !IsQuote(c)
    ensures |RemoveQuotes(s)| <= |s| && Count(RemoveQuotes(s), c) == Count(s, c)
  {
    if RemoveQuotes(s) != s {
      var inner := s[1..|s| - 1];
      assert s == [s[0]] + inner + [s[0]];
      CountConcat([s[0]] + inner, [s[0]], c);
      CountConcat([s[0]], inner, c);
    }
  }

  // What TakePiece makes of the text between the quotes.
  function Inside(s: string, raw: string): string
    requires s != ""
  {
    if SkipsEscape(s) then Unescape(raw, s[0]) else raw
  }

  // Cut off before the closing quote, after an escape, or beyond it: the argument is not back.
  lemma ShortIsNotBack(s: string, raw: string, arg: string)
    requires s != "" && IsQuote(s[0]) && |raw| < |arg|
    ensures RemoveQuotes(Inside(s, raw)) != arg
  {
    UnescapeCounts(raw, s[0]);
    RemoveQuotesCounts(Inside(s, raw), ',');
  }

  lemma EscapedIsNotBack(s: string, raw: string, arg: string, i: nat)
    requires s != "" && IsQuote(s[0]) && SkipsEscape(s) && i + 1 < |raw| && raw[i] == '\\' && raw[i + 1] == s[0]
    requires Count(raw, '\\') == Count(arg, '\\')
    ensures RemoveQuotes(Inside(s, raw)) != arg
  {
    UnescapeDrops(raw, s[0], i);
    RemoveQuotesCounts(Inside(s, raw), '\\');
  }

  lemma LongIsNotBack(s: string, raw: string, arg: string)
    requires s != "" && IsQuote(s[0]) && Count(raw, ',') > Count(arg, ',')
    ensures RemoveQuotes(Inside(s, raw)) != arg
  {
    UnescapeCounts(raw, s[0]);
    RemoveQuotesCounts(Inside(s, raw), ',');
  }

  lemma CountBeyond(arg: string, q: char, w: string)
    requires IsQuote(q)
    ensures w == "" ==> Count(arg + [q] + w, '\\') == Count(arg, '\\')
    ensures w != "" && w[0] == ',' ==> Count(arg + [q] + w, ',') > Count(arg, ',')
  {
    var c := if w == "" then '\\' else ',';
    CountConcat(arg + [q], w, c);
    CountConcat(arg, [q], c);
  }

  // The first quote that might close is escaped if any quote before the closing one is.
  lemma FirstIsEscaped(s: string, k: nat)
    requires s != "" && IsQuote(s[0]) && 1 <= k < |s| && s[k] == s[0] && s[k - 1] == '\\'
    requires match ClosingQuote(s, 1) case Some(end) => k < end case None => true
    ensures SkipsEscape(s) && Find(s, s[0], 1).Some? && 2 <= Find(s, s[0], 1).value <= k
  {
    BeforeFirst(s, s[0], 1);
    ClosingFacts(s, 1);
  }

  lemma NothingSkipped(s: string, q: char, e: nat)
    requires s != "" && s[0] == q && ClosingQuote(s, 1) == Some(e) && !SkipsEscape(s)
    ensures forall i :: 1 <= i < e ==> s[i] != q
    ensures s[e - 1] != '\\'
  {
    BeforeFirst(s, q, 1);
    ClosingFacts(s, 1);
  }

  predicate PlainIn(arg: string, q: char) {
    q !in arg && !EndsEscaping(arg) && RemoveQuotes(arg) == arg
  }

  lemma PieceOf(s: string, d: Delimiter)
    requires s != "" && IsQuote(s[0])
    ensures TakePiece(s, d).0 ==
            Inside(s, match ClosingQuote(s, 1) case Some(end) => s[1..end] case None => s[1..])
  {
  }

  lemma TakeBeyond(arg: string, q: char, tail: string, w: string)
    requires IsQuote(q) && w <= tail && (tail == "" || tail[0] == ',')
    requires var s := [q] + arg + [q] + tail;
      match ClosingQuote(s, 1)
      case Some(end) => end == |arg| + 2 + |w|
      case None => w == tail
    ensures RemoveQuotes(Inside([q] + arg + [q] + tail, arg + [q] + w)) != arg
  {
    var s := [q] + arg + [q] + tail;
    var e := |arg| + 1;
    assert s[e] == q;
    ClosingFacts(s, 1);
    FirstIsEscaped(s, e);
    CountBeyond(arg, q, w);
    if w == "" {
      var f := Find(s, q, 1).value;
      assert (arg + [q])[f - 2] == s[f - 1] && (arg + [q])[f - 1] == s[f];
      assert arg + [q] + w == arg + [q];
      EscapedIsNotBack(s, arg + [q], arg, f - 2);
    } else {
      assert w[0] == tail[0];
      LongIsNotBack(s, arg + [q] + w, arg);
    }
  }

  // Quoted text that is not plain does not come back, whatever follows in the list.
  lemma TakeFailed(arg: string, q: char, tail: string, d: Delimiter)
    requires IsQuote(q) && !PlainIn(arg, q) && (tail == "" || tail[0] == ',')
    ensures RemoveQuotes(TakePiece([q] + arg + [q] + tail, d).0) != arg
  {
    var s := [q] + arg + [q] + tail;
    var e := |arg| + 1;
    PieceOf(s, d);
    match ClosingQuote(s, 1)
    case None =>
      assert s[1..] == arg + [q] + tail;
      TakeBeyond(arg, q, tail, tail);
    case Some(end) =>
      if end < e {
        assert s[1..end] == arg[..end - 1];
        ShortIsNotBack(s, s[1..end], arg);
      } else if end == e {
        assert s[1..end] == arg;
        ClosedAtEnd(arg, q, tail);
      } else {
        var w := tail[..end - e - 1];
        SliceBeyond(arg, q, tail, end);
        TakeBeyond(arg, q, tail, w);
      }
  }

  lemma SliceBeyond(arg: string, q: char, tail: string, end: nat)
    requires |arg| + 1 < end <= |arg| + 2 + |tail|
    ensures ([q] + arg + [q] + tail)[1..end] == arg + [q] + tail[..end - |arg| - 2]
  {
  }

  lemma ClosedAtEnd(arg: string, q: char, tail: string)
    requires IsQuote(q) && !PlainIn(arg, q)
    requires ClosingQuote([q] + arg + [q] + tail, 1) == Some(|arg| + 1)
    ensures RemoveQuotes(Inside([q] + arg + [q] + tail, arg)) != arg
  {
    var s := [q] + arg + [q] + tail;
    var e := |arg| + 1;
    if SkipsEscape(s) {
      BeforeFirst(s, q, 1);
      ClosingFacts(s, 1);
      assert s[e] == q;
      var f := Find(s, q, 1).value;
      assert f < e && f >= 2 && arg[f - 2] == s[f - 1] && arg[f - 1] == s[f];
      EscapedIsNotBack(s, arg, arg, f - 2);
    } else {
      NothingSkipped(s, q, e);
      assert forall i :: 0 <= i < |arg| ==> arg[i] == s[i + 1];
    }
  }

  lemma TakePlain(arg: string, q: char, tail: string, d: Delimiter)
    requires IsQuote(q) && PlainIn(arg, q)
    ensures TakePiece([q] + arg + [q] + tail, d) == (arg, if tail == "" then "" else tail[1..])
  {
    var s := [q] + arg + [q] + tail;
    var end := |arg| + 1;
    assert s[end] == q;
    forall i | 1 <= i < end ensures s[i] != q {
      assert s[i] == arg[i - 1];
    }
    FindFirst(s, q, 1, end);
    assert s[end - 1] != '\\';
    assert ClosingQuote(s, 1) == Some(end);
    assert s[1..end] == arg;
    assert !SkipsEscape(s);
    if |tail| > 1 {
      assert s[end + 2..] == tail[1..];
    } else if |tail| == 1 {
      assert tail[1..] == "";
    }
  }

  lemma TakeBare(t: string, tail: string, d: Delimiter)
    requires SafeText(t) && (tail == "" || d == Char(tail[0])) && (d.Char? ==> d.c == ',')
    ensures TakePiece(t + tail, d) == (t, if tail == "" then "" else tail[1..])
  {
    var s := t + tail;
    assert s[0] == t[0];
    forall i | 0 <= i < |t| ensures !Delimits(d, s[i]) {
      assert SafeChar(t[i]);
    }
    if tail != "" {
      assert Delimits(d, s[|t|]);
      FirstDelimiter(s, d, 0, |t|);
      assert s[..|t|] == t && s[|t| + 1..] == tail[1..];
    } else {
      assert s == t;
      FirstDelimiter(s, d, 0, |t|);
    }
  }

  // ---------- one part ----------

  // A printed argument, as it stands in front of what follows it.
  function Printed(arg: string): string {
    LTrim(ConvertArg(arg))
  }

  lemma PrintedQuoted(arg: string)
    requires !Bare(arg)
    ensures Printed(arg) == ConvertArg(arg) == [QuoteFor(arg)] + arg + [QuoteFor(arg)]
  {
    QuotedForm(arg);
    assert !IsSpace(ConvertArg(arg)[0]);
  }

  lemma PrintedBare(arg: string)
    requires Bare(arg)
    ensures Printed(arg) == Normal(arg) && SafeText(Printed(arg)) && RemoveQuotes(Printed(arg)) == Printed(arg)
  {
    BareSafe(arg);
    assert SafeChar(Printed(arg)[0]);
  }

  lemma PartIsSolid(arg: string)
    ensures Printed(arg) != "" && Printed(arg)[0] != '['
    ensures var part := ConvertArg(arg); part != "" && !IsSpace(part[|part| - 1])
  {
    if Bare(arg) {
      PrintedBare(arg);
      LTrimSuffix(arg);
      assert SafeChar(Printed(arg)[0]) && SafeChar(Printed(arg)[|Printed(arg)| - 1]);
    } else {
      PrintedQuoted(arg);
    }
  }

  // Taken from the front of a list, or alone, a printed argument comes back as its normal form
  // exactly if it is readable, and then only it is taken.
  lemma FirstPiece(arg: string, tail: string, d: Delimiter)
    requires tail == "" || (tail[0] == ',' && d == Char(','))
    requires (d.Char? ==> d.c == ',') && Printed(arg) != ""
    ensures var (piece, rest) := TakePiece(Printed(arg) + tail, d);
      && (RemoveQuotes(piece) == Normal(arg) <==> Readable(arg))
      && (Readable(arg) ==> rest == if tail == "" then "" else tail[1..])
  {
    if Bare(arg) {
      PrintedBare(arg);
      TakeBare(Printed(arg), tail, d);
    } else {
      PrintedQuoted(arg);
      if PlainIn(arg, QuoteFor(arg)) {
        TakePlain(arg, QuoteFor(arg), tail, d);
      } else {
        TakeFailed(arg, QuoteFor(arg), tail, d);
      }
    }
  }

  // ---------- lists ----------

  lemma {:induction false} LTrimConcat(a: string, b: string)
    requires LTrim(a) != ""
    ensures LTrim(a + b) == LTrim(a) + b
    decreases |a|
  {
    if IsSpace(a[0]) {
      assert (a + b)[1..] == a[1..] + b;
      LTrimConcat(a[1..], b);
    }
  }

  function Body(args: seq<string>): string {
    JoinParts(Converted(args))
  }

  // What follows the first part.
  function Tail(args: seq<string>): string
    requires args != []
  {
    if |args| == 1 then "" else ", " + Body(args[1..])
  }

  lemma BodySplit(args: seq<string>)
    requires args != []
    ensures Body(args) == ConvertArg(args[0]) + Tail(args)
  {
    assert Converted(args)[1..] == Converted(args[1..]);
  }

  lemma {:induction false} BodyEnd(args: seq<string>)
    requires args != []
    ensures Body(args) != "" && !IsSpace(Body(args)[|Body(args)| - 1])
  {
    BodySplit(args);
    PartIsSolid(args[0]);
    if |args| > 1 { BodyEnd(args[1..]); }
  }

  lemma TrimSolidEnd(s: string)
    requires s != "" && !IsSpace(s[|s| - 1])
    ensures Trim(s) == LTrim(s)
  {
  }

  lemma TrimBody(args: seq<string>)
    requires args != []
    ensures Trim(Body(args)) == Printed(args[0]) + Tail(args)
  {
    BodyEnd(args);
    TrimSolidEnd(Body(args));
    BodySplit(args);
    PartIsSolid(args[0]);
    LTrimConcat(ConvertArg(args[0]), Tail(args));
  }

  lemma TrimAfterSpace(s: string)
    requires s != "" && !IsSpace(s[|s| - 1])
    ensures Trim(" " + s) == Trim(s)
  {
    assert RTrim(s) == s && RTrim(" " + s) == " " + s;
    assert (" " + s)[1..] == s;
  }

  function ArrayItems(args: seq<string>): seq<string> {
    StripAll(Pieces(Trim(Body(args)), Char(',')))
  }

  lemma StripCons(piece: string, more: seq<string>)
    ensures StripAll([piece] + more) == [RemoveQuotes(piece)] + StripAll(more)
  {
  }

  lemma RestOfBody(args: seq<string>)
    requires |args| > 1
    ensures Trim(Tail(args)[1..]) == Trim(Body(args[1..]))
  {
    BodyEnd(args[1..]);
    TrimAfterSpace(Body(args[1..]));
    assert Tail(args)[1..] == " " + Body(args[1..]);
  }

  // The first item, and, if it is readable, the others.
  lemma FirstItem(args: seq<string>)
    requires args != []
    ensures ArrayItems(args) != []
    ensures ArrayItems(args)[0] == Normal(args[0]) <==> Readable(args[0])
    ensures Readable(args[0]) ==> ArrayItems(args)[1..] == if |args| == 1 then [] else ArrayItems(args[1..])
  {
    var s := Printed(args[0]) + Tail(args);
    TrimBody(args);
    PartIsSolid(args[0]);
    FirstPiece(args[0], Tail(args), Char(','));
    var (piece, rest) := TakePiece(s, Char(','));
    PiecesStep(s, Char(','), piece, rest);
    StripCons(piece, Pieces(Trim(rest), Char(',')));
    if |args| > 1 { RestOfBody(args); }
  }

  // Either the argument itself or what becomes of it.
  predicate Candidates(args: seq<string>, want: seq<string>) {
    |want| == |args| && forall i :: 0 <= i < |args| ==> want[i] == args[i] || want[i] == Normal(args[i])
  }

  predicate AllRead(args: seq<string>, want: seq<string>) {
    |want| == |args| && forall i :: 0 <= i < |args| ==> Readable(args[i]) && want[i] == Normal(args[i])
  }

  lemma AllReadStep(args: seq<string>, want: seq<string>)
    requires args != [] && |want| == |args|
    ensures AllRead(args, want) <==> Readable(args[0]) && want[0] == Normal(args[0]) && AllRead(args[1..], want[1..])
  {
    if AllRead(args[1..], want[1..]) && Readable(args[0]) && want[0] == Normal(args[0]) {
      forall i | 0 <= i < |args| ensures Readable(args[i]) && want[i] == Normal(args[i]) {
        if i > 0 { assert args[1..][i - 1] == args[i] && want[1..][i - 1] == want[i]; }
      }
    }
  }

  lemma SplitEqual(items: seq<string>, want: seq<string>)
    requires items != [] && want != []
    ensures items == want <==> items[0] == want[0] && items[1..] == want[1..]
  {
    assert items == [items[0]] + items[1..] && want == [want[0]] + want[1..];
  }

  lemma {:induction false} BodyIff(args: seq<string>, want: seq<string>)
    requires args != [] && Candidates(args, want)
    ensures ArrayItems(args) == want <==> AllRead(args, want)
    decreases |args|
  {
    FirstItem(args);
    AllReadStep(args, want);
    SplitEqual(ArrayItems(args), want);
    if |args| > 1 { BodyIff(args[1..], want[1..]); }
  }

  // Alone, an argument without comma and space is not split, so only its outer quotes matter.
  predicate ReadableAlone(arg: string) {
    Readable(arg) || (',' !in arg && ' ' !in arg)
  }

  lemma ItemsAlone(arg: string, d: Delimiter) returns (item: string, more: seq<string>)
    requires d.Char? ==> d.c == ','
    ensures StripAll(Pieces(Printed(arg), d)) == [item] + more
    ensures item == Normal(arg) <==> Readable(arg)
    ensures Readable(arg) ==> more == []
  {
    var s := Printed(arg);
    PartIsSolid(arg);
    FirstPiece(arg, "", d);
    assert s + "" == s;
    var (piece, rest) := TakePiece(s, d);
    PiecesStep(s, d, piece, rest);
    item, more := RemoveQuotes(piece), StripAll(Pieces(Trim(rest), d));
    StripCons(piece, Pieces(Trim(rest), d));
  }

  lemma SplitAlone(arg: string, d: Delimiter, want: string)
    requires want == arg || want == Normal(arg)
    requires d.Char? ==> d.c == ','
    ensures StripAll(Pieces(Printed(arg), d)) == [want] <==> Readable(arg) && want == Normal(arg)
  {
    var item, more := ItemsAlone(arg, d);
    assert ([item] + more)[0] == item && [want][0] == want;
  }

  lemma StripOne(item: string)
    ensures StripAll([item]) == [RemoveQuotes(item)]
  {
  }

  lemma QuotedItems(arg: string)
    requires !Bare(arg)
    ensures ItemsOf(Printed(arg)) ==
            if ',' in arg then StripAll(Pieces(Printed(arg), Char(',')))
            else if ' ' in arg then StripAll(Pieces(Printed(arg), Space))
            else [arg]
  {
    var item := Printed(arg);
    PrintedQuoted(arg);
    TrimPrinted(arg);
    StripOne(item);
    assert item[1..|item| - 1] == arg;
  }

  lemma BareItems(arg: string)
    requires Bare(arg)
    ensures ItemsOf(Printed(arg)) == [Normal(arg)]
  {
    PrintedBare(arg);
    PartIsSolid(arg);
    StripOne(Printed(arg));
    assert ',' !in Printed(arg) && ' ' !in Printed(arg);
  }

  lemma SingleIff(arg: string, want: string)
    requires want == arg || want == Normal(arg)
    ensures ItemsOf(Printed(arg)) == [want] <==> ReadableAlone(arg) && want == Normal(arg)
  {
    if Bare(arg) {
      BareItems(arg);
      assert [Normal(arg)][0] == Normal(arg);
    } else {
      QuotedItems(arg);
      SplitAlone(arg, Char(','), want);
      SplitAlone(arg, Space, want);
    }
  }

  lemma TrimPrinted(arg: string)
    ensures Trim(Printed(arg)) == Printed(arg) == Trim(ConvertArg(arg))
  {
    PartIsSolid(arg);
    TrimSolidEnd(ConvertArg(arg));
    LTrimSuffix(ConvertArg(arg));
    TrimSolid(Printed(arg));
  }

  predicate ReadableIn(args: seq<string>, arg: string) {
    if |args| == 1 then ReadableAlone(arg) else Readable(arg)
  }

  lemma ListIff(args: seq<string>, want: seq<string>)
    requires args != [] && Candidates(args, want)
    ensures ItemsOf(Trim(JoinText(args))) == want <==>
            forall i :: 0 <= i < |args| ==> ReadableIn(args, args[i]) && want[i] == Normal(args[i])
  {
    if |args| > 1 {
      var item := "[" + Body(args) + "]";
      TrimSolid(item);
      assert item[1..|item| - 1] == Body(args);
      BodyIff(args, want);
    } else {
      assert JoinText(args) == ConvertArg(args[0]);
      TrimPrinted(args[0]);
      SingleIff(args[0], want[0]);
      assert want == [want[0]];
    }
  }

  // ---------- comments ----------

  lemma {:induction false} UnescapeFree(s: string, quote: char, c: char)
    requires c !in s && c != quote
    ensures c !in Unescape(s, quote)
    decreases |s|
  {
    if |s| >= 2 {
      if s[0] == '\\' && s[1] == quote {
        UnescapeFree(s[2..], quote, c);
      } else {
        UnescapeFree(s[1..], quote, c);
      }
    }
  }

  lemma TakePieceFree(s: string, d: Delimiter, c: char)
    requires s != "" && c !in s
    ensures c !in TakePiece(s, d).0 && c !in TakePiece(s, d).1
  {
    if OpensQuote(s[0]) {
      match ClosingQuote(s, 1)
      case Some(end) => UnescapeFree(s[1..end], s[0], c);
      case None => UnescapeFree(s[1..], s[0], c);
    }
  }

  // Taking text apart invents no characters.
  lemma {:induction false} PiecesFree(s: string, d: Delimiter, c: char)
    requires c !in s
    ensures forall p :: p in Pieces(s, d) ==> c !in p
    decreases |s|
  {
    if s != "" {
      var (piece, rest) := TakePiece(s, d);
      PiecesStep(s, d, piece, rest);
      TakePieceFree(s, d, c);
      TrimFree(rest, c);
      PiecesFree(Trim(rest), d, c);
    }
  }

  lemma StripAllFree(items: seq<string>, c: char)
    requires forall p :: p in items ==> c !in p
    ensures forall p :: p in StripAll(items) ==> c !in p
  {
    forall i | 0 <= i < |items| ensures c !in StripAll(items)[i] {
      assert items[i] in items;
    }
  }

  lemma ItemsFree(item: string, c: char)
    requires c !in item
    ensures forall p :: p in ItemsOf(item) ==> c !in p
  {
    TrimFree(item, c);
    if |item| > 1 && item[0] == '[' {
      var inner := item[1..|item| - 1];
      TrimFree(inner, c);
      PiecesFree(Trim(inner), Char(','), c);
      StripAllFree(Pieces(Trim(inner), Char(',')), c);
    } else if ',' in item {
      PiecesFree(Trim(item), Char(','), c);
      StripAllFree(Pieces(Trim(item), Char(',')), c);
    } else if ' ' in item {
      PiecesFree(Trim(item), Space, c);
      StripAllFree(Pieces(Trim(item), Space), c);
    } else {
      StripAllFree([item], c);
    }
  }

  lemma UncommentedIsFree(text: string)
    ensures '#' !in Uncomment(text)
  {
    var item := Trim(text);
    BeforeFirst(item, '#', 0);
    match Find(item, '#', 0)
    case Some(k) => TrimFree(item[..k], '#');
    case None =>
  }

  // Printing loses no character, and adds only quotes, commas, spaces and brackets.
  lemma PrintedChars(args: seq<string>, c: char)
    requires c != '"' && c != '\'' && c != ',' && c != ' ' && c != '[' && c != ']'
    ensures c in JoinText(args) <==> exists a :: a in args && c in a
  {
    forall a | a in args ensures c in ConvertArg(a) <==> c in a {
      if !Bare(a) { QuotedForm(a); }
    }
    forall i | 0 <= i < |args| ensures c in Converted(args)[i] <==> c in args[i] {}
    JoinedChars(Converted(args), c);
    if exists a :: a in args && c in a {
      var i :| 0 <= i < |args| && c in args[i];
      assert Converted(args)[i] in Converted(args);
    }
    if c in Body(args) {
      var p :| p in Converted(args) && c in p;
      var i :| 0 <= i < |args| && Converted(args)[i] == p;
      assert args[i] in args;
    }
  }

  lemma {:induction false} JoinedChars(parts: seq<string>, c: char)
    requires c != ',' && c != ' '
    ensures c in JoinParts(parts) <==> exists p :: p in parts && c in p
  {
    if |parts| == 1 {
      assert parts[0] in parts;
    } else if |parts| > 1 {
      JoinedChars(parts[1..], c);
      assert parts == [parts[0]] + parts[1..];
    }
  }

  lemma UncommentedSame(text: string)
    requires '#' !in text
    ensures Uncomment(text) == Trim(text)
  {
    TrimFree(text, '#');
    FindNone(Trim(text), '#', 0);
  }

  // ---------- the round trip of a value ----------

  function Normals(args: seq<string>): seq<string> {
    seq(|args|, i requires 0 <= i < |args| => Normal(args[i]))
  }

  predicate NoComment(args: seq<string>) {
    forall a :: a in args ==> '#' !in a
  }

  lemma ReadIff(args: seq<string>, want: seq<string>)
    requires args != [] && NoComment(args) && Candidates(args, want)
    ensures ParseValue(JoinText(args)) == want <==>
            forall i :: 0 <= i < |args| ==> ReadableIn(args, args[i]) && want[i] == Normal(args[i])
  {
    PrintedChars(args, '#');
    UncommentedSame(JoinText(args));
    ListIff(args, want);
  }

  // What the reader makes of what the writer wrote: each argument, unquoted ones without their
  // leading space, exactly if each is readable.
  lemma {:induction false} ReadBackIff(args: seq<string>)
    requires args != [] && NoComment(args)
    ensures ParseValue(JoinText(args)) == Normals(args) <==> forall a :: a in args ==> ReadableIn(args, a)
  {
    ReadIff(args, Normals(args));
    assert forall i :: 0 <= i < |args| ==> args[i] in args;
  }

  // An argument whose value comes back: no comment sign, readable, and not a number with
  // leading space.
  predicate ValueKept(args: seq<string>, arg: string) {
    '#' !in arg && ReadableIn(args, arg) && !(FloatText(arg) && IsSpace(arg[0]))
  }

  lemma NormalIsSame(arg: string)
    ensures Normal(arg) == arg <==> !(FloatText(arg) && IsSpace(arg[0]))
  {
    if arg != "" && IsSpace(arg[0]) {
      LTrimSuffix(arg);
      assert LTrim(arg) != arg;
      if IsWord(arg) { WordSafe(arg); }
    }
  }

  // For any list of arguments at all, the printed value reads as the list exactly if each
  // argument's value is kept.
  lemma {:induction false} ValueRoundTripIff(args: seq<string>)
    requires args != []
    ensures ParseValue(JoinText(args)) == args <==> forall a :: a in args ==> ValueKept(args, a)
  {
    if NoComment(args) {
      ReadIff(args, args);
      forall i | 0 <= i < |args| ensures Normal(args[i]) == args[i] <==> !(FloatText(args[i]) && IsSpace(args[i][0])) {
        NormalIsSame(args[i]);
      }
      assert forall i :: 0 <= i < |args| ==> args[i] in args;
    } else {
      UncommentedIsFree(JoinText(args));
      ItemsFree(Uncomment(JoinText(args)), '#');
    }
  }
}
