/**
 What each argument on a command line does, for an application without subcommands.

 Arguments are kept as a stack, the next one last.  Classifying the next argument, splitting it
 into name and value and giving values to options are functions here of the application's
 options and of what has been parsed so far.
 */
module ArgumentModel {
  import opened Wrappers
  import opened Text
  import opened Numbers

  const VECTOR_SIZE := 0x2000_0000
  const LONG_MAX := 0x7FFF_FFFF_FFFF_FFFF

  datatype Opt = Opt(
    snames: seq<string>, lnames: seq<string>, pname: string,
    fnames: seq<string>, flagDefaults: seq<string>, defaultText: string,
    ignoreCase: bool, ignoreUnderscore: bool,
    required: bool, injectSeparator: bool, extraArgs: bool, flagLike: bool, fixedFlag: bool,
    typeMin: nat, typeMax: nat, expectedMin: nat, expectedMax: nat,
    delimiter: Option<char>, check: string -> bool)

  datatype App = App(options: seq<Opt>, positionalsAtEnd: bool, prefixCommand: bool, windowsStyle: bool,
                     validatePositionals: bool, validateOptionals: bool)

  datatype Kind = NoOption | PositionalMark | Short | Long | Windows

  datatype Error = TypedAtLeast | PartialType | Extras | FlagOverride | OutOfRange

  // The results of each option, the options in the order they got them, and what fits nowhere.
  datatype Parsed = Parsed(results: seq<seq<string>>, order: seq<nat>, missing: seq<(Kind, string)>)

  datatype Outcome = Outcome(st: Parsed, args: seq<string>, err: Option<Error>)

  // What the option's own setters see to.
  predicate WellSet(o: Opt) {
    && o.typeMin <= o.typeMax <= INT_MAX && o.expectedMin <= o.expectedMax <= INT_MAX
    && |o.flagDefaults| == |o.fnames|
  }

  ghost predicate Fits(app: App, st: Parsed) {
    && |st.results| == |app.options|
    && forall o :: o in app.options ==> WellSet(o)
  }

  // check stands for the option's validators; an empty text need not pass them if none is expected.
  predicate Accepts(o: Opt, text: string) {
    (text == "" && o.expectedMin == 0) || o.check(text)
  }

  function Last<T>(s: seq<T>): T
    requires s != []
  {
    s[|s| - 1]
  }

  function Front<T>(s: seq<T>): seq<T>
    requires s != []
  {
    s[..|s| - 1]
  }

  // ---------- names ----------

  function RemoveUnderscore(s: string): string {
    if s == "" then ""
    else (if s[0] == '_' then "" else [s[0]]) + RemoveUnderscore(s[1..])
  }

  function Fold(s: string, ignoreCase: bool, ignoreUnderscore: bool): string {
    var t := if ignoreUnderscore then RemoveUnderscore(s) else s;
    if ignoreCase then ToLower(t) else t
  }

  function FindMember(name: string, names: seq<string>, ignoreCase: bool, ignoreUnderscore: bool, from: nat): (r: Option<nat>)
    ensures r.Some? ==> r.value < |names|
    decreases |names| - from
  {
    if from >= |names| then None
    else if Fold(names[from], ignoreCase, ignoreUnderscore) == Fold(name, ignoreCase, ignoreUnderscore) then Some(from)
    else FindMember(name, names, ignoreCase, ignoreUnderscore, from + 1)
  }

  predicate HasShort(o: Opt, name: string) {
    FindMember(name, o.snames, o.ignoreCase, false, 0).Some?
  }

  predicate HasLong(o: Opt, name: string) {
    FindMember(name, o.lnames, o.ignoreCase, o.ignoreUnderscore, 0).Some?
  }

  predicate Called(o: Opt, kind: Kind, name: string) {
    match kind
    case Long => HasLong(o, name)
    case Short => HasShort(o, name)
    case _ => HasLong(o, name) || HasShort(o, name)
  }

  // The first option of that name.
  function FindOption(options: seq<Opt>, kind: Kind, name: string, from: nat): (r: Option<nat>)
    ensures r.Some? ==> r.value < |options| && Called(options[r.value], kind, name)
    decreases |options| - from
  {
    if from >= |options| then None
    else if Called(options[from], kind, name) then Some(from)
    else FindOption(options, kind, name, from + 1)
  }

  // ---------- splitting and classifying ----------

  predicate ValidFirst(c: char) {
    c != '-' && c != '!' && c != ' ' && c != '\n'
  }

  // A name, and a value after it: "" if there is none.
  function SplitAt(s: string, mark: char): (string, string) {
    match Find(s, mark, 0)
    case Some(k) => (s[..k], s[k + 1..])
    case None => (s, "")
  }

  predicate IsLong(s: string) {
    |s| > 2 && s[0] == '-' && s[1] == '-' && ValidFirst(s[2])
  }

  predicate IsShort(s: string) {
    |s| > 1 && s[0] == '-' && ValidFirst(s[1])
  }

  predicate IsWindows(s: string) {
    |s| > 1 && s[0] == '/' && ValidFirst(s[1])
  }

  function Recognize(app: App, s: string): Kind {
    if s == "--" then PositionalMark
    else if IsLong(s) then Long
    else if IsShort(s) then
      (if IsDigit(s[1]) && FindOption(app.options, Short, [s[1]], 0).None? then NoOption else Short)
    else if app.windowsStyle && IsWindows(s) then Windows
    else NoOption
  }

  // Name, value after a mark, and what else follows a short name.
  function SplitArg(s: string, kind: Kind): (string, string, string)
    requires kind == Long ==> IsLong(s)
    requires kind == Short ==> IsShort(s)
    requires kind == Windows ==> IsWindows(s)
  {
    match kind
    case Long => var (name, value) := SplitAt(s[2..], '='); (name, value, "")
    case Windows => var (name, value) := SplitAt(s[1..], ':'); (name, value, "")
    case Short => (s[1..2], "", s[2..])
    case _ => ("", "", "")
  }

  // ---------- giving values ----------

  lemma {:induction false} SplitShrinks(s: string, delim: char)
    ensures forall p :: p in Split(s, delim) ==> |p| <= |s|
    decreases |s|
  {
    match Find(s, delim, 0)
    case None =>
    case Some(k) => if k + 1 < |s| { SplitShrinks(s[k + 1..], delim); }
  }

  // The values one text adds: several, if it is a bracketed list or has delimiters.
  function Values(o: Opt, text: string): seq<string>
    decreases |text|, 0
  {
    if o.extraArgs && |text| > 1 && text[0] == '[' && text[|text| - 1] == ']' then
      var inner := text[1..|text| - 1];
      SplitShrinks(inner, ',');
      ValuesOfAll(o, Split(inner, ','), |inner|)
    else match o.delimiter
      case None => [text]
      case Some(d) => if d in text then NonEmpty(Split(text, d)) else [text]
  }

  function ValuesOfAll(o: Opt, parts: seq<string>, size: nat): seq<string>
    requires forall p :: p in parts ==> |p| <= size
    decreases size, 1, |parts|
  {
    if parts == [] then []
    else (if parts[0] == "" then [] else Values(o, parts[0])) + ValuesOfAll(o, parts[1..], size)
  }

  function NonEmpty(parts: seq<string>): seq<string> {
    if parts == [] then []
    else (if parts[0] == "" then [] else [parts[0]]) + NonEmpty(parts[1..])
  }

  function Append(st: Parsed, i: nat, values: seq<string>): (r: Parsed)
    requires i < |st.results|
    ensures |r.results| == |st.results|
  {
    st.(results := st.results[i := st.results[i] + values])
  }

  // Add a text to the option's results and note it in the order.
  function Give(app: App, st: Parsed, i: nat, text: string): (r: Parsed)
    requires Fits(app, st) && i < |app.options|
    ensures Fits(app, r)
  {
    Append(st, i, Values(app.options[i], text)).(order := st.order + [i])
  }

  // An empty result between occurrences, for options that want one.
  function Separate(app: App, st: Parsed, i: nat): (r: Parsed)
    requires Fits(app, st) && i < |app.options|
    ensures Fits(app, r)
  {
    if app.options[i].injectSeparator && st.results[i] != [] && Last(st.results[i]) != ""
    then Append(st, i, Values(app.options[i], ""))
    else st
  }

  function Miss(st: Parsed, kind: Kind, text: string): Parsed {
    st.(missing := st.missing + [(kind, text)])
  }

  datatype FlagNumber = FlagNumber(v: int) | NotANumber | TooBig

  function ToFlagValue(text: string): FlagNumber {
    if text == "true" then FlagNumber(1)
    else if text == "false" then FlagNumber(-1)
    else
      var val := ToLower(text);
      if |val| == 1 then FlagChar(val[0])
      else if val == "true" || val == "on" || val == "yes" || val == "enable" then FlagNumber(1)
      else if val == "false" || val == "off" || val == "no" || val == "disable" then FlagNumber(-1)
      else match Integer(val)
        case None => NotANumber
        case Some(v) => if -LONG_MAX - 1 <= v <= LONG_MAX then FlagNumber(v) else TooBig
  }

  function FlagChar(c: char): FlagNumber {
    if '1' <= c <= '9' then FlagNumber((c - '0') as int)
    else if c == '0' || c == 'f' || c == 'n' || c == '-' then FlagNumber(-1)
    else if c == 't' || c == 'y' || c == '+' then FlagNumber(1)
    else NotANumber
  }

  predicate NoValue(value: string) {
    value == "" || value == "{}"
  }

  // The text a flag stands for.
  function FlagValue(o: Opt, name: string, value: string): (r: Result<string, Error>)
    requires WellSet(o)
    ensures NoValue(value) ==> r.Success?
  {
    var found := FindMember(name, o.fnames, o.ignoreCase, o.ignoreUnderscore, 0);
    var standard := match found case Some(k) => o.flagDefaults[k] case None => "true";
    if NoValue(value) then
      Success(if found.None? && !o.flagLike then o.defaultText else standard)
    else if o.fixedFlag && value != standard then Failure(FlagOverride)
    else if found.Some? && standard == "false" then
      match ToFlagValue(value)
      case FlagNumber(v) => Success(if v == 1 then "false" else if v == -1 then "true" else DecimalInt(-v))
      case NotANumber => Success(value)
      case TooBig => Failure(OutOfRange)
    else Success(value)
  }

  // ---------- how many values ----------

  function Capped(a: nat, b: nat): nat {
    if a * b <= INT_MAX then a * b else VECTOR_SIZE
  }

  function ItemsMin(o: Opt): nat {
    o.typeMin * o.expectedMin
  }

  function MinNum(o: Opt): nat {
    if o.typeMin <= ItemsMin(o) then o.typeMin else ItemsMin(o)
  }

  function MaxNum(o: Opt): nat {
    var most := Capped(o.typeMax, o.expectedMax);
    if most >= VECTOR_SIZE / 16 && !o.extraArgs then Capped(o.typeMax, o.expectedMin) else most
  }

  // Values the positional options still want.
  function Remaining(app: App, st: Parsed, requiredOnly: bool, n: nat): nat
    requires Fits(app, st) && n <= |app.options|
  {
    if n == 0 then 0 else
    Remaining(app, st, requiredOnly, n - 1) +
    var o := app.options[n - 1];
    if o.pname != "" && (!requiredOnly || o.required) && |st.results[n - 1]| < ItemsMin(o)
    then ItemsMin(o) - |st.results[n - 1]| else 0
  }

  datatype Taken = Taken(st: Parsed, args: seq<string>, collected: nat)

  // Arguments the option must have, whatever they look like.
  function TakeMin(app: App, i: nat, t: Taken): (r: Taken)
    requires Fits(app, t.st) && i < |app.options|
    ensures Fits(app, r.st) && |r.args| <= |t.args| && r.args == t.args[..|r.args|]
    ensures MinNum(app.options[i]) > r.collected ==> r.args == []
    decreases |t.args|
  {
    if MinNum(app.options[i]) > t.collected && t.args != [] then TakeMin(app, i, Take(app, i, t)) else t
  }

  function Take(app: App, i: nat, t: Taken): (r: Taken)
    requires Fits(app, t.st) && i < |app.options| && t.args != []
    ensures Fits(app, r.st)
  {
    var text := Last(t.args);
    Taken(Give(app, t.st, i, text), Front(t.args), t.collected + |Values(app.options[i], text)|)
  }

  // Arguments it may have: as long as they are not options, nor needed by positional ones, nor
  // refused by its validators.
  function TakeMore(app: App, i: nat, t: Taken, needed: nat): (r: Taken)
    requires Fits(app, t.st) && i < |app.options|
    ensures Fits(app, r.st) && |r.args| <= |t.args| && r.args == t.args[..|r.args|]
    decreases |t.args|
  {
    if MayTake(app, i, t, needed) then TakeMore(app, i, Take(app, i, t), needed) else t
  }

  predicate MayTake(app: App, i: nat, t: Taken, needed: nat)
    requires i < |app.options|
  {
    && (t.collected < MaxNum(app.options[i]) || app.options[i].extraArgs) && t.args != []
    && Recognize(app, Last(t.args)) == NoOption && needed < |t.args|
    && (app.validateOptionals ==> Accepts(app.options[i], Last(t.args)))
  }

  // "--" ends an optional list and belongs to it.
  function DropMark(args: seq<string>): (r: seq<string>)
    ensures |r| <= |args| && r == args[..|r|]
  {
    if args != [] && Last(args) == "--" then Front(args) else args
  }

  function TakeOptional(app: App, i: nat, name: string, t: Taken): (r: Taken)
    requires Fits(app, t.st) && i < |app.options|
    ensures Fits(app, r.st) && |r.args| <= |t.args| && r.args == t.args[..|r.args|]
  {
    var o := app.options[i];
    if MaxNum(o) > t.collected || o.extraArgs then
      var more := TakeMore(app, i, t, Remaining(app, t.st, true, |app.options|));
      var st := if MinNum(o) == 0 && MaxNum(o) > 0 && more.collected == 0
        then Give(app, more.st, i, FlagValue(o, name, "").value) else more.st;
      Taken(st, DropMark(more.args), more.collected)
    else t
  }

  // Everything an option takes after what came with its name; then the rest of a cluster of
  // short names goes back onto the stack.
  function TakeAll(app: App, i: nat, name: string, rest: string, t: Taken): (r: Outcome)
    requires Fits(app, t.st) && i < |app.options|
    ensures Fits(app, r.st)
  {
    var o := app.options[i];
    var least := TakeMin(app, i, t);
    if MinNum(o) > least.collected then Outcome(least.st, least.args, Some(TypedAtLeast)) else
    var most := TakeOptional(app, i, name, least);
    var whole := MinNum(o) == 0 || o.typeMax == 0 || most.collected % o.typeMax == 0;
    if !whole && o.typeMax == o.typeMin then Outcome(most.st, most.args, Some(PartialType)) else
    Outcome(if whole then most.st else Append(most.st, i, Values(o, "")),
            if rest == "" then most.args else most.args + ["-" + rest], None)
  }

  function GiveFlag(app: App, st: Parsed, i: nat, name: string, value: string, rest: string, args: seq<string>): (r: Outcome)
    requires Fits(app, st) && i < |app.options|
    ensures Fits(app, r.st)
  {
    match FlagValue(app.options[i], name, value)
    case Failure(e) => Outcome(st, args, Some(e))
    case Success(text) => TakeAll(app, i, name, rest, Taken(Give(app, st, i, text), args, 0))
  }

  function StartWith(app: App, st: Parsed, i: nat, text: string, args: seq<string>): (r: Taken)
    requires Fits(app, st) && i < |app.options|
    ensures Fits(app, r.st) && r.args == args
  {
    if text != "" then Taken(Give(app, st, i, text), args, |Values(app.options[i], text)|) else Taken(st, args, 0)
  }

  // An option named with a value, or with the rest of a cluster of short names, or neither.
  function GiveOption(app: App, st: Parsed, i: nat, name: string, value: string, rest: string, args: seq<string>): (r: Outcome)
    requires Fits(app, st) && i < |app.options|
    ensures Fits(app, r.st)
  {
    if MaxNum(app.options[i]) == 0 then GiveFlag(app, st, i, name, value, rest, args)
    else TakeAll(app, i, name, "", StartWith(app, st, i, if value != "" then value else rest, args))
  }

  function ParseArg(app: App, st: Parsed, args: seq<string>): (r: Outcome)
    requires Fits(app, st) && args != []
    ensures Fits(app, r.st)
  {
    var kind := Recognize(app, Last(args));
    var (name, value, rest) := SplitArg(Last(args), kind);
    match FindOption(app.options, kind, name, 0)
    case None => Outcome(Miss(st, kind, Last(args)), Front(args), None)
    case Some(i) => GiveOption(app, Separate(app, st, i), i, name, value, rest, Front(args))
  }

  // ---------- positional arguments ----------

  // The first positional option, of the required ones or of all, that takes the text.
  function FirstOpen(app: App, st: Parsed, requiredOnly: bool, text: string, from: nat): (r: Option<nat>)
    requires Fits(app, st)
    ensures r.Some? ==> r.value < |app.options| && app.options[r.value].pname != ""
    decreases |app.options| - from
  {
    if from >= |app.options| then None
    else if TakesAnother(app, st, requiredOnly, text, from) then Some(from)
    else FirstOpen(app, st, requiredOnly, text, from + 1)
  }

  predicate TakesAnother(app: App, st: Parsed, requiredOnly: bool, text: string, i: nat)
    requires Fits(app, st) && i < |app.options|
  {
    var o := app.options[i];
    && o.pname != "" && (requiredOnly ==> o.required)
    && (|st.results[i]| < ItemsMin(o) || (!requiredOnly && o.extraArgs))
    && (app.validatePositionals ==> Accepts(o, text))
  }

  // Required ones first if only enough arguments for them are left and they come at the end.
  function Receiver(app: App, st: Parsed, text: string, left: nat): (r: Option<nat>)
    requires Fits(app, st)
    ensures r.Some? ==> r.value < |app.options| && app.options[r.value].pname != ""
  {
    var first := if app.positionalsAtEnd && left <= Remaining(app, st, true, |app.options|)
      then FirstOpen(app, st, true, text, 0) else None;
    if first.Some? then first else FirstOpen(app, st, false, text, 0)
  }

  function ParsePositional(app: App, st: Parsed, args: seq<string>): (r: Outcome)
    requires Fits(app, st) && args != []
    ensures Fits(app, r.st)
  {
    match Receiver(app, st, Last(args), |args|)
    case Some(i) => Outcome(Give(app, Separate(app, st, i), i, Last(args)), Front(args), None)
    case None =>
      if app.positionalsAtEnd then Outcome(st, args, Some(Extras))
      else if app.prefixCommand then Outcome(MissAll(st, args), [], None)
      else Outcome(Miss(st, NoOption, Last(args)), Front(args), None)
  }

  function MissAll(st: Parsed, args: seq<string>): (r: Parsed)
    ensures r.results == st.results
    decreases |args|
  {
    if args == [] then st else MissAll(Miss(st, NoOption, Last(args)), Front(args))
  }

  // ---------- the loop ----------

  function ParseSingle(app: App, st: Parsed, args: seq<string>, positionalOnly: bool): (r: Outcome)
    requires Fits(app, st) && args != []
    ensures Fits(app, r.st)
  {
    if positionalOnly then ParsePositional(app, st, args)
    else match Recognize(app, Last(args))
      case PositionalMark => Outcome(Miss(st, PositionalMark, "--"), Front(args), None)
      case NoOption => ParsePositional(app, st, args)
      case _ => ParseArg(app, st, args)
  }

  // From now on there are no options.
  predicate OnlyPositionals(app: App, args: seq<string>, positionalOnly: bool)
    requires args != []
  {
    || positionalOnly
    || Recognize(app, Last(args)) == PositionalMark
    || (Recognize(app, Last(args)) == NoOption && app.positionalsAtEnd)
  }

  // All text still to be read.
  function Size(args: seq<string>): nat {
    if args == [] then 0 else Size(Front(args)) + |Last(args)| + 1
  }

  lemma {:induction false} SizeOfPrefix(args: seq<string>, n: nat)
    requires n <= |args|
    ensures Size(args[..n]) <= Size(args)
  {
    if n < |args| {
      SizeOfPrefix(Front(args), n);
      assert Front(args)[..n] == args[..n];
    } else {
      assert args[..n] == args;
    }
  }
}
