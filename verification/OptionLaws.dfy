/**
 Which option an argument names, and what texts are worth to it.
 */
module OptionLaws {
  import opened Wrappers
  import opened Text
  import opened Numbers
  import opened ArgumentModel
  import opened ArgumentTheorems

  // ---------- classification ----------

  // A name may not start with any of these.
  predicate StartsName(c: char) {
    c != '-' && c != '!' && c != ' ' && c != '\n'
  }

  lemma Kinds(app: App, s: string)
    ensures Recognize(app, s) == PositionalMark <==> s == ['-', '-']
    ensures Recognize(app, s) == Long <==> |s| > 2 && s[0] == s[1] == '-' && StartsName(s[2])
    ensures Recognize(app, s) == Short <==>
            |s| > 1 && s[0] == '-' && StartsName(s[1]) && ('0' <= s[1] <= '9' ==> OptionOf(app, Short, [s[1]]).Some?)
    ensures Recognize(app, s) == Windows <==> app.windowsStyle && |s| > 1 && s[0] == '/' && StartsName(s[1])
  {
    assert s == "--" <==> s == ['-', '-'];
  }

  function FirstTrue(bs: seq<bool>, from: nat): (r: Option<nat>)
    requires from <= |bs|
    ensures match r
      case Some(i) => from <= i < |bs| && bs[i] && forall j :: from <= j < i ==> !bs[j]
      case None => forall j :: from <= j < |bs| ==> !bs[j]
    decreases |bs| - from
  {
    if from == |bs| then None else if bs[from] then Some(from) else FirstTrue(bs, from + 1)
  }

  // The option named is the first of that name.
  lemma {:induction false} FirstNamed(options: seq<Opt>, kind: Kind, name: string, called: seq<bool>, from: nat)
    requires from <= |options| == |called|
    requires forall j :: 0 <= j < |options| ==> called[j] == Called(options[j], kind, name)
    ensures FindOption(options, kind, name, from) == FirstTrue(called, from)
    decreases |options| - from
  {
    if from < |options| && !called[from] { FirstNamed(options, kind, name, called, from + 1); }
  }

  lemma {:induction false} MemberIs(name: string, names: seq<string>, ignoreCase: bool, ignoreUnderscore: bool, from: nat)
    requires from <= |names|
    ensures match FindMember(name, names, ignoreCase, ignoreUnderscore, from)
      case Some(k) =>
        && from <= k && Fold(names[k], ignoreCase, ignoreUnderscore) == Fold(name, ignoreCase, ignoreUnderscore)
        && forall j :: from <= j < k ==> Fold(names[j], ignoreCase, ignoreUnderscore) != Fold(name, ignoreCase, ignoreUnderscore)
      case None => forall j :: from <= j < |names| ==> Fold(names[j], ignoreCase, ignoreUnderscore) != Fold(name, ignoreCase, ignoreUnderscore)
    decreases |names| - from
  {
    if from < |names| && Fold(names[from], ignoreCase, ignoreUnderscore) != Fold(name, ignoreCase, ignoreUnderscore) {
      MemberIs(name, names, ignoreCase, ignoreUnderscore, from + 1);
    }
  }

  // Names are compared as they are, or without regard to case or underscores, for short ones to
  // case only.
  lemma CalledIs(o: Opt, name: string)
    ensures Called(o, Long, name) <==>
            exists l :: l in o.lnames && Fold(l, o.ignoreCase, o.ignoreUnderscore) == Fold(name, o.ignoreCase, o.ignoreUnderscore)
    ensures Called(o, Short, name) <==> exists l :: l in o.snames && Fold(l, o.ignoreCase, false) == Fold(name, o.ignoreCase, false)
    ensures Called(o, Windows, name) <==> Called(o, Long, name) || Called(o, Short, name)
  {
    MemberIs(name, o.lnames, o.ignoreCase, o.ignoreUnderscore, 0);
    MemberIs(name, o.snames, o.ignoreCase, false, 0);
    forall l | l in o.lnames ensures exists j :: 0 <= j < |o.lnames| && o.lnames[j] == l {}
    forall l | l in o.snames ensures exists j :: 0 <= j < |o.snames| && o.snames[j] == l {}
  }

  function Without(s: string, c: char): string {
    if s == "" then "" else if s[|s| - 1] == c then Without(s[..|s| - 1], c) else Without(s[..|s| - 1], c) + [s[|s| - 1]]
  }

  lemma {:induction false} UnderscoreDropped(a: string, c: char)
    ensures RemoveUnderscore(a + [c]) == RemoveUnderscore(a) + if c == '_' then "" else [c]
  {
    if a == "" {
      assert [] + [c] == [c] && [c][1..] == "";
    } else {
      assert (a + [c])[1..] == a[1..] + [c];
      UnderscoreDropped(a[1..], c);
    }
  }

  lemma {:induction false} UnderscoresRemoved(s: string)
    ensures RemoveUnderscore(s) == Without(s, '_')
    decreases |s|
  {
    if s != "" {
      var n := |s| - 1;
      UnderscoresRemoved(s[..n]);
      UnderscoreDropped(s[..n], s[n]);
      assert s[..n] + [s[n]] == s;
      assert Without(s[..n], '_') + "" == Without(s[..n], '_');
    }
  }

  lemma FoldIs(s: string, ignoreUnderscore: bool)
    ensures Fold(s, false, ignoreUnderscore) == if ignoreUnderscore then Without(s, '_') else s
    ensures var t := Fold(s, false, ignoreUnderscore); var u := Fold(s, true, ignoreUnderscore);
      |u| == |t| && forall k :: 0 <= k < |t| ==> u[k] == if 'A' <= t[k] <= 'Z' then t[k] - 'A' + 'a' else t[k]
  {
    UnderscoresRemoved(s);
  }

  // ---------- values ----------

  // Without delimiter and extra arguments, a text is one value.
  lemma PlainText(o: Opt, text: string)
    requires o.delimiter.None? && (o.extraArgs && text != "" ==> text[0] != '[')
    ensures Values(o, text) == [text]
  {
  }

  lemma {:induction false} NoneEmpty(parts: seq<string>)
    requires "" !in parts
    ensures NonEmpty(parts) == parts
  {
    if parts != [] {
      assert parts[0] in parts;
      NoneEmpty(parts[1..]);
      assert [parts[0]] + parts[1..] == parts;
    }
  }

  // With a delimiter, the parts between are the values.
  lemma DelimitedText(o: Opt, parts: seq<string>, d: char)
    requires o.delimiter == Some(d) && !o.extraArgs && parts != []
    requires "" !in parts && forall p :: p in parts ==> d !in p
    ensures Values(o, Joined(parts, d)) == parts
  {
    assert parts[|parts| - 1] in parts;
    JoinedSplits(parts, d);
    NoneEmpty(parts);
    if |parts| == 1 { assert parts[0] in parts; }
  }

  lemma {:induction false} EachOne(o: Opt, parts: seq<string>, size: nat)
    requires (forall p :: p in parts ==> |p| <= size) && "" !in parts
    requires o.delimiter.None? && forall p :: p in parts && p != "" ==> p[0] != '['
    ensures ValuesOfAll(o, parts, size) == parts
  {
    if parts != [] {
      assert parts[0] in parts;
      PlainText(o, parts[0]);
      EachOne(o, parts[1..], size);
      assert [parts[0]] + parts[1..] == parts;
    }
  }

  // With extra arguments, the parts of a list in brackets are the values.
  lemma BracketedText(o: Opt, parts: seq<string>)
    requires o.delimiter.None? && o.extraArgs && parts != []
    requires "" !in parts && forall p :: p in parts ==> ',' !in p && (p != "" ==> p[0] != '[')
    ensures Values(o, ['['] + Joined(parts, ',') + [']']) == parts
  {
    var inner := Joined(parts, ',');
    var text := ['['] + inner + [']'];
    assert parts[|parts| - 1] in parts;
    JoinedSplits(parts, ',');
    assert text[1..|text| - 1] == inner;
    SplitShrinks(inner, ',');
    EachOne(o, parts, |inner|);
  }

  // An empty result goes between two occurrences, for options that want one.
  lemma SeparatorIs(app: App, st: Parsed, i: nat)
    requires Fits(app, st) && i < |app.options|
    ensures var o := app.options[i]; var held := st.results[i];
      Separate(app, st, i) ==
      if o.injectSeparator && held != [] && held[|held| - 1] != ""
      then Parsed(st.results[i := held + [""]], st.order, st.missing) else st
  {
    var o := app.options[i];
    assert Values(o, "") == [""];
  }

  // ---------- flags ----------

  // Without a value a flag stands for true, or for what is set for the name used, and an option
  // that is no flag for its default.
  lemma FlagWithoutValue(o: Opt, name: string)
    requires WellSet(o)
    ensures (forall f :: f in o.fnames ==> Fold(f, o.ignoreCase, o.ignoreUnderscore) != Fold(name, o.ignoreCase, o.ignoreUnderscore)) ==>
              FlagValue(o, name, "") == Success(if o.flagLike then "true" else o.defaultText)
    ensures forall k :: 0 <= k < |o.fnames| && o.fnames[k] == name && (forall j :: 0 <= j < k ==>
              Fold(o.fnames[j], o.ignoreCase, o.ignoreUnderscore) != Fold(name, o.ignoreCase, o.ignoreUnderscore)) ==>
              FlagValue(o, name, "") == Success(o.flagDefaults[k])
  {
    MemberIs(name, o.fnames, o.ignoreCase, o.ignoreUnderscore, 0);
  }

  // With a value, a flag stands for the value, unless values are not allowed.
  lemma FlagWithValue(o: Opt, name: string, value: string)
    requires WellSet(o) && value != "" && value != "{}"
    requires forall f :: f in o.fnames ==> Fold(f, o.ignoreCase, o.ignoreUnderscore) != Fold(name, o.ignoreCase, o.ignoreUnderscore)
    ensures FlagValue(o, name, value) == if o.fixedFlag && value != "true" then Failure(FlagOverride) else Success(value)
  {
    MemberIs(name, o.fnames, o.ignoreCase, o.ignoreUnderscore, 0);
  }

  // If values are not allowed, the one set for the name used still is, and no other.
  lemma FixedFlag(o: Opt, name: string, standard: string, value: string)
    requires WellSet(o) && o.fixedFlag && o.fnames == [name] && o.flagDefaults == [standard]
    requires value != "" && value != "{}"
    ensures FlagValue(o, name, value) == Failure(FlagOverride) <==> value != standard
  {
    assert FindMember(name, o.fnames, o.ignoreCase, o.ignoreUnderscore, 0) == Some(0);
  }

  // A name that stands for false turns the value round: true and false, and numbers by sign.
  lemma NegatedFlag(o: Opt, name: string, n: nat)
    requires WellSet(o) && !o.fixedFlag && o.fnames == [name] && o.flagDefaults == ["false"] && 1 < n <= 0x7FFF_FFFF_FFFF_FFFF
    ensures FlagValue(o, name, "true") == Success("false") && FlagValue(o, name, "false") == Success("true")
    ensures FlagValue(o, name, Decimal(n)) == Success("-" + Decimal(n))
  {
    assert FindMember(name, o.fnames, o.ignoreCase, o.ignoreUnderscore, 0) == Some(0);
    DecimalDigits(n);
    NumberFlag(n);
    assert Decimal(n)[0] != '{' && Decimal(n)[0] != 't' && Decimal(n)[0] != 'f';
  }

  lemma DecimalStart(n: nat)
    requires n > 1
    ensures var s := Decimal(n); IsDigit(s[0]) && ToLower(s) == s
    ensures var s := Decimal(n); |s| == 1 ==> n < 10 && s == [Digit(n)]
  {
    DecimalDigits(n);
    assert ToLower(Decimal(n)) == Decimal(n);
    if n >= 10 { DecimalDigits(n / 10); }
  }

  lemma NumberFlag(n: nat)
    requires 1 < n <= 0x7FFF_FFFF_FFFF_FFFF
    ensures ToFlagValue(Decimal(n)) == FlagNumber(n)
  {
    DecimalStart(n);
    IntegerOfDecimal(n);
  }

  // The words and characters that stand for true and false.
  lemma FlagWords()
    ensures ToFlagValue("true") == ToFlagValue("on") == ToFlagValue("yes") == ToFlagValue("enable") == FlagNumber(1)
    ensures ToFlagValue("false") == ToFlagValue("off") == ToFlagValue("no") == ToFlagValue("disable") == FlagNumber(-1)
  {
    assert ToLower("on") == "on" && ToLower("yes") == "yes" && ToLower("enable") == "enable";
    assert ToLower("off") == "off" && ToLower("no") == "no" && ToLower("disable") == "disable";
  }

  lemma FlagChars(c: char)
    ensures var d := ToLowerChar(c);
      && ('1' <= d <= '9' ==> ToFlagValue([c]) == FlagNumber(d as int - 48))
      && (d in "ty+" ==> ToFlagValue([c]) == FlagNumber(1))
      && (d in "0fn-" ==> ToFlagValue([c]) == FlagNumber(-1))
      && (d !in "0123456789tyfn+-" ==> ToFlagValue([c]) == NotANumber)
  {
    assert ToLower([c]) == [ToLowerChar(c)];
  }

  // A number beyond 64 bits is an error.
  lemma HugeFlag(o: Opt, name: string, n: nat)
    requires WellSet(o) && !o.fixedFlag && o.fnames == [name] && o.flagDefaults == ["false"] && n > 0x7FFF_FFFF_FFFF_FFFF
    ensures FlagValue(o, name, Decimal(n)) == Failure(OutOfRange)
  {
    assert FindMember(name, o.fnames, o.ignoreCase, o.ignoreUnderscore, 0) == Some(0);
    DecimalStart(n);
    IntegerOfDecimal(n);
  }

  // "{}" is no value.
  lemma EmptyBraces(o: Opt, name: string)
    requires WellSet(o)
    ensures FlagValue(o, name, "{}") == FlagValue(o, name, "")
  {
  }

  // ---------- marks, unknown options, windows style ----------

  // "--" is noted as an extra, and ends the options.
  lemma MarkIsRead(app: App, st: Parsed, args: seq<string>)
    requires Fits(app, st)
    ensures var st' := Parsed(st.results, st.order, st.missing + [(PositionalMark, "--")]);
      && ParseSingle(app, st, args + ["--"], false) == Outcome(st', args, None)
      && Fits(app, st') && Run(app, st, args + ["--"], false) == Run(app, st', args, true)
  {
    assert Front(args + ["--"]) == args && Last(args + ["--"]) == "--";
  }

  // An option nobody has is noted as an extra.
  lemma UnknownIsExtra(app: App, st: Parsed, args: seq<string>, text: string)
    requires Fits(app, st)
    requires Recognize(app, text) == Long || Recognize(app, text) == Short
    requires OptionOf(app, Recognize(app, text), SplitArg(text, Recognize(app, text)).0).None?
    ensures ParseSingle(app, st, args + [text], false) ==
            Outcome(Parsed(st.results, st.order, st.missing + [(Recognize(app, text), text)]), args, None)
  {
    assert Front(args + [text]) == args && Last(args + [text]) == text;
  }

  lemma ParsedWindows(app: App, st: Parsed, args: seq<string>, top: string, name: string, value: string)
    requires Fits(app, st) && Recognize(app, top) == Windows && SplitAt(top[1..], ':') == (name, value)
    requires OptionOf(app, Windows, name).Some?
    ensures var i := OptionOf(app, Windows, name).value;
      ParseSingle(app, st, args + [top], false) == GiveOption(app, Separate(app, st, i), i, name, value, "", args)
    ensures !OnlyPositionals(app, args + [top], false)
  {
    assert Front(args + [top]) == args && Last(args + [top]) == top;
  }

  // /x:v is /x v.
  lemma WindowsValueApart(app: App, st: Parsed, args: seq<string>, name: string, value: string)
    requires Fits(app, st) && app.windowsStyle && name != "" && ValidFirst(name[0]) && ':' !in name && value != ""
    requires NeedsValue(app, Windows, name)
    ensures Run(app, st, args + [['/'] + (name + [':'] + value)], false) == Run(app, st, args + [value] + [['/'] + name], false)
  {
    var together, alone := ['/'] + (name + [':'] + value), ['/'] + name;
    var i := OptionOf(app, Windows, name).value;
    assert together[1..] == name + [':'] + value && alone[1..] == name;
    assert together[1] == name[0] && alone[1] == name[0];
    SplitNamed(name, ':', value);
    ParsedWindows(app, st, args, together, name, value);
    ParsedWindows(app, st, args + [value], alone, name, "");
    GivenTogether(app, Separate(app, st, i), i, name, value, args);
    RunsAlike(app, st, args, together, args + [value], alone);
  }
}
