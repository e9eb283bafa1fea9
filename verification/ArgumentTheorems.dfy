/**
 The argument loop as a whole: it ends, and reads the different ways of writing flags and values
 alike; after "--" each argument goes to exactly one place.
 */
module ArgumentTheorems {
  import opened Wrappers
  import opened Text
  import opened ArgumentModel

  // ---------- the loop ends ----------

  lemma SizePush(args: seq<string>, arg: string)
    ensures Size(args + [arg]) == Size(args) + |arg| + 1
  {
    assert Front(args + [arg]) == args;
  }

  lemma LeftByTaking(app: App, i: nat, name: string, t: Taken)
    requires Fits(app, t.st) && i < |app.options|
    ensures Size(TakeMin(app, i, t).args) <= Size(t.args)
    ensures Size(TakeOptional(app, i, name, t).args) <= Size(t.args)
  {
    SizeOfPrefix(t.args, |TakeMin(app, i, t).args|);
    SizeOfPrefix(t.args, |TakeOptional(app, i, name, t).args|);
  }

  lemma LeftByAll(app: App, i: nat, name: string, rest: string, t: Taken)
    requires Fits(app, t.st) && i < |app.options|
    ensures Size(TakeAll(app, i, name, rest, t).args) <= Size(t.args) + if rest == "" then 0 else |rest| + 2
  {
    var least := TakeMin(app, i, t);
    LeftByTaking(app, i, name, t);
    LeftByTaking(app, i, name, least);
    SizePush(TakeOptional(app, i, name, least).args, "-" + rest);
  }

  lemma ArgShrinks(app: App, st: Parsed, args: seq<string>)
    requires Fits(app, st) && args != []
    ensures Size(ParseArg(app, st, args).args) < Size(args)
  {
    var kind := Recognize(app, Last(args));
    var (name, value, rest) := SplitArg(Last(args), kind);
    match FindOption(app.options, kind, name, 0)
    case None =>
    case Some(i) =>
      GivenShrinks(app, Separate(app, st, i), i, name, value, rest, Front(args));
      assert rest != "" ==> |Last(args)| == |rest| + 2;
  }

  lemma GivenShrinks(app: App, st: Parsed, i: nat, name: string, value: string, rest: string, args: seq<string>)
    requires Fits(app, st) && i < |app.options|
    ensures Size(GiveOption(app, st, i, name, value, rest, args).args) <= Size(args) + if rest == "" then 0 else |rest| + 2
  {
    if MaxNum(app.options[i]) == 0 {
      match FlagValue(app.options[i], name, value)
      case Failure(_) =>
      case Success(text) => LeftByAll(app, i, name, rest, Taken(Give(app, st, i, text), args, 0));
    } else {
      LeftByAll(app, i, name, "", StartWith(app, st, i, if value != "" then value else rest, args));
    }
  }

  // Every step leaves less text to read, also one that puts the rest of a cluster back.
  lemma StepShrinks(app: App, st: Parsed, args: seq<string>, positionalOnly: bool)
    requires Fits(app, st) && args != []
    ensures var r := ParseSingle(app, st, args, positionalOnly); r.err.None? ==> Size(r.args) < Size(args)
  {
    if !positionalOnly { ArgShrinks(app, st, args); }
  }

  // The whole loop.
  function Run(app: App, st: Parsed, args: seq<string>, positionalOnly: bool): (r: Outcome)
    requires Fits(app, st)
    ensures Fits(app, r.st) && (r.err.None? ==> r.args == [])
    decreases Size(args)
  {
    if args == [] then Outcome(st, [], None) else
    var r := ParseSingle(app, st, args, positionalOnly);
    StepShrinks(app, st, args, positionalOnly);
    if r.err.Some? then r else Run(app, r.st, r.args, OnlyPositionals(app, args, positionalOnly))
  }

  function RunOn(app: App, r: Outcome, positionalOnly: bool): Outcome
    requires Fits(app, r.st)
  {
    if r.err.Some? then r else Run(app, r.st, r.args, positionalOnly)
  }

  lemma RunStep(app: App, st: Parsed, args: seq<string>, top: string, r: Outcome)
    requires Fits(app, st) && r == ParseSingle(app, st, args + [top], false) && !OnlyPositionals(app, args + [top], false)
    ensures Run(app, st, args + [top], false) == RunOn(app, r, false)
  {
  }

  // ---------- clusters of flags ----------

  // -f is known, and takes no argument at all.
  predicate IsFlag(app: App, f: char) {
    && ValidFirst(f)
    && var i := FindOption(app.options, Short, [f], 0);
       i.Some? && MaxNum(app.options[i.value]) == 0 && !app.options[i.value].extraArgs
  }

  lemma NoMoreThanMax(o: Opt)
    requires WellSet(o) && MaxNum(o) == 0
    ensures MinNum(o) == 0
  {
    if o.typeMin > 0 && o.expectedMin > 0 {
      ProductPositive(o.typeMin, o.expectedMin);
      ProductPositive(o.typeMax, o.expectedMin);
      ProductPositive(o.typeMax, o.expectedMax);
    }
  }

  lemma ProductPositive(a: nat, b: nat)
    requires a > 0 && b > 0
    ensures a * b > 0
  {
  }

  function Flagged(app: App, st: Parsed, f: char): (r: Parsed)
    requires Fits(app, st) && IsFlag(app, f)
    ensures Fits(app, r)
  {
    var i := FindOption(app.options, Short, [f], 0).value;
    Give(app, Separate(app, st, i), i, FlagValue(app.options[i], [f], "").value)
  }

  // A flag takes nothing, so the rest of its cluster is the next argument.
  lemma FlagStep(app: App, st: Parsed, args: seq<string>, f: char, rest: string)
    requires Fits(app, st) && IsFlag(app, f)
    ensures ParseSingle(app, st, args + [['-', f] + rest], false) ==
            Outcome(Flagged(app, st, f), if rest == "" then args else args + ["-" + rest], None)
    ensures !OnlyPositionals(app, args + [['-', f] + rest], false)
  {
    var top := ['-', f] + rest;
    var i := FindOption(app.options, Short, [f], 0).value;
    RecognizedShort(app, f, rest);
    assert Front(args + [top]) == args;
    var o := app.options[i];
    NoMoreThanMax(o);
    var t := Taken(Flagged(app, st, f), args, 0);
    assert TakeMin(app, i, t) == t;
    assert TakeOptional(app, i, [f], t) == t;
  }

  lemma FlagRun(app: App, st: Parsed, args: seq<string>, f: char, rest: string)
    requires Fits(app, st) && IsFlag(app, f)
    ensures Run(app, st, args + [['-', f] + rest], false) ==
            Run(app, Flagged(app, st, f), if rest == "" then args else args + ["-" + rest], false)
  {
    FlagStep(app, st, args, f, rest);
    var left := if rest == "" then args else args + ["-" + rest];
    RunStep(app, st, args, ['-', f] + rest, Outcome(Flagged(app, st, f), left, None));
  }

  function Needed(app: App, st: Parsed): nat
    requires Fits(app, st)
  {
    Remaining(app, st, true, |app.options|)
  }

  // No argument below is taken, and no "--" dropped.
  predicate TakesNothing(app: App, i: nat, t: Taken)
    requires Fits(app, t.st) && i < |app.options|
  {
    !MayTake(app, i, t, Needed(app, t.st)) && (t.args == [] || Last(t.args) != "--")
  }

  // A flag that accepts extra arguments: written together it takes them from below its cluster,
  // written apart it meets the rest of the cluster first.
  predicate FlagTakesAlike(app: App, i: nat, st: Parsed, args: seq<string>, next: string)
    requires Fits(app, st) && i < |app.options|
  {
    || !app.options[i].extraArgs
    || (next == "--" && args != [] && Last(args) == "--" && !MayTake(app, i, Taken(st, args, 0), Needed(app, st)))
    || (next != "--" && TakesNothing(app, i, Taken(st, args, 0)) && TakesNothing(app, i, Taken(st, args + [next], 0)))
  }

  // Each argument taken is noted once.
  lemma {:induction false} TakeMoreCounts(app: App, i: nat, t: Taken, needed: nat)
    requires Fits(app, t.st) && i < |app.options|
    ensures var r := TakeMore(app, i, t, needed); |r.st.order| + |r.args| == |t.st.order| + |t.args|
    decreases |t.args|
  {
    if MayTake(app, i, t, needed) { TakeMoreCounts(app, i, Take(app, i, t), needed); }
  }

  // Without a maximum, what is left does not depend on what was collected.
  lemma {:induction false} TakeMoreLeaves(app: App, i: nat, t: Taken, t': Taken, needed: nat)
    requires Fits(app, t.st) && Fits(app, t'.st) && i < |app.options| && app.options[i].extraArgs && t.args == t'.args
    ensures TakeMore(app, i, t, needed).args == TakeMore(app, i, t', needed).args
    decreases |t.args|
  {
    if MayTake(app, i, t, needed) { TakeMoreLeaves(app, i, Take(app, i, t), Take(app, i, t'), needed); }
  }

  // What a flag's outcome is, given what it leaves.
  function FlagLeft(app: App, i: nat, st: Parsed, args: seq<string>): Taken
    requires Fits(app, st) && i < |app.options|
  {
    if app.options[i].extraArgs then
      var more := TakeMore(app, i, Taken(st, args, 0), Needed(app, st));
      more.(args := DropMark(more.args))
    else Taken(st, args, 0)
  }

  lemma FlagLeftIff(app: App, i: nat, st: Parsed, args: seq<string>, next: string)
    requires Fits(app, st) && i < |app.options|
    ensures var a, b := FlagLeft(app, i, st, args), FlagLeft(app, i, st, args + [next]);
      (a.st == b.st && a.args + [next] == b.args) <==> FlagTakesAlike(app, i, st, args, next)
  {
    if app.options[i].extraArgs {
      var needed := Needed(app, st);
      var t, t' := Taken(st, args, 0), Taken(st, args + [next], 0);
      TakeMoreCounts(app, i, t, needed);
      assert Last(t'.args) == next && Front(t'.args) == args;
      if MayTake(app, i, t', needed) {
        TakeMoreLeaves(app, i, t, Take(app, i, t'), needed);
      } else if next == "--" {
        MarkKept(args, TakeMore(app, i, t, needed).args);
      }
    }
  }

  lemma MarkKept(args: seq<string>, left: seq<string>)
    requires |left| <= |args| && left == args[..|left|]
    ensures DropMark(left) + ["--"] == args ==> args != [] && Last(args) == "--"
    ensures args != [] && Last(args) == "--" && left == args ==> DropMark(left) + ["--"] == args
  {
    if DropMark(left) + ["--"] == args { assert Last(DropMark(left) + ["--"]) == "--"; }
  }

  lemma FlagTakes(app: App, i: nat, name: string, rest: string, st: Parsed, args: seq<string>)
    requires Fits(app, st) && i < |app.options| && MaxNum(app.options[i]) == 0
    ensures var left := FlagLeft(app, i, st, args);
      TakeAll(app, i, name, rest, Taken(st, args, 0)) ==
      Outcome(left.st, if rest == "" then left.args else left.args + ["-" + rest], None)
  {
    NoMoreThanMax(app.options[i]);
  }

  // Written together and written apart, a flag that accepts extra arguments and the rest of its
  // cluster are one and the same step exactly if it takes alike; the runs are then the same.
  lemma ExtraFlagApartIff(app: App, st: Parsed, args: seq<string>, f: char, rest: string)
    requires Fits(app, st) && ValidFirst(f) && OptionOf(app, Short, [f]).Some? && rest != ""
    requires MaxNum(app.options[OptionOf(app, Short, [f]).value]) == 0
    ensures var i := OptionOf(app, Short, [f]).value;
      var st' := Give(app, Separate(app, st, i), i, FlagValue(app.options[i], [f], "").value);
      && (ParseSingle(app, st, args + [['-', f] + rest], false) == ParseSingle(app, st, args + ["-" + rest] + [['-', f]], false)
          <==> FlagTakesAlike(app, i, st', args, "-" + rest))
      && (FlagTakesAlike(app, i, st', args, "-" + rest) ==>
            Run(app, st, args + [['-', f] + rest], false) == Run(app, st, args + ["-" + rest] + [['-', f]], false))
  {
    var i := OptionOf(app, Short, [f]).value;
    var st' := Give(app, Separate(app, st, i), i, FlagValue(app.options[i], [f], "").value);
    assert ['-', f] + "" == ['-', f];
    ParsedShort(app, st, args, f, rest);
    ParsedShort(app, st, args + ["-" + rest], f, "");
    FlagTakes(app, i, [f], rest, st', args);
    FlagTakes(app, i, [f], "", st', args + ["-" + rest]);
    FlagLeftIff(app, i, st', args, "-" + rest);
    RunsAlike(app, st, args, ['-', f] + rest, args + ["-" + rest], ['-', f]);
  }

  lemma RunsAlike(app: App, st: Parsed, args: seq<string>, top: string, args': seq<string>, top': string)
    requires Fits(app, st)
    requires !OnlyPositionals(app, args + [top], false) && !OnlyPositionals(app, args' + [top'], false)
    ensures ParseSingle(app, st, args + [top], false) == ParseSingle(app, st, args' + [top'], false) ==>
              Run(app, st, args + [top], false) == Run(app, st, args' + [top'], false)
  {
    RunStep(app, st, args, top, ParseSingle(app, st, args + [top], false));
    RunStep(app, st, args', top', ParseSingle(app, st, args' + [top'], false));
  }

  // The arguments -f for each of the flags, then -tail, on the stack.
  function Apart(flags: string, tail: string): seq<string> {
    if flags == "" then ["-" + tail] else Apart(flags[1..], tail) + [['-', flags[0]]]
  }

  // -abc is -a -b -c, whatever c is, if a and b are flags.
  lemma {:induction false} ClusterIsApart(app: App, st: Parsed, args: seq<string>, flags: string, tail: string)
    requires Fits(app, st) && tail != "" && forall f :: f in flags ==> IsFlag(app, f)
    ensures Run(app, st, args + ["-" + (flags + tail)], false) == Run(app, st, args + Apart(flags, tail), false)
    decreases |flags|
  {
    if flags == "" {
      assert flags + tail == tail;
    } else {
      var f, more := flags[0], flags[1..];
      ApartStep(args, flags, tail);
      FlagRun(app, st, args, f, more + tail);
      FlagRun(app, st, args + Apart(more, tail), f, "");
      ClusterIsApart(app, Flagged(app, st, f), args, more, tail);
    }
  }

  lemma ApartStep(args: seq<string>, flags: string, tail: string)
    requires flags != ""
    ensures "-" + (flags + tail) == ['-', flags[0]] + (flags[1..] + tail)
    ensures args + Apart(flags, tail) == (args + Apart(flags[1..], tail)) + [['-', flags[0]] + ""]
  {
    assert ['-', flags[0]] + "" == ['-', flags[0]];
  }

  // ---------- values ----------

  // A value with its name is a value after it, for any option that must have one.
  lemma GivenTogether(app: App, st: Parsed, i: nat, name: string, value: string, args: seq<string>)
    requires Fits(app, st) && i < |app.options| && MinNum(app.options[i]) > 0 && value != ""
    ensures GiveOption(app, st, i, name, value, "", args) == GiveOption(app, st, i, name, "", "", args + [value])
    ensures GiveOption(app, st, i, name, "", value, args) == GiveOption(app, st, i, name, "", "", args + [value])
  {
    var o := app.options[i];
    if MaxNum(o) == 0 { NoMoreThanMax(o); }
    var t := Taken(st, args + [value], 0);
    assert Front(args + [value]) == args;
    TakeFirst(app, i, t);
    TakeAllOf(app, i, name, t, Take(app, i, t));
  }

  lemma TakeFirst(app: App, i: nat, t: Taken)
    requires Fits(app, t.st) && i < |app.options| && t.args != [] && MinNum(app.options[i]) > t.collected
    ensures TakeMin(app, i, t) == TakeMin(app, i, Take(app, i, t))
  {
  }

  lemma TakeAllOf(app: App, i: nat, name: string, t: Taken, t': Taken)
    requires Fits(app, t.st) && Fits(app, t'.st) && i < |app.options| && TakeMin(app, i, t) == TakeMin(app, i, t')
    ensures TakeAll(app, i, name, "", t) == TakeAll(app, i, name, "", t')
  {
  }

  function OptionOf(app: App, kind: Kind, name: string): (r: Option<nat>)
    ensures r.Some? ==> r.value < |app.options|
  {
    FindOption(app.options, kind, name, 0)
  }

  predicate NeedsValue(app: App, kind: Kind, name: string) {
    OptionOf(app, kind, name).Some? && MinNum(app.options[OptionOf(app, kind, name).value]) > 0
  }

  lemma RecognizedLong(app: App, top: string)
    requires IsLong(top)
    ensures Recognize(app, top) == Long
  {
    assert top != "--";
  }

  lemma RecognizedShort(app: App, x: char, rest: string)
    requires ValidFirst(x) && OptionOf(app, Short, [x]).Some?
    ensures Recognize(app, ['-', x] + rest) == Short && SplitArg(['-', x] + rest, Short) == ([x], "", rest)
  {
    var top := ['-', x] + rest;
    assert top[1] == x && top[1..2] == [x] && top[2..] == rest;
  }

  lemma ParsedLong(app: App, st: Parsed, args: seq<string>, top: string, name: string, value: string)
    requires Fits(app, st) && IsLong(top) && SplitAt(top[2..], '=') == (name, value) && OptionOf(app, Long, name).Some?
    ensures var i := OptionOf(app, Long, name).value;
      ParseSingle(app, st, args + [top], false) == GiveOption(app, Separate(app, st, i), i, name, value, "", args)
    ensures !OnlyPositionals(app, args + [top], false)
  {
    RecognizedLong(app, top);
    assert Front(args + [top]) == args;
    assert Last(args + [top]) == top;
  }

  lemma SplitNamed(name: string, mark: char, value: string)
    requires mark !in name
    ensures SplitAt(name + [mark] + value, mark) == (name, value) && SplitAt(name, mark) == (name, "")
  {
    var s := name + [mark] + value;
    FindFirst(s, mark, 0, |name|);
    assert s[..|name|] == name && s[|name| + 1..] == value;
    FindNone(name, mark, 0);
  }

  // --x=v is --x v.
  lemma LongValueApart(app: App, st: Parsed, args: seq<string>, name: string, value: string)
    requires Fits(app, st) && name != "" && ValidFirst(name[0]) && '=' !in name && value != ""
    requires NeedsValue(app, Long, name)
    ensures Run(app, st, args + ["--" + (name + ['='] + value)], false) == Run(app, st, args + [value, "--" + name], false)
  {
    var together, alone := "--" + (name + ['='] + value), "--" + name;
    var i := OptionOf(app, Long, name).value;
    assert together[2..] == name + ['='] + value && alone[2..] == name;
    SplitNamed(name, '=', value);
    ParsedLong(app, st, args, together, name, value);
    ParsedLong(app, st, args + [value], alone, name, "");
    GivenTogether(app, Separate(app, st, i), i, name, value, args);
    var r := ParseSingle(app, st, args + [together], false);
    RunStep(app, st, args, together, r);
    RunStep(app, st, args + [value], alone, r);
    assert args + [value, alone] == args + [value] + [alone];
  }

  lemma ParsedShort(app: App, st: Parsed, args: seq<string>, x: char, rest: string)
    requires Fits(app, st) && ValidFirst(x) && OptionOf(app, Short, [x]).Some?
    ensures var i := OptionOf(app, Short, [x]).value;
      ParseSingle(app, st, args + [['-', x] + rest], false) == GiveOption(app, Separate(app, st, i), i, [x], "", rest, args)
    ensures !OnlyPositionals(app, args + [['-', x] + rest], false)
  {
    var top := ['-', x] + rest;
    RecognizedShort(app, x, rest);
    assert Front(args + [top]) == args;
  }

  // -xv is -x v.
  lemma ShortValueApart(app: App, st: Parsed, args: seq<string>, x: char, value: string)
    requires Fits(app, st) && ValidFirst(x) && value != "" && NeedsValue(app, Short, [x])
    ensures Run(app, st, args + [['-', x] + value], false) == Run(app, st, args + [value, ['-', x]], false)
  {
    var i := OptionOf(app, Short, [x]).value;
    var together, alone := ['-', x] + value, ['-', x];
    assert alone + "" == alone;
    ParsedShort(app, st, args, x, value);
    ParsedShort(app, st, args + [value], x, "");
    GivenTogether(app, Separate(app, st, i), i, [x], value, args);
    var r := ParseSingle(app, st, args + [together], false);
    RunStep(app, st, args, together, r);
    RunStep(app, st, args + [value], alone, r);
    assert args + [value, alone] == args + [value] + [alone];
  }

  // ---------- options whose value may be left out ----------

  function Default(o: Opt, name: string): string
    requires WellSet(o)
  {
    FlagValue(o, name, "").value
  }

  // When the value after the name is taken as the value with the name would be.
  predicate TakenApart(app: App, st: Parsed, i: nat, name: string, value: string, args: seq<string>)
    requires Fits(app, st) && i < |app.options|
  {
    var o := app.options[i];
    var count := |Values(o, value)|;
    if value == "--" then
      // It ends the list and the default is given instead: that must be the same value.
      && Values(o, value) == Values(o, Default(o, name)) && count > 0
      && (MaxNum(o) > count || o.extraArgs ==> TakesNothing(app, i, Taken(Give(app, st, i, value), args, count)))
    else
      && MayTake(app, i, Taken(st, args + [value], 0), Needed(app, st))
      // With the name, a value that is all the option takes leaves a "--" below it alone.
      && (MaxNum(o) > count || o.extraArgs || args == [] || Last(args) != "--")
  }

  lemma {:induction false} OptionalGivenIff(app: App, st: Parsed, i: nat, name: string, value: string, args: seq<string>)
    requires Fits(app, st) && i < |app.options| && value != ""
    requires MinNum(app.options[i]) == 0 && MaxNum(app.options[i]) > 0
    ensures GiveOption(app, st, i, name, "", value, args) == GiveOption(app, st, i, name, value, "", args)
    ensures GiveOption(app, st, i, name, value, "", args) == GiveOption(app, st, i, name, "", "", args + [value])
            <==> TakenApart(app, st, i, name, value, args)
  {
    var o := app.options[i];
    var t, t' := Taken(st, args + [value], 0), Taken(Give(app, st, i, value), args, |Values(o, value)|);
    assert Last(t.args) == value && Front(t.args) == args;
    NeedUnchanged(app, st, i, Values(o, value), |app.options|);
    OptionalTakes(app, i, name, t);
    OptionalTakes(app, i, name, t');
    if value == "--" {
      MarkGiven(app, st, i, name, args);
    } else {
      ValueGiven(app, st, i, name, value, args);
    }
  }

  lemma OptionalTakes(app: App, i: nat, name: string, t: Taken)
    requires Fits(app, t.st) && i < |app.options| && MinNum(app.options[i]) == 0
    ensures var most := TakeOptional(app, i, name, t); TakeAll(app, i, name, "", t) == Outcome(most.st, most.args, None)
  {
  }

  lemma ValueGiven(app: App, st: Parsed, i: nat, name: string, value: string, args: seq<string>)
    requires Fits(app, st) && i < |app.options| && value != "--"
    requires MinNum(app.options[i]) == 0 && MaxNum(app.options[i]) > 0
    requires Needed(app, Give(app, st, i, value)) == Needed(app, st)
    ensures var o := app.options[i];
      var a := TakeOptional(app, i, name, Taken(Give(app, st, i, value), args, |Values(o, value)|));
      var b := TakeOptional(app, i, name, Taken(st, args + [value], 0));
      (a.st == b.st && a.args == b.args) <==> TakenApart(app, st, i, name, value, args)
  {
    var o := app.options[i];
    var t, t' := Taken(st, args + [value], 0), Taken(Give(app, st, i, value), args, |Values(o, value)|);
    assert Last(t.args) == value && Front(t.args) == args;
    if MayTake(app, i, t, Needed(app, st)) {
      assert TakeMore(app, i, t, Needed(app, st)) == TakeMore(app, i, t', Needed(app, st));
    }
  }

  lemma MarkGiven(app: App, st: Parsed, i: nat, name: string, args: seq<string>)
    requires Fits(app, st) && i < |app.options|
    requires MinNum(app.options[i]) == 0 && MaxNum(app.options[i]) > 0
    ensures var o := app.options[i];
      var a := TakeOptional(app, i, name, Taken(Give(app, st, i, "--"), args, |Values(o, "--")|));
      var b := TakeOptional(app, i, name, Taken(st, args + ["--"], 0));
      (a.st == b.st && a.args == b.args) <==> TakenApart(app, st, i, name, "--", args)
  {
    var o := app.options[i];
    var t, t' := Taken(st, args + ["--"], 0), Taken(Give(app, st, i, "--"), args, |Values(o, "--")|);
    assert Last(t.args) == "--" && Front(t.args) == args;
    assert TakeOptional(app, i, name, t) == Taken(Give(app, st, i, Default(o, name)), args, 0);
    GivenAlike(app, st, i, "--", Default(o, name));
    TakeMoreCounts(app, i, t', Needed(app, t'.st));
  }

  lemma GivenAlike(app: App, st: Parsed, i: nat, text: string, text': string)
    requires Fits(app, st) && i < |app.options|
    ensures var o := app.options[i];
      Give(app, st, i, text) == Give(app, st, i, text') <==> Values(o, text) == Values(o, text')
  {
    var o := app.options[i];
    var a, b := Give(app, st, i, text), Give(app, st, i, text');
    if a == b {
      assert a.results[i][|st.results[i]|..] == Values(o, text);
      assert b.results[i][|st.results[i]|..] == Values(o, text');
    }
  }

  predicate MayHaveValue(app: App, kind: Kind, name: string) {
    OptionOf(app, kind, name).Some?
    && MinNum(app.options[OptionOf(app, kind, name).value]) == 0 && MaxNum(app.options[OptionOf(app, kind, name).value]) > 0
  }

  // --x=v and --x v, for an option whose value may be left out, are one and the same step exactly
  // if the value is taken apart as it is together; the runs are then the same.
  lemma LongOptionalApartIff(app: App, st: Parsed, args: seq<string>, name: string, value: string)
    requires Fits(app, st) && name != "" && ValidFirst(name[0]) && '=' !in name && value != ""
    requires MayHaveValue(app, Long, name)
    ensures var i := OptionOf(app, Long, name).value; var together := "--" + (name + ['='] + value);
      var alike := TakenApart(app, Separate(app, st, i), i, name, value, args);
      && (ParseSingle(app, st, args + [together], false) == ParseSingle(app, st, args + [value] + ["--" + name], false) <==> alike)
      && (alike ==> Run(app, st, args + [together], false) == Run(app, st, args + [value] + ["--" + name], false))
  {
    var together, alone := "--" + (name + ['='] + value), "--" + name;
    var i := OptionOf(app, Long, name).value;
    assert together[2..] == name + ['='] + value && alone[2..] == name;
    SplitNamed(name, '=', value);
    ParsedLong(app, st, args, together, name, value);
    ParsedLong(app, st, args + [value], alone, name, "");
    OptionalGivenIff(app, Separate(app, st, i), i, name, value, args);
    RunsAlike(app, st, args, together, args + [value], alone);
  }

  // The same for -xv and -x v.
  lemma ShortOptionalApartIff(app: App, st: Parsed, args: seq<string>, x: char, value: string)
    requires Fits(app, st) && ValidFirst(x) && value != "" && MayHaveValue(app, Short, [x])
    ensures var i := OptionOf(app, Short, [x]).value; var together, alone := ['-', x] + value, ['-', x];
      var alike := TakenApart(app, Separate(app, st, i), i, [x], value, args);
      && (ParseSingle(app, st, args + [together], false) == ParseSingle(app, st, args + [value] + [alone], false) <==> alike)
      && (alike ==> Run(app, st, args + [together], false) == Run(app, st, args + [value] + [alone], false))
  {
    var together, alone := ['-', x] + value, ['-', x];
    var i := OptionOf(app, Short, [x]).value;
    assert alone + "" == alone;
    ParsedShort(app, st, args, x, value);
    ParsedShort(app, st, args + [value], x, "");
    OptionalGivenIff(app, Separate(app, st, i), i, [x], value, args);
    RunsAlike(app, st, args, together, args + [value], alone);
  }

  lemma {:induction false} NeedUnchanged(app: App, st: Parsed, i: nat, values: seq<string>, n: nat)
    requires Fits(app, st) && i < |app.options| && n <= |app.options| && MinNum(app.options[i]) == 0
    ensures Remaining(app, Append(st, i, values).(order := st.order + [i]), true, n) == Remaining(app, st, true, n)
  {
    if n > 0 { NeedUnchanged(app, st, i, values, n - 1); }
  }

  // ---------- after "--" ----------

  lemma {:induction false} MissAllKeeps(st: Parsed, args: seq<string>)
    ensures |MissAll(st, args).missing| == |st.missing| + |args| && MissAll(st, args).order == st.order
    decreases |args|
  {
    if args != [] { MissAllKeeps(Miss(st, NoOption, Last(args)), Front(args)); }
  }

  function Entries(st: Parsed): nat {
    |st.order| + |st.missing|
  }

  // After "--" no option without a place among the positional ones gets anything, and each
  // argument goes to one positional option or to the extras.  Only a surplus is an error.
  lemma {:induction false} MarkEndsOptions(app: App, st: Parsed, args: seq<string>, i: nat)
    requires Fits(app, st) && i < |app.options| && app.options[i].pname == ""
    ensures var r := Run(app, st, args, true);
      && r.st.results[i] == st.results[i]
      && (r.err.None? || r.err == Some(Extras))
      && Entries(r.st) + |r.args| == Entries(st) + |args|
    decreases Size(args)
  {
    if args != [] {
      var r := ParsePositional(app, st, args);
      StepShrinks(app, st, args, true);
      MissAllKeeps(st, args);
      if r.err.None? { MarkEndsOptions(app, r.st, r.args, i); }
    }
  }
}
