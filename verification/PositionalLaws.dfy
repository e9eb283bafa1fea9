/**
 Which option a positional argument goes to, and what options never get.
 */
module PositionalLaws {
  import opened Wrappers
  import opened ArgumentModel
  import opened ArgumentTheorems

  // ---------- one argument ----------

  // Option i takes a positional text: it has a place among the positional options, holds fewer
  // values than it expects or accepts extra ones, and its validators accept the text.
  predicate Wants(app: App, st: Parsed, i: nat, text: string)
    requires i < |app.options| && |st.results| == |app.options|
  {
    var o := app.options[i];
    && o.pname != ""
    && (|st.results[i]| < o.typeMin * o.expectedMin || o.extraArgs)
    && (app.validatePositionals && !(text == "" && o.expectedMin == 0) ==> o.check(text))
  }

  lemma {:induction false} FirstWanting(app: App, st: Parsed, text: string, from: nat)
    requires Fits(app, st) && from <= |app.options|
    ensures match FirstOpen(app, st, false, text, from)
      case Some(i) => from <= i && Wants(app, st, i, text) && forall j :: from <= j < i ==> !Wants(app, st, j, text)
      case None => forall j :: from <= j < |app.options| ==> !Wants(app, st, j, text)
    decreases |app.options| - from
  {
    if from < |app.options| && !Wants(app, st, from, text) { FirstWanting(app, st, text, from + 1); }
  }

  // A text goes to the first option that wants it.
  lemma GoesToFirst(app: App, st: Parsed, args: seq<string>, text: string, i: nat)
    requires Fits(app, st) && !app.positionalsAtEnd && i < |app.options|
    requires Wants(app, st, i, text) && forall j :: 0 <= j < i ==> !Wants(app, st, j, text)
    ensures ParsePositional(app, st, args + [text]) == Outcome(Give(app, Separate(app, st, i), i, text), args, None)
  {
    FirstWanting(app, st, text, 0);
    assert Front(args + [text]) == args && Last(args + [text]) == text;
    assert Receiver(app, st, text, |args| + 1) == Some(i);
  }

  // It goes to the extras exactly if no option wants it; with them all others, if the application
  // takes a prefix of its command line only.
  lemma GoesToExtras(app: App, st: Parsed, args: seq<string>, text: string)
    requires Fits(app, st) && !app.positionalsAtEnd && forall j :: 0 <= j < |app.options| ==> !Wants(app, st, j, text)
    ensures ParsePositional(app, st, args + [text]) ==
            if app.prefixCommand then Outcome(Parsed(st.results, st.order, st.missing + [(NoOption, text)] + AllExtras(args)), [], None)
            else Outcome(Parsed(st.results, st.order, st.missing + [(NoOption, text)]), args, None)
  {
    FirstWanting(app, st, text, 0);
    assert Front(args + [text]) == args && Last(args + [text]) == text;
    AllMissed(Miss(st, NoOption, text), args);
  }

  // The arguments as extras, the next one first.
  function AllExtras(args: seq<string>): (r: seq<(Kind, string)>)
    ensures |r| == |args| && forall k :: 0 <= k < |args| ==> r[k] == (NoOption, args[|args| - 1 - k])
  {
    if args == [] then [] else [(NoOption, args[|args| - 1])] + AllExtras(args[..|args| - 1])
  }

  lemma {:induction false} AllMissed(st: Parsed, args: seq<string>)
    ensures MissAll(st, args) == Parsed(st.results, st.order, st.missing + AllExtras(args))
    decreases |args|
  {
    if args == [] {
      assert st.missing + [] == st.missing;
    } else {
      AllMissed(Miss(st, NoOption, Last(args)), Front(args));
      assert st.missing + [(NoOption, Last(args))] + AllExtras(Front(args)) == st.missing + AllExtras(args);
    }
  }

  // ---------- positional options at the end ----------

  predicate MustHave(app: App, st: Parsed, i: nat, text: string)
    requires i < |app.options| && |st.results| == |app.options|
  {
    var o := app.options[i];
    && o.pname != "" && o.required && |st.results[i]| < o.typeMin * o.expectedMin
    && (app.validatePositionals && !(text == "" && o.expectedMin == 0) ==> o.check(text))
  }

  lemma {:induction false} FirstMust(app: App, st: Parsed, text: string, from: nat)
    requires Fits(app, st) && from <= |app.options|
    ensures match FirstOpen(app, st, true, text, from)
      case Some(i) => from <= i && MustHave(app, st, i, text) && forall j :: from <= j < i ==> !MustHave(app, st, j, text)
      case None => forall j :: from <= j < |app.options| ==> !MustHave(app, st, j, text)
    decreases |app.options| - from
  {
    if from < |app.options| && !MustHave(app, st, from, text) { FirstMust(app, st, text, from + 1); }
  }

  // With positional options at the end, the required ones come first once only enough arguments
  // for them are left, and a text that none wants is an error.
  lemma AtEnd(app: App, st: Parsed, args: seq<string>, text: string, i: nat)
    requires Fits(app, st) && app.positionalsAtEnd && i < |app.options|
    ensures |args| < Needed(app, st) && MustHave(app, st, i, text) && (forall j :: 0 <= j < i ==> !MustHave(app, st, j, text)) ==>
              ParsePositional(app, st, args + [text]) == Outcome(Give(app, Separate(app, st, i), i, text), args, None)
    ensures |args| >= Needed(app, st) && Wants(app, st, i, text) && (forall j :: 0 <= j < i ==> !Wants(app, st, j, text)) ==>
              ParsePositional(app, st, args + [text]) == Outcome(Give(app, Separate(app, st, i), i, text), args, None)
    ensures |args| >= Needed(app, st) && (forall j :: 0 <= j < |app.options| ==> !Wants(app, st, j, text)) ==>
              ParsePositional(app, st, args + [text]) == Outcome(st, args + [text], Some(Extras))
  {
    FirstMust(app, st, text, 0);
    FirstWanting(app, st, text, 0);
    assert Front(args + [text]) == args && Last(args + [text]) == text;
  }

  // What the positional options still need: nothing if they are all full, and what one lacks if
  // the others are.
  lemma {:induction false} NeededIs(app: App, st: Parsed, requiredOnly: bool, i: nat, n: nat)
    requires Fits(app, st) && i < |app.options| && n <= |app.options|
    requires forall j :: 0 <= j < n && j != i ==>
               app.options[j].pname == "" || (requiredOnly && !app.options[j].required)
               || app.options[j].typeMin * app.options[j].expectedMin <= |st.results[j]|
    ensures var o := app.options[i];
      Remaining(app, st, requiredOnly, n) ==
      if i < n && o.pname != "" && (!requiredOnly || o.required) && |st.results[i]| < o.typeMin * o.expectedMin
      then o.typeMin * o.expectedMin - |st.results[i]| else 0
  {
    if n > 0 { NeededIs(app, st, requiredOnly, i, n - 1); }
  }

  // ---------- what an option never gets ----------

  predicate Untouched(st: Parsed, st': Parsed, i: nat) {
    |st'.results| == |st.results| && i < |st.results| && st'.results[i] == st.results[i]
  }

  lemma {:induction false} TakeMinOthers(app: App, k: nat, t: Taken, i: nat)
    requires Fits(app, t.st) && k < |app.options| && i < |app.options| && i != k
    ensures Untouched(t.st, TakeMin(app, k, t).st, i)
    decreases |t.args|
  {
    if MinNum(app.options[k]) > t.collected && t.args != [] { TakeMinOthers(app, k, Take(app, k, t), i); }
  }

  lemma {:induction false} TakeMoreOthers(app: App, k: nat, t: Taken, needed: nat, i: nat)
    requires Fits(app, t.st) && k < |app.options| && i < |app.options| && i != k
    ensures Untouched(t.st, TakeMore(app, k, t, needed).st, i)
    decreases |t.args|
  {
    if MayTake(app, k, t, needed) { TakeMoreOthers(app, k, Take(app, k, t), needed, i); }
  }

  lemma TakeOptionalOthers(app: App, k: nat, name: string, t: Taken, i: nat)
    requires Fits(app, t.st) && k < |app.options| && i < |app.options| && i != k
    ensures Untouched(t.st, TakeOptional(app, k, name, t).st, i)
  {
    TakeMoreOthers(app, k, t, Needed(app, t.st), i);
  }

  lemma TakeAllOthers(app: App, k: nat, name: string, rest: string, t: Taken, i: nat)
    requires Fits(app, t.st) && k < |app.options| && i < |app.options| && i != k
    ensures Untouched(t.st, TakeAll(app, k, name, rest, t).st, i)
  {
    TakeMinOthers(app, k, t, i);
    TakeOptionalOthers(app, k, name, TakeMin(app, k, t), i);
  }

  // An option that is named gives nothing to any other.
  lemma GiveOptionOthers(app: App, st: Parsed, k: nat, name: string, value: string, rest: string, args: seq<string>, i: nat)
    requires Fits(app, st) && k < |app.options| && i < |app.options| && i != k
    ensures Untouched(st, GiveOption(app, st, k, name, value, rest, args).st, i)
  {
    var o := app.options[k];
    if MaxNum(o) == 0 {
      match FlagValue(o, name, value)
      case Failure(_) =>
      case Success(text) => TakeAllOthers(app, k, name, rest, Taken(Give(app, st, k, text), args, 0), i);
    } else {
      TakeAllOthers(app, k, name, "", StartWith(app, st, k, if value != "" then value else rest, args), i);
    }
  }

  // ---------- positional options never hold too much ----------

  // Only its place among the positional options, and one value a text.
  predicate PurelyPositional(o: Opt) {
    && o.pname != "" && o.snames == [] && o.lnames == []
    && !o.extraArgs && o.delimiter.None? && !o.injectSeparator
  }

  predicate WithinBounds(app: App, st: Parsed, i: nat, held: nat)
    requires i < |app.options| && |st.results| == |app.options|
  {
    var expected := app.options[i].typeMin * app.options[i].expectedMin;
    |st.results[i]| <= if held <= expected then expected else held
  }

  lemma ArgKeeps(app: App, st: Parsed, args: seq<string>, i: nat)
    requires Fits(app, st) && args != [] && i < |app.options| && PurelyPositional(app.options[i])
    ensures ParseArg(app, st, args).st.results[i] == st.results[i]
  {
    var kind := Recognize(app, Last(args));
    var (name, value, rest) := SplitArg(Last(args), kind);
    match FindOption(app.options, kind, name, 0)
    case None =>
    case Some(k) =>
      assert k != i;
      GiveOptionOthers(app, Separate(app, st, k), k, name, value, rest, Front(args), i);
  }

  lemma PositionalKeepsBounds(app: App, st: Parsed, args: seq<string>, i: nat, held: nat)
    requires Fits(app, st) && args != [] && i < |app.options| && PurelyPositional(app.options[i])
    requires WithinBounds(app, st, i, held)
    ensures WithinBounds(app, ParsePositional(app, st, args).st, i, held)
  {
    var text := Last(args);
    FirstWanting(app, st, text, 0);
    FirstMust(app, st, text, 0);
    AllMissed(st, args);
    match Receiver(app, st, text, |args|)
    case None =>
    case Some(k) => if k == i { assert |st.results[i]| < app.options[i].typeMin * app.options[i].expectedMin; }
  }

  // Whatever the command line, a purely positional option ends with no more values than it
  // expects, or than it held before.
  lemma {:induction false} NeverTooMany(app: App, st: Parsed, args: seq<string>, only: bool, i: nat, held: nat)
    requires Fits(app, st) && i < |app.options| && PurelyPositional(app.options[i]) && WithinBounds(app, st, i, held)
    ensures WithinBounds(app, Run(app, st, args, only).st, i, held)
    decreases Size(args)
  {
    if args != [] {
      var r := ParseSingle(app, st, args, only);
      StepShrinks(app, st, args, only);
      PositionalKeepsBounds(app, st, args, i, held);
      ArgKeeps(app, st, args, i);
      if r.err.None? { NeverTooMany(app, r.st, r.args, OnlyPositionals(app, args, only), i, held); }
    }
  }

  // ---------- one after the other ----------

  ghost predicate OneEach(app: App) {
    && !app.positionalsAtEnd && !app.validatePositionals
    && forall o :: o in app.options ==> PurelyPositional(o) && o.typeMin == o.typeMax == 1 && o.expectedMin == o.expectedMax == 1
  }

  // The first of these options have a value each; as many arguments follow as there are others.
  // Each of those gets its own, in order.
  lemma {:induction false} FilledInOrder(app: App, st: Parsed, args: seq<string>, m: nat)
    requires Fits(app, st) && OneEach(app) && m + |args| == |app.options|
    requires forall j :: 0 <= j < |app.options| ==> |st.results[j]| == if j < m then 1 else 0
    ensures var r := Run(app, st, args, true);
      && r.err.None? && r.st.missing == st.missing && |r.st.results| == |st.results|
      && (forall j :: 0 <= j < m ==> r.st.results[j] == st.results[j])
      && (forall j :: m <= j < |app.options| ==> r.st.results[j] == [args[|app.options| - 1 - j]])
    decreases |args|
  {
    if args != [] {
      var text := Last(args);
      OneFilled(app, st, args, m);
      var st' := Give(app, Separate(app, st, m), m, text);
      FilledInOrder(app, st', Front(args), m + 1);
      assert Run(app, st, args, true) == Run(app, st', Front(args), true);
    }
  }

  lemma OneFilled(app: App, st: Parsed, args: seq<string>, m: nat)
    requires Fits(app, st) && OneEach(app) && args != [] && m < |app.options|
    requires forall j :: 0 <= j < |app.options| ==> |st.results[j]| == if j < m then 1 else 0
    ensures var st' := Give(app, Separate(app, st, m), m, Last(args));
      && ParsePositional(app, st, args) == Outcome(st', Front(args), None)
      && st'.missing == st.missing && st'.results == st.results[m := [Last(args)]]
  {
    assert args == Front(args) + [Last(args)];
    assert app.options[m] in app.options;
    forall j | 0 <= j < m ensures !Wants(app, st, j, Last(args)) {
      assert app.options[j] in app.options;
    }
    GoesToFirst(app, st, Front(args), Last(args), m);
    assert st.results[m] == [] && [] + [Last(args)] == [Last(args)];
  }

  // A positional argument ends the options if positional ones come at the end.
  lemma PositionalEndsOptions(app: App, st: Parsed, args: seq<string>, text: string)
    requires Fits(app, st) && Recognize(app, text) == NoOption
    requires ParsePositional(app, st, args + [text]).err.None?
    ensures var r := ParsePositional(app, st, args + [text]);
      Run(app, st, args + [text], false) == Run(app, r.st, r.args, app.positionalsAtEnd)
  {
    assert Last(args + [text]) == text;
    RunUnfold(app, st, args + [text], false, ParsePositional(app, st, args + [text]), app.positionalsAtEnd);
  }

  lemma RunUnfold(app: App, st: Parsed, args: seq<string>, only: bool, r: Outcome, after: bool)
    requires Fits(app, st) && args != [] && r == ParseSingle(app, st, args, only) && r.err.None?
    requires after == OnlyPositionals(app, args, only)
    ensures Run(app, st, args, only) == Run(app, r.st, r.args, after)
  {
  }
}
