/**
 The argument loop as it runs, changing the results, the order and the list of extras in place.
 */
module ArgumentLoop {
  import opened Wrappers
  import opened Numbers
  import opened ArgumentModel
  import opened ArgumentTheorems
  import CheckedMultiply

  class Parser {
    const app: App
    var results: seq<seq<string>>
    var order: seq<nat>
    var missing: seq<(Kind, string)>

    function St(): Parsed
      reads this
    {
      Parsed(results, order, missing)
    }

    ghost predicate Valid()
      reads this
    {
      Fits(app, St())
    }

    constructor (app: App)
      requires forall o :: o in app.options ==> WellSet(o)
      ensures Valid() && this.app == app
      ensures St() == Parsed(seq(|app.options|, _ => []), [], [])
    {
      this.app := app;
      results := seq(|app.options|, _ => []);
      order, missing := [], [];
    }

    method AddResult(i: nat, text: string) returns (count: nat)
      requires Valid() && i < |app.options|
      modifies this`results
      ensures Valid() && St() == Append(old(St()), i, Values(app.options[i], text))
      ensures count == |Values(app.options[i], text)|
    {
      var values := Values(app.options[i], text);
      results := results[i := results[i] + values];
      count := |values|;
    }

    method AddSeparator(i: nat)
      requires Valid() && i < |app.options|
      modifies this`results
      ensures Valid() && St() == Separate(app, old(St()), i)
    {
      if app.options[i].injectSeparator && results[i] != [] && results[i][|results[i]| - 1] != "" {
        var _ := AddResult(i, "");
      }
    }

    method CountRemaining(requiredOnly: bool) returns (count: nat)
      requires Valid()
      ensures count == Remaining(app, St(), requiredOnly, |app.options|)
    {
      count := 0;
      for n := 0 to |app.options|
        invariant count == Remaining(app, St(), requiredOnly, n)
      {
        var o := app.options[n];
        if o.pname != "" && (!requiredOnly || o.required) {
          if ItemsMin(o) > 0 && |results[n]| < ItemsMin(o) {
            count := count + (ItemsMin(o) - |results[n]|);
          }
        }
      }
    }

    method FindOpen(requiredOnly: bool, text: string) returns (r: Option<nat>)
      requires Valid()
      ensures r == FirstOpen(app, St(), requiredOnly, text, 0)
    {
      for i := 0 to |app.options|
        invariant FirstOpen(app, St(), requiredOnly, text, 0) == FirstOpen(app, St(), requiredOnly, text, i)
      {
        if TakesAnother(app, St(), requiredOnly, text, i) {
          return Some(i);
        }
      }
      return None;
    }

    // The most values an option takes, with the multiplications that may not overflow.
    method MostValues(o: Opt) returns (most: nat)
      requires WellSet(o)
      ensures most == MaxNum(o)
    {
      most := MultiplyOr(o.typeMax, o.expectedMax);
      if most >= VECTOR_SIZE / 16 && !o.extraArgs {
        most := MultiplyOr(o.typeMax, o.expectedMin);
      }
    }

    method MultiplyOr(a: nat, b: nat) returns (r: nat)
      requires a <= INT_MAX && b <= INT_MAX
      ensures r == Capped(a, b)
    {
      var ok, product := CheckedMultiply.Multiply(CheckedMultiply.IntType(true, INT_MAX), a, b);
      assert a * b >= 0;
      r := if ok then product else VECTOR_SIZE;
    }

    method GiveNext(i: nat, text: string) returns (count: nat)
      requires Valid() && i < |app.options|
      modifies this`results, this`order
      ensures Valid() && St() == Give(app, old(St()), i, text)
      ensures count == |Values(app.options[i], text)|
    {
      count := AddResult(i, text);
      order := order + [i];
    }

    method CollectMin(i: nat, given: seq<string>, before: nat) returns (args: seq<string>, collected: nat)
      requires Valid() && i < |app.options|
      modifies this`results, this`order
      ensures Valid() && Taken(St(), args, collected) == TakeMin(app, i, Taken(old(St()), given, before))
    {
      args, collected := given, before;
      while MinNum(app.options[i]) > collected && args != []
        invariant Valid()
        invariant TakeMin(app, i, Taken(St(), args, collected)) == TakeMin(app, i, Taken(old(St()), given, before))
        decreases |args|
      {
        var count := GiveNext(i, args[|args| - 1]);
        args := args[..|args| - 1];
        collected := collected + count;
      }
    }

    method CollectMore(i: nat, given: seq<string>, before: nat, needed: nat) returns (args: seq<string>, collected: nat)
      requires Valid() && i < |app.options|
      modifies this`results, this`order
      ensures Valid() && Taken(St(), args, collected) == TakeMore(app, i, Taken(old(St()), given, before), needed)
    {
      args, collected := given, before;
      while (collected < MaxNum(app.options[i]) || app.options[i].extraArgs) && args != []
            && Recognize(app, args[|args| - 1]) == NoOption
        invariant Valid()
        invariant TakeMore(app, i, Taken(St(), args, collected), needed)
               == TakeMore(app, i, Taken(old(St()), given, before), needed)
        decreases |args|
      {
        if needed >= |args| {
          break;
        }
        if app.validateOptionals && !Accepts(app.options[i], args[|args| - 1]) {
          break;
        }
        var count := GiveNext(i, args[|args| - 1]);
        args := args[..|args| - 1];
        collected := collected + count;
      }
    }

    method CollectOptional(i: nat, name: string, given: seq<string>, before: nat) returns (args: seq<string>, collected: nat)
      requires Valid() && i < |app.options|
      modifies this`results, this`order
      ensures Valid() && Taken(St(), args, collected) == TakeOptional(app, i, name, Taken(old(St()), given, before))
    {
      args, collected := given, before;
      var o := app.options[i];
      var maxNum := MostValues(o);
      if maxNum > collected || o.extraArgs {
        var needed := CountRemaining(true);
        args, collected := CollectMore(i, args, collected, needed);
        if args != [] && Recognize(app, args[|args| - 1]) == PositionalMark {
          args := args[..|args| - 1];
        }
        if MinNum(o) == 0 && maxNum > 0 && collected == 0 {
          var _ := GiveNext(i, FlagValue(o, name, "").value);
        }
      }
    }

    method Collect(i: nat, name: string, rest: string, given: seq<string>, before: nat)
      returns (args: seq<string>, err: Option<Error>)
      requires Valid() && i < |app.options|
      modifies this`results, this`order
      ensures Valid() && Outcome(St(), args, err) == TakeAll(app, i, name, rest, Taken(old(St()), given, before))
    {
      var o := app.options[i];
      var collected;
      args, collected := CollectMin(i, given, before);
      if MinNum(o) > collected {
        return args, Some(TypedAtLeast);
      }
      args, collected := CollectOptional(i, name, args, collected);
      if MinNum(o) > 0 && o.typeMax > 0 && collected % o.typeMax != 0 {
        if o.typeMax == o.typeMin {
          return args, Some(PartialType);
        }
        var _ := AddResult(i, "");
      }
      err := None;
      if rest != "" {
        args := args + ["-" + rest];
      }
    }

    method FlagGiven(i: nat, name: string, value: string, rest: string, given: seq<string>)
      returns (args: seq<string>, err: Option<Error>)
      requires Valid() && i < |app.options|
      modifies this`results, this`order
      ensures Valid() && Outcome(St(), args, err) == GiveFlag(app, old(St()), i, name, value, rest, given)
    {
      var res := FlagValue(app.options[i], name, value);
      if res.Failure? {
        return given, Some(res.error);
      }
      var _ := GiveNext(i, res.value);
      args, err := Collect(i, name, rest, given, 0);
    }

    method ValueGiven(i: nat, text: string, ghost args: seq<string>) returns (collected: nat)
      requires Valid() && i < |app.options|
      modifies this`results, this`order
      ensures Valid() && Taken(St(), args, collected) == StartWith(app, old(St()), i, text, args)
    {
      collected := 0;
      if text != "" {
        collected := GiveNext(i, text);
      }
    }

    method GiveTo(i: nat, name: string, value: string, rest: string, given: seq<string>)
      returns (args: seq<string>, err: Option<Error>)
      requires Valid() && i < |app.options|
      modifies this`results, this`order
      ensures Valid() && Outcome(St(), args, err) == GiveOption(app, old(St()), i, name, value, rest, given)
    {
      var maxNum := MostValues(app.options[i]);
      if maxNum == 0 {
        args, err := FlagGiven(i, name, value, rest, given);
      } else {
        var collected := ValueGiven(i, if value != "" then value else rest, given);
        args, err := Collect(i, name, "", given, collected);
      }
    }

    method ParseOption(given: seq<string>) returns (args: seq<string>, err: Option<Error>)
      requires Valid() && given != []
      modifies this
      ensures Valid() && Outcome(St(), args, err) == ParseArg(app, old(St()), given)
    {
      var current := given[|given| - 1];
      var kind := Recognize(app, current);
      var (name, value, rest) := SplitArg(current, kind);
      var i := FindOption(app.options, kind, name, 0);
      args := given[..|given| - 1];
      if i.None? {
        missing := missing + [(kind, current)];
        return args, None;
      }
      AddSeparator(i.value);
      args, err := GiveTo(i.value, name, value, rest, args);
    }

    method PlacePositional(given: seq<string>) returns (args: seq<string>, err: Option<Error>)
      requires Valid() && given != []
      modifies this
      ensures Valid() && Outcome(St(), args, err) == ParsePositional(app, old(St()), given)
    {
      var positional := given[|given| - 1];
      var open: Option<nat> := None;
      if app.positionalsAtEnd {
        var needed := CountRemaining(true);
        if |given| <= needed {
          open := FindOpen(true, positional);
        }
      }
      if open.None? {
        open := FindOpen(false, positional);
      }
      if open.Some? {
        AddSeparator(open.value);
        var _ := GiveNext(open.value, positional);
        return given[..|given| - 1], None;
      }
      if app.positionalsAtEnd {
        return given, Some(Extras);
      }
      args, err := given, None;
      missing := missing + [(NoOption, positional)];
      args := args[..|args| - 1];
      if app.prefixCommand {
        while args != []
          invariant Valid() && MissAll(St(), args) == MissAll(old(St()), given)
          decreases |args|
        {
          missing := missing + [(NoOption, args[|args| - 1])];
          args := args[..|args| - 1];
        }
      }
    }

    method Single(given: seq<string>, only: bool) returns (args: seq<string>, err: Option<Error>, positionalOnly: bool)
      requires Valid() && given != []
      modifies this
      ensures Valid() && Outcome(St(), args, err) == ParseSingle(app, old(St()), given, only)
      ensures err.None? ==> positionalOnly == OnlyPositionals(app, given, only)
    {
      positionalOnly := only;
      var kind := if only then NoOption else Recognize(app, given[|given| - 1]);
      match kind {
        case PositionalMark =>
          args, err := given[..|given| - 1], None;
          positionalOnly := true;
          missing := missing + [(PositionalMark, "--")];
        case NoOption =>
          args, err := PlacePositional(given);
          if err.None? && app.positionalsAtEnd {
            positionalOnly := true;
          }
        case _ =>
          args, err := ParseOption(given);
      }
    }

    // All arguments, the next one last.  The loop ends although it puts rests of clusters back.
    method Parse(given: seq<string>) returns (args: seq<string>, err: Option<Error>)
      requires Valid()
      modifies this
      ensures Valid() && Outcome(St(), args, err) == Run(app, old(St()), given, false)
    {
      var positionalOnly := false;
      args, err := given, None;
      while args != []
        invariant Valid() && err.None?
        invariant Run(app, St(), args, positionalOnly) == Run(app, old(St()), given, false)
        decreases Size(args)
      {
        StepShrinks(app, St(), args, positionalOnly);
        args, err, positionalOnly := Single(args, positionalOnly);
        if err.Some? {
          return;
        }
      }
    }
  }
}
