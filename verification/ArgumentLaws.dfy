/**
 What one argument does to the results, said of the results themselves.
 */
module ArgumentLaws {
  import opened Wrappers
  import opened Text
  import opened Numbers
  import opened ArgumentModel
  import opened ArgumentTheorems

  // ---------- how many values ----------

  lemma Times(a: nat, b: nat)
    ensures b > 0 ==> a <= a * b
    ensures b == 0 ==> a * b == 0
  {
  }

  // The least an option takes is one occurrence of its type, or nothing if it need not occur.
  lemma LeastIs(o: Opt)
    ensures MinNum(o) == if o.expectedMin == 0 then 0 else o.typeMin
  {
    Times(o.typeMin, o.expectedMin);
  }

  // The most is what its type and count allow, up to int's limit; but without extra arguments, from
  // 2 ** 25 on, it is one round of its least count.
  lemma MostIs(o: Opt)
    ensures var most := o.typeMax * o.expectedMax; var round := o.typeMax * o.expectedMin;
      MaxNum(o) ==
      if most <= 0x7FFF_FFFF && (most < 33554432 || o.extraArgs) then most
      else if o.extraArgs then 536870912
      else if round <= 0x7FFF_FFFF then round
      else 536870912
  {
  }

  // ---------- taking arguments ----------

  // Each text is one value.
  predicate OnePerText(o: Opt) {
    o.delimiter.None? && !o.extraArgs
  }

  function Several(app: App, i: nat, t: Taken, n: nat): (r: Taken)
    requires Fits(app, t.st) && i < |app.options| && n <= |t.args|
    ensures Fits(app, r.st) && r.args == t.args[..|t.args| - n]
  {
    if n == 0 then t else Take(app, i, Several(app, i, t, n - 1))
  }

  lemma TakeMinStep(app: App, i: nat, t: Taken)
    requires Fits(app, t.st) && i < |app.options| && t.args != [] && t.collected < MinNum(app.options[i])
    ensures TakeMin(app, i, t) == TakeMin(app, i, Take(app, i, t))
  {
  }

  lemma {:induction false} TakeMinAlong(app: App, i: nat, t: Taken, n: nat)
    requires Fits(app, t.st) && i < |app.options| && n <= |t.args|
    requires forall m :: 0 <= m < n ==> Several(app, i, t, m).collected < MinNum(app.options[i])
    ensures TakeMin(app, i, t) == TakeMin(app, i, Several(app, i, t, n))
  {
    if n > 0 {
      TakeMinAlong(app, i, t, n - 1);
      TakeMinStep(app, i, Several(app, i, t, n - 1));
    }
  }

  // Arguments are taken one by one as long as less than the least is collected, and no longer.
  lemma TakeMinCount(app: App, i: nat, t: Taken, n: nat)
    requires Fits(app, t.st) && i < |app.options| && n <= |t.args|
    requires forall m :: 0 <= m < n ==> Several(app, i, t, m).collected < MinNum(app.options[i])
    requires Several(app, i, t, n).collected >= MinNum(app.options[i]) || n == |t.args|
    ensures TakeMin(app, i, t) == Several(app, i, t, n)
  {
    TakeMinAlong(app, i, t, n);
  }

  // The texts taken, the first one first.
  function TopDown(args: seq<string>, n: nat): (r: seq<string>)
    requires n <= |args|
    ensures |r| == n && forall k :: 0 <= k < n ==> r[k] == args[|args| - 1 - k]
  {
    if n == 0 then [] else TopDown(args, n - 1) + [args[|args| - n]]
  }

  // Values added to option i, each noted in the order.
  function Given(st: Parsed, i: nat, values: seq<string>): (r: Parsed)
    requires i < |st.results|
    ensures |r.results| == |st.results| && r.missing == st.missing
    ensures r.results[i] == st.results[i] + values && forall k :: 0 <= k < |st.results| && k != i ==> r.results[k] == st.results[k]
    ensures r.order == st.order + seq(|values|, _ => i)
  {
    Parsed(st.results[i := st.results[i] + values], st.order + seq(|values|, _ => i), st.missing)
  }

  lemma GivenNone(st: Parsed, i: nat)
    requires i < |st.results|
    ensures Given(st, i, []) == st
  {
    assert st.results[i] + [] == st.results[i];
    assert st.order + seq(0, _ => i) == st.order;
  }

  lemma GivenOneMore(app: App, st: Parsed, i: nat, values: seq<string>, text: string)
    requires Fits(app, st) && i < |app.options| && Values(app.options[i], text) == [text]
    ensures Fits(app, Given(st, i, values))
    ensures Give(app, Given(st, i, values), i, text) == Given(st, i, values + [text])
  {
    assert st.results[i] + values + [text] == st.results[i] + (values + [text]);
    assert st.order + seq(|values|, _ => i) + [i] == st.order + seq(|values + [text]|, _ => i);
  }

  lemma {:induction false} SeveralGives(app: App, i: nat, t: Taken, n: nat)
    requires Fits(app, t.st) && i < |app.options| && n <= |t.args|
    requires forall k :: |t.args| - n <= k < |t.args| ==> Values(app.options[i], t.args[k]) == [t.args[k]]
    ensures Several(app, i, t, n).collected == t.collected + n
    ensures Several(app, i, t, n).st == Given(t.st, i, TopDown(t.args, n))
  {
    if n == 0 {
      GivenNone(t.st, i);
    } else {
      SeveralGives(app, i, t, n - 1);
      GivenOneMore(app, t.st, i, TopDown(t.args, n - 1), t.args[|t.args| - n]);
    }
  }

  // ---------- options of a fixed number of values ----------

  predicate Fixed(o: Opt, k: nat) {
    && o.typeMin == o.typeMax == k && o.expectedMin == o.expectedMax == 1
    && OnePerText(o) && !o.injectSeparator
  }

  lemma FixedNumbers(o: Opt, k: nat)
    requires Fixed(o, k) && WellSet(o)
    ensures MinNum(o) == k == MaxNum(o)
  {
  }

  // Exactly k values, whatever they look like; the other options and arguments stay as they are.
  lemma FixedTakes(app: App, st: Parsed, i: nat, name: string, args: seq<string>, k: nat)
    requires Fits(app, st) && i < |app.options| && Fixed(app.options[i], k) && 0 < k <= |args|
    ensures GiveOption(app, st, i, name, "", "", args) ==
            Outcome(Given(st, i, TopDown(args, k)), args[..|args| - k], None)
  {
    var o := app.options[i];
    var t := Taken(st, args, 0);
    FixedNumbers(o, k);
    forall m | 0 <= m < k ensures Several(app, i, t, m).collected < k {
      SeveralGives(app, i, t, m);
    }
    SeveralGives(app, i, t, k);
    TakeMinCount(app, i, t, k);
    NothingMore(app, i, name, t, Several(app, i, t, k));
  }

  // An option that has all its values takes nothing more, and is done.
  lemma NothingMore(app: App, i: nat, name: string, t: Taken, least: Taken)
    requires Fits(app, t.st) && i < |app.options| && TakeMin(app, i, t) == least
    requires var o := app.options[i];
      o.typeMax > 0 && !o.extraArgs && MinNum(o) == MaxNum(o) == least.collected == o.typeMax
    ensures TakeAll(app, i, name, "", t) == Outcome(least.st, least.args, None)
  {
  }

  // Too few arguments are an error, after all of them have been taken.
  lemma FixedLacks(app: App, st: Parsed, i: nat, name: string, args: seq<string>, k: nat)
    requires Fits(app, st) && i < |app.options| && Fixed(app.options[i], k) && |args| < k
    ensures GiveOption(app, st, i, name, "", "", args) ==
            Outcome(Given(st, i, TopDown(args, |args|)), [], Some(TypedAtLeast))
  {
    var o := app.options[i];
    var t := Taken(st, args, 0);
    FixedNumbers(o, k);
    forall m | 0 <= m <= |args| ensures Several(app, i, t, m).collected < k {
      SeveralGives(app, i, t, m);
    }
    SeveralGives(app, i, t, |args|);
    TakeMinCount(app, i, t, |args|);
  }

  lemma NotSeparated(app: App, st: Parsed, i: nat)
    requires Fits(app, st) && i < |app.options| && !app.options[i].injectSeparator
    ensures Separate(app, st, i) == st
  {
  }

  // --x v, for an option of one value: v is added to it, nothing else changes, and the arguments
  // after v are read on.
  lemma OneValueLong(app: App, st: Parsed, args: seq<string>, name: string, v: string)
    requires Fits(app, st) && name != "" && ValidFirst(name[0]) && '=' !in name
    requires OptionOf(app, Long, name).Some? && Fixed(app.options[OptionOf(app, Long, name).value], 1)
    ensures var i := OptionOf(app, Long, name).value;
      var st' := Parsed(st.results[i := st.results[i] + [v]], st.order + [i], st.missing);
      && ParseSingle(app, st, args + [v] + ["--" + name], false) == Outcome(st', args, None)
      && Fits(app, st')
      && Run(app, st, args + [v] + ["--" + name], false) == Run(app, st', args, false)
  {
    var i := OptionOf(app, Long, name).value;
    var top := "--" + name;
    assert top[2..] == name;
    SplitNamed(name, '=', "");
    ParsedLong(app, st, args + [v], top, name, "");
    NotSeparated(app, st, i);
    OneTaken(app, st, i, name, args, v);
    RunStep(app, st, args + [v], top, ParseSingle(app, st, args + [v] + [top], false));
  }

  lemma OneTaken(app: App, st: Parsed, i: nat, name: string, args: seq<string>, v: string)
    requires Fits(app, st) && i < |app.options| && Fixed(app.options[i], 1)
    ensures GiveOption(app, st, i, name, "", "", args + [v]) ==
            Outcome(Parsed(st.results[i := st.results[i] + [v]], st.order + [i], st.missing), args, None)
  {
    FixedTakes(app, st, i, name, args + [v], 1);
    assert TopDown(args + [v], 1) == [v];
    assert seq(1, _ => i) == [i];
    assert (args + [v])[..|args + [v]| - 1] == args;
  }

  // The same for -x v.
  lemma OneValueShort(app: App, st: Parsed, args: seq<string>, x: char, v: string)
    requires Fits(app, st) && ValidFirst(x)
    requires OptionOf(app, Short, [x]).Some? && Fixed(app.options[OptionOf(app, Short, [x]).value], 1)
    ensures var i := OptionOf(app, Short, [x]).value;
      var st' := Parsed(st.results[i := st.results[i] + [v]], st.order + [i], st.missing);
      && ParseSingle(app, st, args + [v] + [['-', x]], false) == Outcome(st', args, None)
      && Fits(app, st')
      && Run(app, st, args + [v] + [['-', x]], false) == Run(app, st', args, false)
  {
    var i := OptionOf(app, Short, [x]).value;
    var top := ['-', x];
    assert top + "" == top;
    ParsedShort(app, st, args + [v], x, "");
    NotSeparated(app, st, i);
    OneTaken(app, st, i, [x], args, v);
    RunStep(app, st, args + [v], top, ParseSingle(app, st, args + [v] + [top], false));
  }

  // ---------- optional values ----------

  predicate Wanted(app: App, i: nat, t: Taken, needed: nat)
    requires i < |app.options|
  {
    var o := app.options[i];
    && (o.extraArgs || t.collected < MaxNum(o))
    && |t.args| > needed
    && var text := t.args[|t.args| - 1];
       && Recognize(app, text) == NoOption
       && (app.validateOptionals && !(text == "" && o.expectedMin == 0) ==> o.check(text))
  }

  lemma TakeMoreStep(app: App, i: nat, t: Taken, needed: nat)
    requires Fits(app, t.st) && i < |app.options|
    ensures TakeMore(app, i, t, needed) == if Wanted(app, i, t, needed) then TakeMore(app, i, Take(app, i, t), needed) else t
  {
  }

  lemma {:induction false} TakeMoreAlong(app: App, i: nat, t: Taken, needed: nat, n: nat)
    requires Fits(app, t.st) && i < |app.options| && n <= |t.args|
    requires forall m :: 0 <= m < n ==> Wanted(app, i, Several(app, i, t, m), needed)
    ensures TakeMore(app, i, t, needed) == TakeMore(app, i, Several(app, i, t, n), needed)
  {
    if n > 0 {
      TakeMoreAlong(app, i, t, needed, n - 1);
      TakeMoreStep(app, i, Several(app, i, t, n - 1), needed);
    }
  }

  // Optional arguments are taken one by one exactly as long as there is room for another, there
  // is another, it is no option, the positional options can spare it, and the validators accept it.
  lemma TakeMoreCount(app: App, i: nat, t: Taken, needed: nat, n: nat)
    requires Fits(app, t.st) && i < |app.options| && n <= |t.args|
    requires forall m :: 0 <= m < n ==> Wanted(app, i, Several(app, i, t, m), needed)
    requires !Wanted(app, i, Several(app, i, t, n), needed)
    ensures TakeMore(app, i, t, needed) == Several(app, i, t, n)
  {
    TakeMoreAlong(app, i, t, needed, n);
    TakeMoreStep(app, i, Several(app, i, t, n), needed);
  }

  lemma {:induction false} SeveralSum(app: App, i: nat, t: Taken, a: nat, b: nat)
    requires Fits(app, t.st) && i < |app.options| && a + b <= |t.args|
    ensures Several(app, i, Several(app, i, t, a), b) == Several(app, i, t, a + b)
  {
    if b > 0 {
      SeveralSum(app, i, t, a, b - 1);
      assert Several(app, i, t, a + b) == Take(app, i, Several(app, i, t, a + (b - 1)));
    }
  }

  predicate IsVector(o: Opt) {
    && o.typeMin == o.typeMax == 1 && o.expectedMin == 1 && o.expectedMax == 536870912
    && o.extraArgs && o.delimiter.None? && !o.injectSeparator
  }

  lemma VectorNumbers(o: Opt)
    requires IsVector(o)
    ensures MinNum(o) == 1 && MaxNum(o) == 536870912
  {
    MostIs(o);
    LeastIs(o);
  }

  // The n arguments from the top are plain ones, and what is below them starts an option.
  predicate PlainRun(app: App, args: seq<string>, n: nat) {
    && 0 < n <= |args|
    && (forall k :: |args| - n <= k < |args| ==> args[k] == "" || args[k][0] != '[')
    && (forall k :: |args| - n <= k < |args| - 1 ==> Recognize(app, args[k]) == NoOption)
    && (n < |args| ==> Recognize(app, args[|args| - n - 1]) == Short || Recognize(app, args[|args| - n - 1]) == Long)
  }

  lemma VectorWants(app: App, i: nat, t: Taken, n: nat, m: nat)
    requires Fits(app, t.st) && i < |app.options| && app.options[i].extraArgs
    requires PlainRun(app, t.args, n) && !app.validateOptionals && 0 < m <= n
    ensures Wanted(app, i, Several(app, i, t, m), 0) <==> m < n
  {
    var left := Several(app, i, t, m).args;
    assert |left| == |t.args| - m && (left != [] ==> left[|left| - 1] == t.args[|t.args| - m - 1]);
  }

  lemma OneThenMore(app: App, i: nat, t: Taken, n: nat, m: nat)
    requires Fits(app, t.st) && i < |app.options| && app.options[i].extraArgs
    requires PlainRun(app, t.args, n) && !app.validateOptionals && m < n
    ensures Wanted(app, i, Several(app, i, Several(app, i, t, 1), m), 0) <==> m < n - 1
  {
    SeveralSum(app, i, t, 1, m);
    VectorWants(app, i, t, n, m + 1);
  }

  lemma VectorMore(app: App, i: nat, t: Taken, n: nat)
    requires Fits(app, t.st) && i < |app.options| && app.options[i].extraArgs
    requires PlainRun(app, t.args, n) && !app.validateOptionals
    ensures TakeMore(app, i, Several(app, i, t, 1), 0) == Several(app, i, t, n)
  {
    var least := Several(app, i, t, 1);
    forall m | 0 <= m <= n - 1 ensures Wanted(app, i, Several(app, i, least, m), 0) <==> m < n - 1 {
      OneThenMore(app, i, t, n, m);
    }
    TakeMoreCount(app, i, least, 0, n - 1);
    SeveralSum(app, i, t, 1, n - 1);
  }

  lemma NothingInline(app: App, st: Parsed, i: nat, name: string, args: seq<string>)
    requires Fits(app, st) && i < |app.options| && MaxNum(app.options[i]) > 0
    ensures GiveOption(app, st, i, name, "", "", args) == TakeAll(app, i, name, "", Taken(st, args, 0))
  {
  }

  lemma VectorSteps(app: App, i: nat, t: Taken, n: nat)
    requires Fits(app, t.st) && i < |app.options| && IsVector(app.options[i]) && t.collected == 0
    requires PlainRun(app, t.args, n) && !app.validateOptionals
    ensures TakeMin(app, i, t) == Several(app, i, t, 1)
    ensures Several(app, i, t, 1).collected == 1 && Several(app, i, t, 1).st == Given(t.st, i, TopDown(t.args, 1))
    ensures TakeMore(app, i, Several(app, i, t, 1), 0).st == Given(t.st, i, TopDown(t.args, n))
    ensures TakeMore(app, i, Several(app, i, t, 1), 0).args == t.args[..|t.args| - n]
  {
    VectorNumbers(app.options[i]);
    forall k | |t.args| - n <= k < |t.args| ensures Values(app.options[i], t.args[k]) == [t.args[k]] {}
    SeveralGives(app, i, t, 1);
    TakeMinCount(app, i, t, 1);
    VectorMore(app, i, t, n);
    SeveralGives(app, i, t, n);
  }

  // An option of one or more values, as many as there are: the first argument after its name,
  // and all others up to the next option.
  lemma VectorTakes(app: App, st: Parsed, i: nat, name: string, args: seq<string>, n: nat)
    requires Fits(app, st) && i < |app.options| && IsVector(app.options[i])
    requires PlainRun(app, args, n) && !app.validateOptionals
    requires var one := Given(st, i, TopDown(args, 1)); Fits(app, one) && Needed(app, one) == 0
    ensures GiveOption(app, st, i, name, "", "", args) ==
            Outcome(Given(st, i, TopDown(args, n)), args[..|args| - n], None)
  {
    var t := Taken(st, args, 0);
    VectorNumbers(app.options[i]);
    VectorSteps(app, i, t, n);
    NothingInline(app, st, i, name, args);
    VectorDone(app, i, name, t, Several(app, i, t, 1), TakeMore(app, i, Several(app, i, t, 1), 0));
  }

  lemma VectorDone(app: App, i: nat, name: string, t: Taken, least: Taken, most: Taken)
    requires Fits(app, t.st) && i < |app.options| && IsVector(app.options[i])
    requires TakeMin(app, i, t) == least && least.collected == 1
    requires Fits(app, least.st) && Needed(app, least.st) == 0 && TakeMore(app, i, least, 0) == most
    requires most.args == [] || Last(most.args) != "--"
    ensures TakeAll(app, i, name, "", t) == Outcome(most.st, most.args, None)
  {
    VectorNumbers(app.options[i]);
  }

  // ---------- incomplete values ----------

  // What is collected must be whole occurrences of the type: if its size is fixed, a part of one
  // is an error, and otherwise an empty result marks where it ends.
  lemma PartIsError(app: App, i: nat, name: string, t: Taken)
    requires Fits(app, t.st) && i < |app.options|
    requires var o := app.options[i]; o.typeMin > 0 && o.expectedMin > 0 && WellSet(o)
    requires TakeMin(app, i, t).collected >= app.options[i].typeMin
    ensures var o := app.options[i]; var most := TakeOptional(app, i, name, TakeMin(app, i, t));
      && (most.collected % o.typeMax == 0 ==> TakeAll(app, i, name, "", t) == Outcome(most.st, most.args, None))
      && (most.collected % o.typeMax != 0 && o.typeMin == o.typeMax ==>
            TakeAll(app, i, name, "", t) == Outcome(most.st, most.args, Some(PartialType)))
      && (most.collected % o.typeMax != 0 && o.typeMin < o.typeMax ==>
            TakeAll(app, i, name, "", t) ==
            Outcome(Parsed(most.st.results[i := most.st.results[i] + [""]], most.st.order, most.st.missing), most.args, None))
  {
    LeastIs(app.options[i]);
    assert Values(app.options[i], "") == [""];
  }
}
