/**
 Command lines on which writing together and writing apart differ.
 */
module ArgumentExamples {
  import opened Wrappers
  import opened ArgumentModel
  import opened ArgumentTheorems

  // A flag with extra arguments, a plain flag, and an option whose value may be left out.
  const GreedyF: Opt := Opt(["f"], [], "", [], [], "", false, false, false, false, true, true, false, 0, 0, 0, 0, None, _ => true)
  const PlainG: Opt := Opt(["g"], [], "", [], [], "", false, false, false, false, false, true, false, 0, 0, 0, 0, None, _ => true)
  const OptionalX: Opt := Opt([], ["x"], "", [], [], "d", false, false, false, false, false, false, false, 1, 1, 0, 1, None, _ => true)

  const FlagApp: App := App([GreedyF, PlainG], false, false, false, false, false)
  const ValueApp: App := App([OptionalX], false, false, false, false, false)

  function Fresh(app: App): Parsed {
    Parsed(seq(|app.options|, _ => []), [], [])
  }

  // One plain value given to option i.
  function Gave(st: Parsed, i: nat, text: string): (r: Parsed)
    requires i < |st.results|
    ensures |r.results| == |st.results|
  {
    Parsed(st.results[i := st.results[i] + [text]], st.order + [i], st.missing)
  }

  lemma OneValue(app: App, st: Parsed, i: nat, text: string)
    requires Fits(app, st) && i < |app.options| && app.options[i].delimiter.None? && (text != "" ==> text[0] != '[')
    ensures Give(app, st, i, text) == Gave(st, i, text) && |Values(app.options[i], text)| == 1
  {
  }

  lemma FlagsFit(st: Parsed)
    requires |st.results| == 2
    ensures Fits(FlagApp, st)
    ensures OptionOf(FlagApp, Short, "f") == Some(0) && OptionOf(FlagApp, Short, "g") == Some(1)
    ensures Needed(FlagApp, st) == 0
  {
    assert FindOption(FlagApp.options, Short, "f", 0) == Some(0);
    assert !Called(FlagApp.options[0], Short, "g") && Called(FlagApp.options[1], Short, "g");
    assert FindOption(FlagApp.options, Short, "g", 1) == Some(1);
    assert Remaining(FlagApp, st, true, 0) == 0 && Remaining(FlagApp, st, true, 1) == 0;
  }

  // -f takes x for itself if x is still next when -f is read.
  lemma GreedyStep(st: Parsed, args: seq<string>, rest: string)
    requires |st.results| == 2
    ensures Fits(FlagApp, st)
    ensures var left := FlagLeft(FlagApp, 0, Give(FlagApp, st, 0, "true"), args);
      ParseSingle(FlagApp, st, args + [['-', 'f'] + rest], false) ==
      Outcome(left.st, if rest == "" then left.args else left.args + ["-" + rest], None)
    ensures !OnlyPositionals(FlagApp, args + [['-', 'f'] + rest], false)
  {
    FlagsFit(st);
    assert ['f'] == "f";
    ParsedShort(FlagApp, st, args, 'f', rest);
    FlagTakes(FlagApp, 0, "f", rest, Give(FlagApp, st, 0, "true"), args);
  }

  lemma PlainStep(st: Parsed, args: seq<string>)
    requires |st.results| == 2
    ensures Fits(FlagApp, st)
    ensures ParseSingle(FlagApp, st, args + ["-g"], false) == Outcome(Give(FlagApp, st, 1, "true"), args, None)
    ensures !OnlyPositionals(FlagApp, args + ["-g"], false)
  {
    FlagsFit(st);
    assert ['g'] == "g" && ['-', 'g'] + "" == "-g";
    ParsedShort(FlagApp, st, args, 'g', "");
    FlagTakes(FlagApp, 1, "g", "", Give(FlagApp, st, 1, "true"), args);
  }

  lemma WordIsMissed(st: Parsed)
    requires |st.results| == 2
    ensures Fits(FlagApp, st)
    ensures Run(FlagApp, st, ["x"], false) == Outcome(Miss(st, NoOption, "x"), [], None)
  {
    FlagsFit(st);
    assert FirstOpen(FlagApp, st, false, "x", 0).None? by {
      assert FirstOpen(FlagApp, st, false, "x", 2).None?;
      assert FirstOpen(FlagApp, st, false, "x", 1).None?;
    }
    assert ParseSingle(FlagApp, st, ["x"], false) == Outcome(Miss(st, NoOption, "x"), [], None);
    assert Run(FlagApp, Miss(st, NoOption, "x"), [], false) == Outcome(Miss(st, NoOption, "x"), [], None);
  }

  lemma TogetherStep(st: Parsed)
    requires |st.results| == 2
    ensures Fits(FlagApp, st)
    ensures ParseSingle(FlagApp, st, ["x"] + ["-fg"], false) ==
            Outcome(Gave(Gave(st, 0, "true"), 0, "x"), [] + ["-g"], None)
    ensures !OnlyPositionals(FlagApp, ["x"] + ["-fg"], false)
  {
    FlagsFit(st);
    GreedyStep(st, ["x"], "g");
    assert ['-', 'f'] + "g" == "-fg" && "-" + "g" == "-g";
    OneValue(FlagApp, st, 0, "true");
    var st1 := Gave(st, 0, "true");
    FlagsFit(st1);
    GreedyTakes(st1);
  }

  lemma GreedyTakes(st: Parsed)
    requires |st.results| == 2
    ensures Fits(FlagApp, st)
    ensures FlagLeft(FlagApp, 0, st, ["x"]) == Taken(Gave(st, 0, "x"), [], 1)
  {
    FlagsFit(st);
    OneValue(FlagApp, st, 0, "x");
    var t := Taken(st, ["x"], 0);
    assert Last(["x"]) == "x" && Front(["x"]) == [];
    assert MayTake(FlagApp, 0, t, 0);
    assert TakeMore(FlagApp, 0, Take(FlagApp, 0, t), 0) == Take(FlagApp, 0, t);
  }

  lemma PlainRun(st: Parsed, args: seq<string>)
    requires |st.results| == 2
    ensures Fits(FlagApp, st) && Fits(FlagApp, Gave(st, 1, "true"))
    ensures Run(FlagApp, st, args + ["-g"], false) == Run(FlagApp, Gave(st, 1, "true"), args, false)
  {
    FlagsFit(st);
    PlainStep(st, args);
    OneValue(FlagApp, st, 1, "true");
    RunStep(FlagApp, st, args, "-g", Outcome(Give(FlagApp, st, 1, "true"), args, None));
  }

  // -fg x gives x to -f.
  lemma TogetherTakes(st: Parsed)
    requires |st.results| == 2
    ensures Fits(FlagApp, st)
    ensures Run(FlagApp, st, ["x"] + ["-fg"], false) ==
            Outcome(Gave(Gave(Gave(st, 0, "true"), 0, "x"), 1, "true"), [], None)
  {
    var st2 := Gave(Gave(st, 0, "true"), 0, "x");
    TogetherStep(st);
    RunStep(FlagApp, st, ["x"], "-fg", Outcome(st2, [] + ["-g"], None));
    PlainRun(st2, []);
  }

  lemma ApartStep(st: Parsed)
    requires |st.results| == 2
    ensures Fits(FlagApp, st)
    ensures ParseSingle(FlagApp, st, ["x"] + ["-g"] + ["-f"], false) ==
            Outcome(Gave(st, 0, "true"), ["x"] + ["-g"], None)
    ensures !OnlyPositionals(FlagApp, ["x"] + ["-g"] + ["-f"], false)
  {
    FlagsFit(st);
    GreedyStep(st, ["x"] + ["-g"], "");
    assert ['-', 'f'] + "" == "-f";
    OneValue(FlagApp, st, 0, "true");
    var st1 := Gave(st, 0, "true");
    FlagsFit(st1);
    assert Recognize(FlagApp, "-g") == Short;
    var t := Taken(st1, ["x"] + ["-g"], 0);
    assert Last(t.args) == "-g";
    assert FlagLeft(FlagApp, 0, st1, t.args) == t;
  }

  // -f -g x does not.
  lemma ApartMisses(st: Parsed)
    requires |st.results| == 2
    ensures Fits(FlagApp, st)
    ensures Run(FlagApp, st, ["x"] + ["-g"] + ["-f"], false) ==
            Outcome(Miss(Gave(Gave(st, 0, "true"), 1, "true"), NoOption, "x"), [], None)
  {
    var st1 := Gave(st, 0, "true");
    ApartStep(st);
    RunStep(FlagApp, st, ["x"] + ["-g"], "-f", Outcome(st1, ["x"] + ["-g"], None));
    PlainRun(st1, ["x"]);
    WordIsMissed(Gave(st1, 1, "true"));
  }

  // From the start: x is a value of -f, or left over.
  lemma FlagsDiffer()
    ensures Fits(FlagApp, Fresh(FlagApp))
    ensures var a := Run(FlagApp, Fresh(FlagApp), ["x"] + ["-fg"], false);
      a.err.None? && |a.st.results| == 2 && a.st.results[0] == ["true", "x"] && a.st.missing == []
    ensures var b := Run(FlagApp, Fresh(FlagApp), ["x"] + ["-g"] + ["-f"], false);
      b.err.None? && |b.st.results| == 2 && b.st.results[0] == ["true"] && b.st.missing == [(NoOption, "x")]
  {
    TogetherTakes(Fresh(FlagApp));
    ApartMisses(Fresh(FlagApp));
  }

  // ---------- an optional value ----------

  lemma ValuesFit(st: Parsed)
    requires |st.results| == 1
    ensures Fits(ValueApp, st) && OptionOf(ValueApp, Long, "x") == Some(0) && Needed(ValueApp, st) == 0
    ensures MinNum(OptionalX) == 0 && MaxNum(OptionalX) == 1
    ensures OptionOf(ValueApp, Short, "v").None?
  {
    assert Remaining(ValueApp, st, true, 0) == 0;
    assert FindOption(ValueApp.options, Short, "v", 1).None?;
  }

  lemma UnknownIsMissed(st: Parsed)
    requires |st.results| == 1
    ensures Fits(ValueApp, st)
    ensures Run(ValueApp, st, ["-v"], false) == Outcome(Miss(st, Short, "-v"), [], None)
  {
    ValuesFit(st);
    assert "-v"[1..2] == "v";
    assert Recognize(ValueApp, "-v") == Short;
    assert ParseSingle(ValueApp, st, ["-v"], false) == Outcome(Miss(st, Short, "-v"), [], None);
    assert Run(ValueApp, Miss(st, Short, "-v"), [], false) == Outcome(Miss(st, Short, "-v"), [], None);
  }

  // --x=-v gives -v to --x;
  lemma OptionalTogether(st: Parsed)
    requires |st.results| == 1
    ensures Fits(ValueApp, st)
    ensures Run(ValueApp, st, [] + ["--x=-v"], false) == Outcome(Gave(st, 0, "-v"), [], None)
  {
    ValuesFit(st);
    assert "--x=-v"[2..] == "x" + ['='] + "-v";
    SplitNamed("x", '=', "-v");
    ParsedLong(ValueApp, st, [], "--x=-v", "x", "-v");
    var st1 := Gave(st, 0, "-v");
    OneValue(ValueApp, st, 0, "-v");
    ValuesFit(st1);
    OptionalTakes(ValueApp, 0, "x", Taken(st1, [], 1));
    RunStep(ValueApp, st, [], "--x=-v", Outcome(st1, [], None));
  }

  // --x -v gives it its default, and -v is an unknown option.
  lemma OptionalApartStep(st: Parsed)
    requires |st.results| == 1
    ensures Fits(ValueApp, st)
    ensures ParseSingle(ValueApp, st, ["-v"] + ["--x"], false) == Outcome(Gave(st, 0, "d"), ["-v"], None)
    ensures !OnlyPositionals(ValueApp, ["-v"] + ["--x"], false)
  {
    ValuesFit(st);
    assert "--x"[2..] == "x";
    SplitNamed("x", '=', "");
    ParsedLong(ValueApp, st, ["-v"], "--x", "x", "");
    OneValue(ValueApp, st, 0, "d");
    assert "-v"[1..2] == "v" && Recognize(ValueApp, "-v") == Short;
    assert FlagValue(OptionalX, "x", "") == Success("d");
    OptionalTakes(ValueApp, 0, "x", Taken(st, ["-v"], 0));
  }

  lemma OptionalApart(st: Parsed)
    requires |st.results| == 1
    ensures Fits(ValueApp, st)
    ensures Run(ValueApp, st, ["-v"] + ["--x"], false) == Outcome(Miss(Gave(st, 0, "d"), Short, "-v"), [], None)
  {
    OptionalApartStep(st);
    RunStep(ValueApp, st, ["-v"], "--x", Outcome(Gave(st, 0, "d"), ["-v"], None));
    UnknownIsMissed(Gave(st, 0, "d"));
  }

  // From the start: -v is the value of --x, or an unknown option beside its default.
  lemma ValuesDiffer()
    ensures Fits(ValueApp, Fresh(ValueApp))
    ensures var a := Run(ValueApp, Fresh(ValueApp), [] + ["--x=-v"], false);
      a.err.None? && |a.st.results| == 1 && a.st.results[0] == ["-v"] && a.st.missing == []
    ensures var b := Run(ValueApp, Fresh(ValueApp), ["-v"] + ["--x"], false);
      b.err.None? && |b.st.results| == 1 && b.st.results[0] == ["d"] && b.st.missing == [(Short, "-v")]
  {
    OptionalTogether(Fresh(ValueApp));
    OptionalApart(Fresh(ValueApp));
  }
}
