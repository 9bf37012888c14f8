/**
 * Worked command lines run through the tokenizer: the exact positionals and
 * option lists the code collects for each.
 */
module TokenScenarios {
  import opened Wrappers
  import opened Errors
  import opened Strings
  import opened Inputs

  // ---------------------------------------------------------------------
  // `app build --output=2 -v src/`

  const BUILD_INPUT: Input := Input(["build", "--output=2", "-v", "src/"],
    Parsed(["build"], map["output" := []], map["v" := ["src/"]]))

  /**
   * `--output=2` registers `output` with no value (the `=2` is dropped) and
   * `src/` attaches to the last option token `-v` instead of becoming a
   * positional.
   */
  lemma BuildCommandLineParse()
    ensures Parse(["build", "--output=2", "-v", "src/"]) == Ok(BUILD_INPUT)
  {
    var tokens := ["build", "--output=2", "-v", "src/"];
    var p1 := Parsed(["build"], map[], map[]);
    var p2 := Parsed(["build"], map["output" := []], map[]);
    BuildHead(p1, p2);
    BuildTail(p2);
    assert tokens[2..] == ["-v", "src/"];
    assert Fold(Attach(Long("output")), p2, tokens[2..]) == Ok(BUILD_INPUT.parsed);
    assert Fold(Positional, p1, tokens[1..]) == Ok(BUILD_INPUT.parsed);
  }

  /** `build --output=2`: a positional, then the long option without its value. */
  lemma BuildHead(p1: Parsed, p2: Parsed)
    requires p1 == Parsed(["build"], map[], map[])
    requires p2 == Parsed(["build"], map["output" := []], map[])
    ensures Step(Positional, EMPTY, "build") == Ok((Positional, p1))
    ensures Step(Positional, p1, "--output=2") == Ok((Attach(Long("output")), p2))
  {
    assert EMPTY.parameters + ["build"] == ["build"];
    assert "build"[..1] == "b";
    OutputValueDropped(p1);
    LongOutput(p1, p2);
  }

  lemma OutputValueDropped(p1: Parsed)
    ensures Step(Positional, p1, "--output=2") == Step(Positional, p1, "--output")
  {
    OutputValueDroppedSpelled(p1);
    OutputSpelling();
  }

  lemma OutputValueDroppedSpelled(p1: Parsed)
    ensures Step(Positional, p1, "--" + "output" + "=" + "2") == Step(Positional, p1, "--" + "output")
  {
    LongValueDiscarded(Positional, p1, "output", "2");
  }

  lemma OutputSpelling()
    ensures "--output=2" == "--" + "output" + "=" + "2"
    ensures "--output" == "--" + "output"
  {
  }

  lemma LongOutput(p1: Parsed, p2: Parsed)
    requires p1 == Parsed(["build"], map[], map[])
    requires p2 == Parsed(["build"], map["output" := []], map[])
    ensures Step(Positional, p1, "--output") == Ok((Attach(Long("output")), p2))
  {
    LongOptionStep(Positional, p1, "output");
    OutputSpelling();
  }

  /** `-v src/` after `--output`: the value goes to `v`. */
  lemma BuildTail(p2: Parsed)
    requires p2 == Parsed(["build"], map["output" := []], map[])
    ensures Fold(Attach(Long("output")), p2, ["-v", "src/"]) == Ok(BUILD_INPUT.parsed)
  {
    var p3 := Parsed(["build"], map["output" := []], map["v" := []]);
    ShortV(p2, p3);
    AttachSource(p3);
  }

  lemma ShortV(p2: Parsed, p3: Parsed)
    requires p2 == Parsed(["build"], map["output" := []], map[])
    requires p3 == Parsed(["build"], map["output" := []], map["v" := []])
    ensures Step(Attach(Long("output")), p2, "-v") == Ok((Attach(Short("v")), p3))
  {
    var t := "-v";
    assert t[..1] == "-" && t[..2] == "-v" && t[1..] == "v";
    assert "v"[..0] == "" && ["v"[0]] == "v";
    assert RegisterLetters(map[], "") == map[];
  }

  lemma AttachSource(p3: Parsed)
    requires p3 == Parsed(["build"], map["output" := []], map["v" := []])
    ensures Fold(Attach(Short("v")), p3, ["src/"]) == Ok(BUILD_INPUT.parsed)
  {
    var p4 := Parsed(["build"], map["output" := []], map["v" := ["src/"]]);
    assert "src/"[..1] == "s";
    assert p3.shortOptions["v"] + ["src/"] == ["src/"];
    assert AttachValue(p3, Short("v"), "src/") == p4;
    assert Step(Attach(Short("v")), p3, "src/") == Ok((Attach(Short("v")), p4));
    assert Fold(Attach(Short("v")), p4, ["src/"][1..]) == Ok(p4);
  }

  // ---------------------------------------------------------------------
  // `app -abc val`

  const STACK_INPUT: Input := Input(["-abc", "val"], Parsed([], map[], map["a" := [], "b" := [], "c" := ["val"]]))

  /**
   * Stacked shortcuts register every letter; only the last one takes the
   * following value.
   */
  lemma StackedShortcutsParse()
    ensures Parse(["-abc", "val"]) == Ok(STACK_INPUT)
  {
    var p1 := Parsed([], map[], map["a" := [], "b" := [], "c" := []]);
    var p2 := STACK_INPUT.parsed;
    StackLetters(p1);
    StackValue(p1, p2);
    var tokens := ["-abc", "val"];
    assert Fold(Attach(Short("c")), p2, tokens[2..]) == Ok(p2);
    assert Fold(Attach(Short("c")), p1, tokens[1..]) == Ok(p2);
  }

  /** `-abc` registers `a`, `b` and `c`, and leaves `c` as the target. */
  lemma StackLetters(p1: Parsed)
    requires p1 == Parsed([], map[], map["a" := [], "b" := [], "c" := []])
    ensures Step(Positional, EMPTY, "-abc") == Ok((Attach(Short("c")), p1))
  {
    var t := "-abc";
    assert t[..1] == "-" && t[..2] == "-a";
    assert t[1..] == "abc" && "abc"[..2] == "ab" && ["abc"[2]] == "c";
    LettersRegistered();
  }

  lemma LettersRegistered()
    ensures Register(RegisterLetters(map[], "ab"), "c") == map["a" := [], "b" := [], "c" := []]
  {
    assert "ab"[..1] == "a" && "a"[..0] == "";
    assert ["ab"[1]] == "b" && ["a"[0]] == "a";
    var m2 := map["b" := [], "a" := []];
    assert RegisterLetters(m2, "") == m2;
    assert RegisterLetters(map["b" := []], "a") == m2;
  }

  /** `val` goes to `c`. */
  lemma StackValue(p1: Parsed, p2: Parsed)
    requires p1 == Parsed([], map[], map["a" := [], "b" := [], "c" := []])
    requires p2 == Parsed([], map[], map["a" := [], "b" := [], "c" := ["val"]])
    ensures Step(Attach(Short("c")), p1, "val") == Ok((Attach(Short("c")), p2))
  {
    assert "val"[..1] == "v";
    assert p1.shortOptions["c"] + ["val"] == ["val"];
    assert AttachValue(p1, Short("c"), "val") == p2;
  }

  // ---------------------------------------------------------------------
  // `app -- --not-an-option`

  const REST_INPUT: Input := Input(["--", "--not-an-option"], Parsed(["--not-an-option"], map[], map[]))

  /** After `--` an option-looking token is a positional. */
  lemma MarkerThenOption()
    ensures Parse(["--", "--not-an-option"]) == Ok(REST_INPUT)
  {
    var p1 := REST_INPUT.parsed;
    assert EMPTY.parameters + ["--not-an-option"] == ["--not-an-option"];
    assert Step(Positional, EMPTY, "--") == Ok((AfterMarker, EMPTY));
    assert Step(AfterMarker, EMPTY, "--not-an-option") == Ok((AfterMarker, p1));
    var tokens := ["--", "--not-an-option"];
    assert Fold(AfterMarker, p1, tokens[2..]) == Ok(p1);
    assert Fold(AfterMarker, EMPTY, tokens[1..]) == Ok(p1);
  }

  // ---------------------------------------------------------------------
  // `app x`

  const SINGLE_INPUT: Input := Input(["x"], Parsed(["x"], map[], map[]))

  lemma SinglePositional()
    ensures Parse(["x"]) == Ok(SINGLE_INPUT)
  {
    var p1 := SINGLE_INPUT.parsed;
    assert "x"[..1] == "x";
    assert EMPTY.parameters + ["x"] == ["x"];
    assert Step(Positional, EMPTY, "x") == Ok((Positional, p1));
    assert Fold(Positional, p1, ["x"][1..]) == Ok(p1);
  }

  // ---------------------------------------------------------------------
  // `clone(1)` after a leading `--`

  /**
   * The application takes the first positional as the command name and hands
   * the command `clone(1)`, which drops the first RAW token. When that token
   * is `--`, the command name stays among the command's positionals.
   */
  lemma CloneAfterMarkerKeepsName()
    ensures Parse(["--", "build", "arg"]) == Ok(Input(["--", "build", "arg"], Parsed(["build", "arg"], map[], map[])))
    ensures Clone(Parse(["--", "build", "arg"]).value, 1) == Ok(Input(["build", "arg"], Parsed(["build", "arg"], map[], map[])))
  {
    var tokens := ["--", "build", "arg"];
    var p1 := Parsed(["build"], map[], map[]);
    var p2 := Parsed(["build", "arg"], map[], map[]);
    assert EMPTY.parameters + ["build"] == ["build"];
    assert ["build"] + ["arg"] == ["build", "arg"];
    assert "build"[..1] == "b" && "arg"[..1] == "a";
    assert Step(Positional, EMPTY, "--") == Ok((AfterMarker, EMPTY));
    assert Step(AfterMarker, EMPTY, "build") == Ok((AfterMarker, p1));
    assert Step(AfterMarker, p1, "arg") == Ok((AfterMarker, p2));
    assert Fold(AfterMarker, p2, tokens[3..]) == Ok(p2);
    assert Fold(AfterMarker, p1, tokens[2..]) == Ok(p2);
    assert Fold(AfterMarker, EMPTY, tokens[1..]) == Ok(p2);
    assert Fold(Positional, EMPTY, tokens) == Ok(p2);
    var rest := ["build", "arg"];
    assert Slice(tokens, 1) == rest;
    assert Step(Positional, EMPTY, "build") == Ok((Positional, p1));
    assert Step(Positional, p1, "arg") == Ok((Positional, p2));
    assert Fold(Positional, p2, rest[2..]) == Ok(p2);
    assert Fold(Positional, p1, rest[1..]) == Ok(p2);
    assert Fold(Positional, EMPTY, rest) == Ok(p2);
  }
}
