/**
 * A direct transcription of `Input`'s mutually recursive parser: each
 * routine consumes from the shared token queue and hands back what is left,
 * as `parse`, `parseNotArgument`, `parseLongOption`, `parseShortOption`,
 * `parseOption` and `parseParameters` do with `$this->parsing`. It is proved
 * equal to the fold in `Inputs`.
 */
module InputRecursion {
  import opened Wrappers
  import opened Errors
  import opened Strings
  import opened Inputs

  /** The queue that is left, and what has been collected. */
  datatype Progress = Progress(rest: seq<string>, parsed: Parsed)

  /** `parse()`: the outer loop. */
  function ParseLoop(queue: seq<string>, p: Parsed): Result<Parsed>
    decreases |queue|
  {
    if queue == [] then Ok(p)
    else
      var token := queue[0];
      if StartsWith(token, "-") then
        var r := NotArgument(token, queue[1..], p);
        if r.Err? then Err(r.error) else ParseLoop(r.value.rest, r.value.parsed)
      else ParseLoop(queue[1..], p.(parameters := p.parameters + [token]))
  }

  /** `parseNotArgument(token)` */
  function NotArgument(token: string, queue: seq<string>, p: Parsed): (r: Result<Progress>)
    requires StartsWith(token, "-")
    ensures r.Ok? ==> |r.value.rest| <= |queue|
    decreases |queue|, 3
  {
    if StartsWith(token, "--") then
      if token == "--" then ParametersLoop(queue, p) else LongOption(token[2..], queue, p)
    else ShortOption(token[1..], queue, p)
  }

  /** `parseLongOption(name)`: the `=value` part goes to a local array and is lost. */
  function LongOption(name: string, queue: seq<string>, p: Parsed): (r: Result<Progress>)
    ensures r.Ok? ==> |r.value.rest| <= |queue|
    decreases |queue|, 2
  {
    var n := if '=' in name then BeforeFirst(name, '=') else name;
    ParseOption(Long(n), queue, p)
  }

  /** The `for ($i = $end - 1; $i >= 0; $i--)` loop of `parseShortOption`. */
  function RegisterDown(m: map<string, seq<string>>, name: string, i: int): map<string, seq<string>>
    requires i < |name|
    decreases i + 1
  {
    if i < 0 then m else RegisterDown(Register(m, [name[i]]), name, i - 1)
  }

  /** `parseShortOption(name)` */
  function ShortOption(name: string, queue: seq<string>, p: Parsed): (r: Result<Progress>)
    ensures r.Ok? ==> |r.value.rest| <= |queue|
    decreases |queue|, 2
  {
    if name == "" then Err(EmptyShortcut)
    else
      var end := |name| - 1;
      if end > 0 then
        ParseOption(Short([name[end]]), queue, p.(shortOptions := RegisterDown(p.shortOptions, name, end - 1)))
      else ParseOption(Short(name), queue, p)
  }

  /** `parseOption(name, &options)`: register the name, then run its loop. */
  function ParseOption(t: Target, queue: seq<string>, p: Parsed): (r: Result<Progress>)
    ensures r.Ok? ==> |r.value.rest| <= |queue|
    decreases |queue|, 1
  {
    var p' := match t
      case Long(n) => p.(longOptions := Register(p.longOptions, n))
      case Short(c) => p.(shortOptions := Register(p.shortOptions, c));
    OptionLoop(t, queue, p')
  }

  /** The `while` loop of `parseOption`. */
  function OptionLoop(t: Target, queue: seq<string>, p: Parsed): (r: Result<Progress>)
    ensures r.Ok? ==> |r.value.rest| <= |queue|
    decreases |queue|, 0
  {
    if queue == [] then Ok(Progress([], p))
    else
      var token := queue[0];
      if StartsWith(token, "-") then
        var r := NotArgument(token, queue[1..], p);
        if r.Err? then Err(r.error) else OptionLoop(t, r.value.rest, r.value.parsed)
      else OptionLoop(t, queue[1..], AttachValue(p, t, token))
  }

  /** `parseParameters()` */
  function ParametersLoop(queue: seq<string>, p: Parsed): (r: Result<Progress>)
    ensures r.Ok? ==> |r.value.rest| <= |queue|
    decreases |queue|, 0
  {
    if queue == [] then Ok(Progress([], p))
    else ParametersLoop(queue[1..], p.(parameters := p.parameters + [queue[0]]))
  }

  /** `new Input(tokens)` by the transcribed recursion. */
  function ParseRecursively(tokens: seq<string>): Result<Input> {
    match ParseLoop(tokens, EMPTY)
    case Err(e) => Err(e)
    case Ok(p) => Ok(Input(tokens, p))
  }

  /** A fold's outcome seen as a routine that consumed the whole queue. */
  function Consumed(r: Result<Parsed>): Result<Progress> {
    match r
    case Err(e) => Err(e)
    case Ok(p) => Ok(Progress([], p))
  }

  lemma {:induction false} RegisterDownLetters(m: map<string, seq<string>>, name: string, i: int)
    requires -1 <= i < |name|
    ensures RegisterDown(m, name, i) == RegisterLetters(m, name[..i + 1])
    decreases i + 1
  {
    if i >= 0 {
      assert name[..i + 1][..i] == name[..i];
      RegisterDownLetters(Register(m, [name[i]]), name, i - 1);
    }
  }

  lemma {:induction false} ParametersAgree(queue: seq<string>, p: Parsed)
    ensures ParametersLoop(queue, p) == Consumed(Fold(AfterMarker, p, queue))
    decreases |queue|, 0
  {
    if queue != [] {
      var p' := p.(parameters := p.parameters + [queue[0]]);
      assert Fold(AfterMarker, p, queue) == Fold(AfterMarker, p', queue[1..]);
      ParametersAgree(queue[1..], p');
    }
  }

  /** `parseOption`'s loop is the fold from the state "attached to `t`". */
  lemma {:induction false} OptionLoopAgrees(t: Target, queue: seq<string>, p: Parsed)
    ensures OptionLoop(t, queue, p) == Consumed(Fold(Attach(t), p, queue))
    decreases |queue|, 0
  {
    if queue != [] {
      var token := queue[0];
      if StartsWith(token, "-") {
        NotArgumentAgrees(token, queue[1..], p);
        DashStepIgnoresState(Attach(t), p, token);
        assert [token] + queue[1..] == queue;
      } else {
        var p' := AttachValue(p, t, token);
        assert Step(Attach(t), p, token) == Ok((Attach(t), p'));
        OptionLoopAgrees(t, queue[1..], p');
      }
    }
  }

  /** Each option-token routine is one fold step followed by the rest of the fold. */
  lemma {:induction false} NotArgumentAgrees(token: string, queue: seq<string>, p: Parsed)
    requires StartsWith(token, "-")
    ensures NotArgument(token, queue, p) == Consumed(Fold(Positional, p, [token] + queue))
    decreases |queue|, 2
  {
    var q := [token] + queue;
    assert q[0] == token && q[1..] == queue;
    if StartsWith(token, "--") {
      if token == "--" {
        assert Fold(Positional, p, q) == Fold(AfterMarker, p, queue);
        ParametersAgree(queue, p);
      } else {
        LongAgrees(token, queue, p);
      }
    } else {
      ShortAgrees(token, queue, p);
    }
  }

  lemma {:induction false} LongAgrees(token: string, queue: seq<string>, p: Parsed)
    requires StartsWith(token, "--") && token != "--"
    ensures LongOption(token[2..], queue, p) == Consumed(Fold(Positional, p, [token] + queue))
    decreases |queue|, 1
  {
    var q := [token] + queue;
    assert q[0] == token && q[1..] == queue;
    var n := LongName(token[2..]);
    if '=' !in token[2..] {
      Inputs.BeforeFirstNone(token[2..]);
    }
    var p' := p.(longOptions := Register(p.longOptions, n));
    assert Step(Positional, p, token) == Ok((Attach(Long(n)), p'));
    assert Fold(Positional, p, q) == Fold(Attach(Long(n)), p', queue);
    assert LongOption(token[2..], queue, p) == OptionLoop(Long(n), queue, p');
    OptionLoopAgrees(Long(n), queue, p');
  }

  lemma {:induction false} ShortAgrees(token: string, queue: seq<string>, p: Parsed)
    requires StartsWith(token, "-") && !StartsWith(token, "--")
    ensures ShortOption(token[1..], queue, p) == Consumed(Fold(Positional, p, [token] + queue))
    decreases |queue|, 1
  {
    var q := [token] + queue;
    assert q[0] == token && q[1..] == queue;
    var letters := token[1..];
    if letters != "" {
      var end := |letters| - 1;
      var last := [letters[end]];
      var p' := p.(shortOptions := Register(RegisterLetters(p.shortOptions, letters[..end]), last));
      assert Step(Positional, p, token) == Ok((Attach(Short(last)), p'));
      assert Fold(Positional, p, q) == Fold(Attach(Short(last)), p', queue);
      ShortOptionUnfolds(letters, queue, p);
      OptionLoopAgrees(Short(last), queue, p');
    }
  }

  /** `parseShortOption`'s descending loop registers what the fold's step registers. */
  lemma ShortOptionUnfolds(letters: string, queue: seq<string>, p: Parsed)
    requires letters != ""
    ensures var last := [letters[|letters| - 1]];
      ShortOption(letters, queue, p)
        == OptionLoop(Short(last), queue,
             p.(shortOptions := Register(RegisterLetters(p.shortOptions, letters[..|letters| - 1]), last)))
  {
    var end := |letters| - 1;
    if end > 0 {
      RegisterDownLetters(p.shortOptions, letters, end - 1);
    } else {
      assert letters == [letters[end]];
      assert letters[..end] == [];
    }
  }

  lemma {:induction false} ParseLoopAgrees(queue: seq<string>, p: Parsed)
    ensures ParseLoop(queue, p) == Fold(Positional, p, queue)
    decreases |queue|
  {
    if queue != [] {
      var token := queue[0];
      if StartsWith(token, "-") {
        NotArgumentAgrees(token, queue[1..], p);
        assert [token] + queue[1..] == queue;
      } else {
        ParseLoopAgrees(queue[1..], p.(parameters := p.parameters + [token]));
      }
    }
  }

  /** The transcribed recursion and the fold parse every token list alike. */
  lemma RecursionIsFold(tokens: seq<string>)
    ensures ParseRecursively(tokens) == Parse(tokens)
  {
    ParseLoopAgrees(tokens, EMPTY);
  }
}
