/**
 * `Output`: the output mode state machine and what `write`/`writeln`
 * emit in each mode. The formatter and `strip_tags` are passed in.
 */
module Outputs {
  import opened Wrappers
  import opened Errors
  import opened Strings

  const OUTPUT_DECORATE: int := 1
  const OUTPUT_PLAIN: int := 2
  const OUTPUT_RAW: int := 4
  const OUTPUT_QUIET: int := 8

  /** `PHP_EOL` on the POSIX platforms the library targets. */
  const EOL: string := "\n"

  /** The mode and the formatter's decorated flag. */
  datatype Output = Output(mode: int, decorated: bool)

  predicate ValidMode(mode: int) {
    mode == OUTPUT_DECORATE || mode == OUTPUT_PLAIN || mode == OUTPUT_RAW || mode == OUTPUT_QUIET
  }

  /** `setMode(mode)`: only the four constants; decoration follows the mode. */
  function SetMode(o: Output, mode: int): (r: Result<Output>)
    ensures r.Ok? <==> ValidMode(mode)
    ensures r.Ok? ==> r.value.mode == mode && (r.value.decorated <==> mode == OUTPUT_DECORATE)
    ensures r.Err? ==> r.error == InvalidOutputMode(mode) && r.error.Kind() == InvalidArgument
  {
    if !ValidMode(mode) then Err(InvalidOutputMode(mode))
    else Ok(Output(mode, mode == OUTPUT_DECORATE))
  }

  /** What every output object satisfies once constructed. */
  predicate Consistent(o: Output) {
    ValidMode(o.mode) && (o.decorated <==> o.mode == OUTPUT_DECORATE)
  }

  /** `new Output(formatter, mode)`: the constructor goes through `setMode`. */
  function NewOutput(mode: int): (r: Result<Output>)
    ensures r.Ok? <==> ValidMode(mode)
    ensures r.Ok? ==> Consistent(r.value) && r.value.mode == mode
  {
    SetMode(Output(OUTPUT_DECORATE, true), mode)
  }

  /** A successful `setMode` keeps the object consistent; a failed one leaves it as it was. */
  lemma SetModeKeepsConsistent(o: Output, mode: int)
    requires Consistent(o)
    ensures SetMode(o, mode).Ok? ==> Consistent(SetMode(o, mode).value)
  {
  }

  predicate IsDecorate(o: Output) { o.decorated }
  predicate IsPlain(o: Output) { o.mode == OUTPUT_PLAIN }
  predicate IsRaw(o: Output) { o.mode == OUTPUT_RAW }
  predicate IsQuiet(o: Output) { o.mode == OUTPUT_QUIET }

  /** The mode tests are exclusive, and on a consistent output exactly one of the four modes holds. */
  lemma ModesExclusive(o: Output)
    ensures !(IsPlain(o) && IsRaw(o)) && !(IsPlain(o) && IsQuiet(o)) && !(IsRaw(o) && IsQuiet(o))
    ensures Consistent(o) ==> (IsDecorate(o) || IsPlain(o) || IsRaw(o) || IsQuiet(o))
    ensures Consistent(o) && IsDecorate(o) ==> !IsPlain(o) && !IsRaw(o) && !IsQuiet(o)
  {
  }

  /**
   * `write(message)`: the text sent to the stream, or null when nothing is
   * written. Decorated mode formats, plain mode strips tags, raw mode
   * passes the message through.
   */
  function Write(o: Output, message: string, format: string -> string, stripTags: string -> string): (r: Nullable<string>)
    ensures r.Null? <==> IsQuiet(o)
    ensures IsRaw(o) ==> r == Some(message)
    ensures IsPlain(o) ==> r == Some(stripTags(message))
    ensures o.mode == OUTPUT_DECORATE ==> r == Some(format(message))
  {
    if IsQuiet(o) then Null
    else if o.mode == OUTPUT_DECORATE then Some(format(message))
    else if o.mode == OUTPUT_RAW then Some(message)
    else if o.mode == OUTPUT_PLAIN then Some(stripTags(message))
    else Some(message)
  }

  /** `writeln(message, lines)`: the message followed by `lines` end-of-line strings. */
  function Writeln(o: Output, message: string, lines: nat, format: string -> string, stripTags: string -> string)
    : (r: Nullable<string>)
    ensures r.Null? <==> IsQuiet(o)
    ensures IsRaw(o) ==> r.Some? && StartsWith(r.value, message) && |r.value| == |message| + lines
    ensures IsRaw(o) ==> forall i :: |message| <= i < |r.value| ==> r.value[i] == '\n'
    ensures IsPlain(o) ==> r == Some(stripTags(message + Repeat(EOL, lines)))
    ensures o.mode == OUTPUT_DECORATE ==> r == Some(format(message + Repeat(EOL, lines)))
  {
    var text := message + Repeat(EOL, lines);
    NewlinesOnly(lines);
    assert text[..|message|] == message;
    Write(o, text, format, stripTags)
  }

  lemma {:induction false} NewlinesOnly(n: nat)
    ensures forall i :: 0 <= i < |Repeat(EOL, n)| ==> Repeat(EOL, n)[i] == '\n'
  {
    if n > 0 {
      NewlinesOnly(n - 1);
    }
  }

  /** `writeln(m, 0)` is `write(m)`. */
  lemma WritelnZeroIsWrite(o: Output, message: string, format: string -> string, stripTags: string -> string)
    ensures Writeln(o, message, 0, format, stripTags) == Write(o, message, format, stripTags)
  {
    assert message + Repeat(EOL, 0) == message;
  }

  /** In raw mode one more line adds exactly one end-of-line to what is written. */
  lemma WritelnOneMoreLine(o: Output, message: string, lines: nat, format: string -> string, stripTags: string -> string)
    requires IsRaw(o)
    ensures Writeln(o, message, lines + 1, format, stripTags).value == Writeln(o, message, lines, format, stripTags).value + EOL
  {
    RepeatSnoc(EOL, lines);
  }

  /** In quiet mode no sequence of `write` or `writeln` calls emits anything. */
  lemma QuietIsSilent(o: Output, messages: seq<string>, lines: nat, format: string -> string, stripTags: string -> string)
    requires IsQuiet(o)
    ensures forall i :: 0 <= i < |messages| ==> Write(o, messages[i], format, stripTags).Null?
    ensures forall i :: 0 <= i < |messages| ==> Writeln(o, messages[i], lines, format, stripTags).Null?
  {
  }
}
