/**
 * `Style`: foreground/background colours, an optional hyperlink and an
 * ordered set of text options, rendered as ANSI SGR sequences. Whether the
 * terminal supports truecolor and hyperlinks is passed in.
 */
module Styles {
  import opened Wrappers
  import opened Errors
  import opened Strings

  const ESC: char := '\U{1B}'

  /** `Style::COLORS`: named colours and their SGR digit. */
  const COLORS: map<string, string> :=
    map["black" := "0", "red" := "1", "green" := "2", "yellow" := "3",
        "blue" := "4", "magenta" := "5", "cyan" := "6", "white" := "7"]

  /** `Style::OPTIONS`: text options and their SGR code. */
  const OPTIONS: map<string, string> :=
    map["highlight" := "1", "underline" := "4", "blink" := "5", "reverse" := "7", "conceal" := "8"]

  /** The fields of `Style`; `options` is PHP's ordered name → code array. */
  datatype Style = Style(fg: Nullable<string>, bg: Nullable<string>, href: Nullable<string>, options: seq<(string, string)>)

  const EMPTY_STYLE: Style := Style(Null, Null, Null, [])

  predicate HasOptionNamed(options: seq<(string, string)>, name: string) {
    exists i :: 0 <= i < |options| && options[i].0 == name
  }

  /** `round(x / 255)` for a channel, PHP rounding half away from zero. */
  function RoundChannel(x: nat): nat {
    (2 * x + 255) / 510
  }

  /** On a channel value the rounding is the threshold at 128. */
  lemma RoundChannelThreshold(x: nat)
    ensures x <= 255 ==> RoundChannel(x) == (if x >= 128 then 1 else 0)
  {
  }

  /** `getColorByRGB`: `8;2;R;G;B` with truecolor, else one rounded digit per channel. */
  function ColorByRGB(red: nat, green: nat, blue: nat, trueColor: bool): (r: string)
    ensures trueColor ==> StartsWith(r, "8;2;")
    ensures trueColor ==> r == "8;2;" + NatToString(red) + ";" + NatToString(green) + ";" + NatToString(blue)
    ensures !trueColor && red <= 255 && green <= 255 && blue <= 255 ==>
      && |r| == 3
      && (r[0] == '1' <==> red >= 128) && (r[1] == '1' <==> green >= 128) && (r[2] == '1' <==> blue >= 128)
      && (forall i :: 0 <= i < 3 ==> r[i] == '0' || r[i] == '1')
  {
    if trueColor then
      var r := "8;2;" + NatToString(red) + ";" + NatToString(green) + ";" + NatToString(blue);
      assert r[..4] == "8;2;";
      r
    else
      RoundChannelThreshold(red);
      RoundChannelThreshold(green);
      RoundChannelThreshold(blue);
      NatToString(RoundChannel(red)) + NatToString(RoundChannel(green)) + NatToString(RoundChannel(blue))
  }

  predicate AllHex(s: string) {
    forall i :: 0 <= i < |s| ==> IsHexDigit(s[i])
  }

  /** `hexdec` of two digits */
  function HexPair(hi: char, lo: char): (r: nat)
    requires IsHexDigit(hi) && IsHexDigit(lo)
    ensures r <= 255
  {
    16 * HexValue(hi) + HexValue(lo)
  }

  /** `getColorByHex`: exactly 3 or 6 hex digits; each short digit is doubled. */
  function ColorByHex(s: string, trueColor: bool): (r: Nullable<string>)
    ensures r.Some? <==> (|s| == 3 || |s| == 6) && AllHex(s)
  {
    if |s| == 3 && AllHex(s) then
      Some(ColorByRGB(HexPair(s[0], s[0]), HexPair(s[1], s[1]), HexPair(s[2], s[2]), trueColor))
    else if |s| == 6 && AllHex(s) then
      Some(ColorByRGB(HexPair(s[0], s[1]), HexPair(s[2], s[3]), HexPair(s[4], s[5]), trueColor))
    else Null
  }

  /** A pair's value is at least 128 exactly when its high digit is at least 8. */
  lemma HexPairThreshold(hi: char, lo: char)
    requires IsHexDigit(hi) && IsHexDigit(lo)
    ensures HexPair(hi, lo) >= 128 <==> HexValue(hi) >= 8
  {
  }

  /**
   * Six digits: with truecolor, each channel is the `hexdec` of its digit
   * pair written in decimal; without it, each digit of the code is `1`
   * exactly when the pair's high digit is at least 8.
   */
  lemma LongHexColor(s: string, trueColor: bool)
    requires |s| == 6 && AllHex(s)
    ensures ColorByHex(s, trueColor).Some?
    ensures var code := ColorByHex(s, trueColor).value;
      && (trueColor ==> code == "8;2;" + NatToString(16 * HexValue(s[0]) + HexValue(s[1])) + ";"
                                      + NatToString(16 * HexValue(s[2]) + HexValue(s[3])) + ";"
                                      + NatToString(16 * HexValue(s[4]) + HexValue(s[5])))
      && (!trueColor ==>
            && |code| == 3
            && (code[0] == '1' <==> HexValue(s[0]) >= 8)
            && (code[1] == '1' <==> HexValue(s[2]) >= 8)
            && (code[2] == '1' <==> HexValue(s[4]) >= 8))
  {
    var red, green, blue := HexPair(s[0], s[1]), HexPair(s[2], s[3]), HexPair(s[4], s[5]);
    assert ColorByHex(s, trueColor) == Some(ColorByRGB(red, green, blue, trueColor));
    if trueColor {
      assert red == 16 * HexValue(s[0]) + HexValue(s[1]);
      assert green == 16 * HexValue(s[2]) + HexValue(s[3]);
      assert blue == 16 * HexValue(s[4]) + HexValue(s[5]);
    } else {
      HexPairThreshold(s[0], s[1]);
      HexPairThreshold(s[2], s[3]);
      HexPairThreshold(s[4], s[5]);
    }
  }

  /** Three digits: each digit is doubled, so a channel is `17 * digit`. */
  lemma ShortHexColor(s: string, trueColor: bool)
    requires |s| == 3 && AllHex(s)
    ensures ColorByHex(s, trueColor).Some?
    ensures var code := ColorByHex(s, trueColor).value;
      && (trueColor ==> code == "8;2;" + NatToString(17 * HexValue(s[0])) + ";"
                                      + NatToString(17 * HexValue(s[1])) + ";"
                                      + NatToString(17 * HexValue(s[2])))
      && (!trueColor ==> |code| == 3 && forall i :: 0 <= i < 3 ==> (code[i] == '1' <==> HexValue(s[i]) >= 8))
  {
    var red, green, blue := HexPair(s[0], s[0]), HexPair(s[1], s[1]), HexPair(s[2], s[2]);
    assert ColorByHex(s, trueColor) == Some(ColorByRGB(red, green, blue, trueColor));
    if trueColor {
      assert red == 17 * HexValue(s[0]) && green == 17 * HexValue(s[1]) && blue == 17 * HexValue(s[2]);
    } else {
      HexPairThreshold(s[0], s[0]);
      HexPairThreshold(s[1], s[1]);
      HexPairThreshold(s[2], s[2]);
    }
  }

  /** `#rgb` means the same colour as `#rrggbb`. */
  lemma ShortHexIsDoubled(s: string, trueColor: bool)
    requires |s| == 3
    ensures ColorByHex(s, trueColor) == ColorByHex([s[0], s[0], s[1], s[1], s[2], s[2]], trueColor)
  {
    var long := [s[0], s[0], s[1], s[1], s[2], s[2]];
    assert AllHex(s) <==> AllHex(long) by {
      if AllHex(long) {
        assert long[0] == s[0] && long[2] == s[1] && long[4] == s[2];
      }
    }
  }

  /** `getColor`: `#`-prefixed hex, else a named colour; null when neither applies. */
  function GetColor(color: string, trueColor: bool): (r: Nullable<string>)
    ensures !StartsWith(color, "#") ==> (r.Some? <==> color in COLORS) && (r.Some? ==> r.value == COLORS[color])
    ensures StartsWith(color, "#") ==> (r.Some? <==> (|color| == 4 || |color| == 7) && AllHex(color[1..]))
    ensures StartsWith(color, "#") ==> r == ColorByHex(color[1..], trueColor)
  {
    if StartsWith(color, "#") then ColorByHex(color[1..], trueColor)
    else if color in COLORS then Some(COLORS[color]) else Null
  }

  /** `setFgColor(color)`: an invalid colour raises and leaves the style unchanged. */
  function SetFgColor(st: Style, color: string, trueColor: bool): (r: Result<Style>)
    ensures r.Ok? <==> GetColor(color, trueColor).Some?
    ensures r.Ok? ==> r.value == st.(fg := GetColor(color, trueColor))
    ensures r.Err? ==> r.error == InvalidColor(color) && r.error.Kind() == InvalidArgument
  {
    match GetColor(color, trueColor)
    case Null => Err(InvalidColor(color))
    case Some(code) => Ok(st.(fg := Some(code)))
  }

  /** `setBgColor(color)` */
  function SetBgColor(st: Style, color: string, trueColor: bool): (r: Result<Style>)
    ensures r.Ok? <==> GetColor(color, trueColor).Some?
    ensures r.Ok? ==> r.value == st.(bg := GetColor(color, trueColor))
    ensures r.Err? ==> r.error == InvalidColor(color) && r.error.Kind() == InvalidArgument
  {
    match GetColor(color, trueColor)
    case Null => Err(InvalidColor(color))
    case Some(code) => Ok(st.(bg := Some(code)))
  }

  /** Assigning a key of a PHP array: overwritten in place when present, appended otherwise. */
  function Assign(options: seq<(string, string)>, name: string, code: string): (r: seq<(string, string)>)
    ensures HasOptionNamed(r, name)
    ensures HasOptionNamed(options, name) ==> |r| == |options|
    ensures !HasOptionNamed(options, name) ==> r == options + [(name, code)]
    ensures forall i :: 0 <= i < |options| && options[i].0 != name ==> r[i] == options[i]
  {
    if options == [] then
      var r := [(name, code)];
      assert r[0].0 == name;
      r
    else if options[0].0 == name then
      var r := [(name, code)] + options[1..];
      assert r[0].0 == name;
      r
    else
      var rest := Assign(options[1..], name, code);
      assert HasOptionNamed(options, name) <==> HasOptionNamed(options[1..], name) by {
        if HasOptionNamed(options[1..], name) {
          var i :| 0 <= i < |options[1..]| && options[1..][i].0 == name;
          assert options[i + 1].0 == name;
        }
        if HasOptionNamed(options, name) {
          var i :| 0 <= i < |options| && options[i].0 == name;
          assert options[1..][i - 1].0 == name;
        }
      }
      var r := [options[0]] + rest;
      assert HasOptionNamed(r, name) by {
        var i :| 0 <= i < |rest| && rest[i].0 == name;
        assert r[i + 1].0 == name;
      }
      r
  }

  /** Assigning the same entry twice is assigning it once. */
  lemma {:induction false} AssignTwice(options: seq<(string, string)>, name: string, code: string)
    ensures Assign(Assign(options, name, code), name, code) == Assign(options, name, code)
  {
    if options != [] && options[0].0 != name {
      AssignTwice(options[1..], name, code);
      var r := Assign(options, name, code);
      assert r[1..] == Assign(options[1..], name, code);
    }
  }

  /** Assigning a name its own code keeps every entry's code matching. */
  lemma {:induction false} AssignKeepsCodes(options: seq<(string, string)>, name: string)
    requires name in OPTIONS
    requires forall i :: 0 <= i < |options| ==> options[i].0 in OPTIONS && options[i].1 == OPTIONS[options[i].0]
    ensures var r := Assign(options, name, OPTIONS[name]);
      forall i :: 0 <= i < |r| ==> r[i].0 in OPTIONS && r[i].1 == OPTIONS[r[i].0]
  {
    if options != [] && options[0].0 != name {
      AssignKeepsCodes(options[1..], name);
      var r := Assign(options, name, OPTIONS[name]);
      assert r[1..] == Assign(options[1..], name, OPTIONS[name]);
    }
  }

  /** `unset` of a key of a PHP array: the other entries keep their order. */
  function Remove(options: seq<(string, string)>, name: string): (r: seq<(string, string)>)
    ensures !HasOptionNamed(r, name)
    ensures forall e :: e in r <==> e in options && e.0 != name
    ensures |r| <= |options|
    ensures !HasOptionNamed(options, name) ==> r == options
  {
    if options == [] then []
    else if options[0].0 == name then Remove(options[1..], name)
    else [options[0]] + Remove(options[1..], name)
  }

  /** `setOption(option)`: unknown names raise with no change; a present option keeps its place. */
  function SetOption(st: Style, option: string): (r: Result<Style>)
    ensures r.Ok? <==> option in OPTIONS
    ensures r.Err? ==> r.error == InvalidStyleOption(option) && r.error.Kind() == InvalidArgument
    ensures r.Ok? ==> r.value.fg == st.fg && r.value.bg == st.bg && r.value.href == st.href
    ensures r.Ok? ==> HasOptionNamed(r.value.options, option)
    ensures r.Ok? && !HasOptionNamed(st.options, option) ==> r.value.options == st.options + [(option, OPTIONS[option])]
    ensures r.Ok? && HasOptionNamed(st.options, option) ==> |r.value.options| == |st.options|
    ensures r.Ok? ==> forall i :: 0 <= i < |st.options| && st.options[i].0 != option ==> r.value.options[i] == st.options[i]
  {
    if option !in OPTIONS then Err(InvalidStyleOption(option))
    else Ok(st.(options := Assign(st.options, option, OPTIONS[option])))
  }

  /** Options hold the code `OPTIONS` gives their name. */
  ghost predicate CodesMatch(st: Style) {
    forall i :: 0 <= i < |st.options| ==> st.options[i].0 in OPTIONS && st.options[i].1 == OPTIONS[st.options[i].0]
  }

  /** Setting an option that is already set changes nothing. */
  lemma SetOptionIdempotent(st: Style, option: string)
    requires CodesMatch(st) && SetOption(st, option).Ok?
    ensures CodesMatch(SetOption(st, option).value)
    ensures SetOption(SetOption(st, option).value, option) == SetOption(st, option)
  {
    AssignTwice(st.options, option, OPTIONS[option]);
    AssignKeepsCodes(st.options, option);
  }

  /** `unsetOption(option)`: unknown names raise with no change; only that option goes. */
  function UnsetOption(st: Style, option: string): (r: Result<Style>)
    ensures r.Ok? <==> option in OPTIONS
    ensures r.Err? ==> r.error == InvalidStyleOption(option) && r.error.Kind() == InvalidArgument
    ensures r.Ok? ==>
      && r.value.fg == st.fg && r.value.bg == st.bg && r.value.href == st.href
      && !HasOptionNamed(r.value.options, option)
      && (forall e :: e in r.value.options <==> e in st.options && e.0 != option)
      && r.value.options == Remove(st.options, option)
  {
    if option !in OPTIONS then Err(InvalidStyleOption(option))
    else Ok(st.(options := Remove(st.options, option)))
  }

  /** Removing from a concatenation removes from each part: the kept entries stay in order. */
  lemma {:induction false} RemoveConcat(a: seq<(string, string)>, b: seq<(string, string)>, name: string)
    ensures Remove(a + b, name) == Remove(a, name) + Remove(b, name)
  {
    if a == [] {
      assert a + b == b;
    } else {
      assert (a + b)[0] == a[0] && (a + b)[1..] == a[1..] + b;
      RemoveConcat(a[1..], b, name);
    }
  }

  /** With a single entry for the name, removal cuts out exactly that entry. */
  lemma RemoveOne(options: seq<(string, string)>, name: string, k: int)
    requires 0 <= k < |options| && options[k].0 == name
    requires !HasOptionNamed(options[..k] + options[k + 1..], name)
    ensures Remove(options, name) == options[..k] + options[k + 1..]
  {
    var before, after := options[..k], options[k + 1..];
    var rest := before + after;
    assert !HasOptionNamed(before, name) by {
      forall i | 0 <= i < |before| ensures before[i].0 != name {
        assert before[i] == rest[i];
      }
    }
    assert !HasOptionNamed(after, name) by {
      forall i | 0 <= i < |after| ensures after[i].0 != name {
        assert after[i] == rest[k + i];
      }
    }
    assert options == before + ([options[k]] + after);
    RemoveConcat(before, [options[k]] + after, name);
    RemoveConcat([options[k]], after, name);
    assert Remove([options[k]], name) == [];
  }

  /** Unsetting an option just set from scratch restores the style. */
  lemma UnsetUndoesSet(st: Style, option: string)
    requires !HasOptionNamed(st.options, option) && option in OPTIONS
    ensures UnsetOption(SetOption(st, option).value, option) == Ok(st)
  {
    RemoveAbsent(st.options, option);
    RemoveLast(st.options, option, OPTIONS[option]);
  }

  lemma {:induction false} RemoveAbsent(options: seq<(string, string)>, name: string)
    requires !HasOptionNamed(options, name)
    ensures Remove(options, name) == options
  {
    if options != [] {
      assert options[0].0 != name;
      assert !HasOptionNamed(options[1..], name) by {
        forall i | 0 <= i < |options[1..]| ensures options[1..][i].0 != name {
          assert options[1..][i] == options[i + 1];
        }
      }
      RemoveAbsent(options[1..], name);
    }
  }

  lemma {:induction false} RemoveLast(options: seq<(string, string)>, name: string, code: string)
    requires !HasOptionNamed(options, name)
    ensures Remove(options + [(name, code)], name) == Remove(options, name)
  {
    if options == [] {
      assert Remove([(name, code)], name) == Remove([], name);
    } else {
      assert (options + [(name, code)])[1..] == options[1..] + [(name, code)];
      assert !HasOptionNamed(options[1..], name) by {
        forall i | 0 <= i < |options[1..]| ensures options[1..][i].0 != name {
          assert options[1..][i] == options[i + 1];
        }
      }
      RemoveLast(options[1..], name, code);
    }
  }

  /** `setOptions(...options)`: applied one by one, stopping at the first invalid name with the earlier ones set. */
  function SetOptions(st: Style, names: seq<string>): (r: (Style, Nullable<Error>))
    ensures r.1.Null? <==> forall i :: 0 <= i < |names| ==> names[i] in OPTIONS
    ensures r.1.Some? ==> exists i :: FirstUnknown(names, i) && r.1 == Some(InvalidStyleOption(names[i]))
    ensures r.0.fg == st.fg && r.0.bg == st.bg && r.0.href == st.href
    decreases |names|
  {
    if names == [] then (st, Null)
    else
      match SetOption(st, names[0])
      case Err(e) =>
        assert FirstUnknown(names, 0);
        (st, Some(e))
      case Ok(st') =>
        var r := SetOptions(st', names[1..]);
        assert forall i :: 1 <= i < |names| ==> names[1..][i - 1] == names[i];
        assert r.1.Some? ==> exists i :: FirstUnknown(names, i) && r.1 == Some(InvalidStyleOption(names[i])) by {
          if r.1.Some? {
            var j :| FirstUnknown(names[1..], j) && r.1 == Some(InvalidStyleOption(names[1..][j]));
            FirstUnknownShift(names, j);
          }
        }
        r
  }

  /** `names[i]` is the first name that is not a known option. */
  predicate FirstUnknown(names: seq<string>, i: int) {
    0 <= i < |names| && names[i] !in OPTIONS && forall j :: 0 <= j < i ==> names[j] in OPTIONS
  }

  lemma FirstUnknownShift(names: seq<string>, j: int)
    requires names != [] && names[0] in OPTIONS && FirstUnknown(names[1..], j)
    ensures FirstUnknown(names, j + 1) && names[j + 1] == names[1..][j]
  {
    forall i | 1 <= i <= j ensures names[i] in OPTIONS {
      assert names[i] == names[1..][i - 1];
    }
  }

  /** Every option before the first invalid name ends up set. */
  lemma {:induction false} SetOptionsSetsPrefix(st: Style, names: seq<string>, i: int)
    requires 0 <= i < |names| && forall j :: 0 <= j <= i ==> names[j] in OPTIONS
    ensures HasOptionNamed(SetOptions(st, names).0.options, names[i])
    decreases |names|
  {
    var st' := SetOption(st, names[0]).value;
    if i == 0 {
      StaysSet(st', names[1..], names[0]);
    } else {
      SetOptionsSetsPrefix(st', names[1..], i - 1);
      assert names[1..][i - 1] == names[i];
    }
  }

  /** Setting further options never removes one. */
  lemma {:induction false} StaysSet(st: Style, names: seq<string>, option: string)
    requires HasOptionNamed(st.options, option)
    ensures HasOptionNamed(SetOptions(st, names).0.options, option)
    decreases |names|
  {
    if names != [] && SetOption(st, names[0]).Ok? {
      var st' := SetOption(st, names[0]).value;
      if option != names[0] {
        var i :| 0 <= i < |st.options| && st.options[i].0 == option;
        assert st'.options[i].0 == option;
      }
      StaysSet(st', names[1..], option);
    }
  }

  /** The SGR codes in order: foreground, background, then options in insertion order. */
  function Codes(st: Style): (r: seq<string>)
    ensures |r| == (if st.fg.Some? then 1 else 0) + (if st.bg.Some? then 1 else 0) + |st.options|
    ensures st.fg.Some? ==> r[0] == "3" + st.fg.value
    ensures st.bg.Some? ==> r[if st.fg.Some? then 1 else 0] == "4" + st.bg.value
    ensures var k := (if st.fg.Some? then 1 else 0) + (if st.bg.Some? then 1 else 0);
      forall i :: 0 <= i < |st.options| ==> r[k + i] == st.options[i].1
  {
    (if st.fg.Some? then ["3" + st.fg.value] else [])
      + (if st.bg.Some? then ["4" + st.bg.value] else [])
      + OptionCodes(st.options)
  }

  function OptionCodes(options: seq<(string, string)>): (r: seq<string>)
    ensures |r| == |options|
    ensures forall i :: 0 <= i < |options| ==> r[i] == options[i].1
  {
    if options == [] then [] else [options[0].1] + OptionCodes(options[1..])
  }

  /** `set()`: `ESC[` codes joined by `;` `m`, or nothing when there are no codes. */
  function Set(st: Style): (r: string)
    ensures r == "" <==> Codes(st) == []
    ensures r != "" ==> r == [ESC, '['] + Join(";", Codes(st)) + "m"
  {
    var codes := Codes(st);
    if codes == [] then "" else [ESC, '['] + Join(";", codes) + "m"
  }

  /**
   * Appending an option to a style that already emits codes adds `;` and
   * that option's code just before the closing `m`.
   */
  lemma SetAppendsOption(st: Style, name: string, code: string)
    requires Codes(st) != []
    ensures var s := Set(st);
      Set(st.(options := st.options + [(name, code)])) == s[..|s| - 1] + ";" + code + "m"
  {
    var st' := st.(options := st.options + [(name, code)]);
    var codes := Codes(st);
    assert OptionCodes(st'.options) == OptionCodes(st.options) + [code];
    assert Codes(st') == codes + [code];
    JoinSnoc(";", codes, code);
    var j := Join(";", codes);
    var s := Set(st);
    assert s == [ESC, '['] + j + "m";
    assert s[..|s| - 1] == [ESC, '['] + j;
    assert Set(st') == [ESC, '['] + (j + ";" + code) + "m";
  }

  /** `unset()`: the reset sequence exactly when some attribute is present. */
  function Unset(st: Style): string {
    if st.fg.Null? && st.bg.Null? && st.options == [] then "" else [ESC, '[', '0', 'm']
  }

  /** `unset()` resets exactly when `set()` emitted something. */
  lemma UnsetIffSet(st: Style)
    ensures Unset(st) == [ESC, '[', '0', 'm'] <==> Set(st) != ""
    ensures Unset(st) == "" <==> Set(st) == ""
  {
  }

  /** PHP truthiness of the href: neither null, `''` nor `'0'`. */
  predicate HrefTruthy(href: Nullable<string>) {
    href.Some? && href.value != "" && href.value != "0"
  }

  /** The OSC 8 hyperlink wrapping. */
  function Hyperlink(href: string, text: string): string {
    [ESC] + "]8;;" + href + [ESC, '\\'] + text + [ESC] + "]8;;" + [ESC, '\\']
  }

  /** `apply(text)`: the style around the text, hyperlinked when the href is truthy and the terminal allows it. */
  function Apply(st: Style, text: string, hrefSupported: bool): (r: string)
    ensures var inner := if hrefSupported && HrefTruthy(st.href) then Hyperlink(st.href.value, text) else text;
      && StartsWith(r, Set(st))
      && r[|Set(st)|..] == inner + Unset(st)
    ensures Codes(st) == [] && !(hrefSupported && HrefTruthy(st.href)) ==> r == text
  {
    var inner := if hrefSupported && HrefTruthy(st.href) then Hyperlink(st.href.value, text) else text;
    Surround(Set(st), inner, Unset(st))
  }

  /** `open . text . close`, split back at the opening part. */
  function Surround(open: string, text: string, close: string): (r: string)
    ensures StartsWith(r, open) && r[|open|..] == text + close
    ensures open == "" && close == "" ==> r == text
  {
    var r := open + text + close;
    assert r[..|open|] == open;
    assert r[|open|..] == text + close;
    r
  }

  /** Assignment brings in no entry other than the assigned one. */
  lemma {:induction false} AssignEntries(options: seq<(string, string)>, name: string, code: string)
    ensures forall e :: e in Assign(options, name, code) ==> e in options || e == (name, code)
  {
    if options != [] && options[0].0 != name {
      AssignEntries(options[1..], name, code);
      assert Assign(options, name, code) == [options[0]] + Assign(options[1..], name, code);
      assert forall e :: e in options[1..] ==> e in options;
    }
  }

  /** Every option `setOptions` leaves was there before or is one of the names with its code. */
  lemma {:induction false} SetOptionsEntries(st: Style, names: seq<string>)
    ensures forall e :: e in SetOptions(st, names).0.options ==>
      e in st.options || (e.0 in names && e.0 in OPTIONS && e.1 == OPTIONS[e.0])
    decreases |names|
  {
    if names != [] && SetOption(st, names[0]).Ok? {
      var st' := SetOption(st, names[0]).value;
      AssignEntries(st.options, names[0], OPTIONS[names[0]]);
      SetOptionsEntries(st', names[1..]);
      assert forall n :: n in names[1..] ==> n in names;
    }
  }

  /** The colour part of the constructor: foreground first, then background. */
  function WithColors(fg: Nullable<string>, bg: Nullable<string>, trueColor: bool): (r: Result<Style>)
    ensures r.Ok? <==>
      && (fg.Some? ==> GetColor(fg.value, trueColor).Some?)
      && (bg.Some? ==> GetColor(bg.value, trueColor).Some?)
    ensures r.Ok? ==> r.value.href.Null? && r.value.options == [] && (fg.Some? <==> r.value.fg.Some?) && (bg.Some? <==> r.value.bg.Some?)
    ensures r.Ok? ==>
      && r.value.fg == (if fg.Some? then GetColor(fg.value, trueColor) else Null)
      && r.value.bg == (if bg.Some? then GetColor(bg.value, trueColor) else Null)
    ensures fg.Some? && GetColor(fg.value, trueColor).Null? ==> r == Err(InvalidColor(fg.value))
    ensures (fg.Some? ==> GetColor(fg.value, trueColor).Some?) && bg.Some? && GetColor(bg.value, trueColor).Null? ==>
      r == Err(InvalidColor(bg.value))
    ensures r.Err? ==> r.error.Kind() == InvalidArgument
  {
    var r1 := if fg.Some? then SetFgColor(EMPTY_STYLE, fg.value, trueColor) else Ok(EMPTY_STYLE);
    if r1.Err? then r1
    else if bg.Some? then SetBgColor(r1.value, bg.value, trueColor) else r1
  }

  /** `new Style(fg, bg, ...options)`: any failure means no style object. */
  function NewStyle(fg: Nullable<string>, bg: Nullable<string>, options: seq<string>, trueColor: bool): (r: Result<Style>)
    ensures r.Ok? <==>
      && (fg.Some? ==> GetColor(fg.value, trueColor).Some?)
      && (bg.Some? ==> GetColor(bg.value, trueColor).Some?)
      && (forall i :: 0 <= i < |options| ==> options[i] in OPTIONS)
    ensures r.Ok? ==> r.value.href.Null? && (fg.Some? <==> r.value.fg.Some?) && (bg.Some? <==> r.value.bg.Some?)
    ensures r.Ok? ==>
      && r.value.fg == (if fg.Some? then GetColor(fg.value, trueColor) else Null)
      && r.value.bg == (if bg.Some? then GetColor(bg.value, trueColor) else Null)
    ensures r.Ok? ==> SetsExactly(r.value.options, options)
    ensures WithColors(fg, bg, trueColor).Err? ==> r == WithColors(fg, bg, trueColor)
    ensures WithColors(fg, bg, trueColor).Ok? && r.Err? ==> exists i :: FirstUnknown(options, i) && r.error == InvalidStyleOption(options[i])
    ensures r.Err? ==> r.error.Kind() == InvalidArgument
  {
    var w := WithColors(fg, bg, trueColor);
    if w.Err? then w else WithOptions(w.value, options)
  }

  /** The options set are exactly the given names, each with its `OPTIONS` code. */
  ghost predicate SetsExactly(o: seq<(string, string)>, names: seq<string>) {
    && (forall n :: HasOptionNamed(o, n) <==> n in names)
    && (forall e :: e in o ==> e.0 in OPTIONS && e.1 == OPTIONS[e.0])
  }

  /** The options part of the constructor, on the style the colour part built. */
  function WithOptions(st: Style, options: seq<string>): (r: Result<Style>)
    requires st.options == []
    ensures r.Ok? <==> forall i :: 0 <= i < |options| ==> options[i] in OPTIONS
    ensures r.Ok? ==> r.value.fg == st.fg && r.value.bg == st.bg && r.value.href == st.href
    ensures r.Ok? ==> SetsExactly(r.value.options, options)
    ensures r.Err? ==> exists i :: FirstUnknown(options, i) && r.error == InvalidStyleOption(options[i])
  {
    var (s', e) := SetOptions(st, options);
    if e.Some? then Err(e.value)
    else
      NewStyleOptions(st, options);
      Ok(s')
  }

  /** Starting from no options, `setOptions` of known names sets exactly those names, each with its code. */
  lemma NewStyleOptions(st: Style, options: seq<string>)
    requires st.options == [] && forall i :: 0 <= i < |options| ==> options[i] in OPTIONS
    ensures SetsExactly(SetOptions(st, options).0.options, options)
  {
    var o := SetOptions(st, options).0.options;
    SetOptionsEntries(st, options);
    forall i | 0 <= i < |options| ensures HasOptionNamed(o, options[i]) {
      SetOptionsSetsPrefix(st, options, i);
    }
    forall n | HasOptionNamed(o, n) ensures n in options {
      var k :| 0 <= k < |o| && o[k].0 == n;
      assert o[k] in o;
    }
  }
}
