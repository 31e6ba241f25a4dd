/** `TerminalColor`: wrapping console text in ANSI select-graphic-
    rendition sequences, and the four log helpers that print their
    arguments on a coloured background. The console itself is not
    modelled: the helpers return the strings they would print. */
module TerminalColor {
  import opened Strings
  import opened Wrappers

  const ESC: char := 27 as char

  /** Every named entry of the `colors`, `bgColors` and `styles` tables. */
  datatype Style =
    | Reset | Black | Red | Green | Yellow | Blue | Magenta | Cyan | White | Gray
    | BrightRed | BrightGreen | BrightYellow | BrightBlue | BrightMagenta | BrightCyan | BrightWhite
    | BgBlack | BgRed | BgGreen | BgYellow | BgBlue | BgMagenta | BgCyan | BgWhite
    | Bold | Dim | Italic | Underline | Blink | Reverse | Hidden

  /** The parameter of the style's escape sequence. */
  function Number(s: Style): nat
  {
    match s
    case Reset => 0
    case Black => 30 case Red => 31 case Green => 32 case Yellow => 33
    case Blue => 34 case Magenta => 35 case Cyan => 36 case White => 37
    case Gray => 90
    case BrightRed => 91 case BrightGreen => 92 case BrightYellow => 93
    case BrightBlue => 94 case BrightMagenta => 95 case BrightCyan => 96 case BrightWhite => 97
    case BgBlack => 40 case BgRed => 41 case BgGreen => 42 case BgYellow => 43
    case BgBlue => 44 case BgMagenta => 45 case BgCyan => 46 case BgWhite => 47
    case Bold => 1 case Dim => 2 case Italic => 3 case Underline => 4
    case Blink => 5 case Reverse => 7 case Hidden => 8
  }

  /** Reading a parameter back to the table entry that uses it. */
  function StyleOf(n: nat): Option<Style>
  {
    if n == 0 then Some(Reset)
    else if 1 <= n <= 5 then Some([Bold, Dim, Italic, Underline, Blink][n - 1])
    else if n == 7 then Some(Reverse)
    else if n == 8 then Some(Hidden)
    else if 30 <= n <= 37 then Some([Black, Red, Green, Yellow, Blue, Magenta, Cyan, White][n - 30])
    else if 40 <= n <= 47 then Some([BgBlack, BgRed, BgGreen, BgYellow, BgBlue, BgMagenta, BgCyan, BgWhite][n - 40])
    else if n == 90 then Some(Gray)
    else if 91 <= n <= 97 then Some([BrightRed, BrightGreen, BrightYellow, BrightBlue, BrightMagenta, BrightCyan, BrightWhite][n - 91])
    else None
  }

  /** No two entries of the tables share a parameter. */
  lemma NumberRoundTrip(s: Style)
    ensures StyleOf(Number(s)) == Some(s)
  {
  }

  /** The escape sequence `ESC [ n m`. */
  function Sgr(n: nat): (r: string)
    ensures |r| >= 4 && r[0] == ESC && r[1] == '[' && r[|r| - 1] == 'm'
    ensures forall i :: 2 <= i < |r| - 1 ==> '0' <= r[i] <= '9'
  {
    [ESC, '['] + NatToString(n) + "m"
  }

  /** A table entry's escape sequence. */
  function Code(s: Style): string
  {
    Sgr(Number(s))
  }

  /** Different table entries have different escape sequences. */
  lemma CodesDistinct(s: Style, t: Style)
    requires s != t
    ensures Code(s) != Code(t)
  {
    NumberRoundTrip(s);
    NumberRoundTrip(t);
    if Code(s) == Code(t) {
      var a, b := NatToString(Number(s)), NatToString(Number(t));
      assert a == Code(s)[2..|Code(s)| - 1];
      assert b == Code(t)[2..|Code(t)| - 1];
      NatToStringInjective(Number(s), Number(t));
      assert false;
    }
  }

  /** `colors.reset`, the sequence that ends every wrapped text. */
  const RESET: string := [ESC, '[', '0', 'm']

  lemma ResetIsCode()
    ensures Code(Reset) == RESET && Sgr(0) == RESET
  {
    assert NatToString(0) == "0";
  }

  /** `wrap(text, code)`: the code, the text, then the reset sequence. */
  function Wrap(text: string, code: string): (r: string)
    ensures |r| == |code| + |text| + |RESET|
    ensures r[..|code|] == code && r[|code|..|code| + |text|] == text && r[|code| + |text|..] == RESET
  {
    code + text + RESET
  }

  /** One of the colour, background or style methods: `red(text)` is
      `Paint(Red, text)`. */
  function Paint(s: Style, text: string): string
  {
    Wrap(text, Code(s))
  }

  /** `combine(text, ...codes)`: all codes, the text, then the reset. */
  function Combine(text: string, codes: seq<string>): (r: string)
    ensures EndsWith(r, RESET)
    ensures r[..|r| - |RESET|] == Join(codes, "") + text
  {
    Join(codes, "") + text + RESET
  }

  lemma CombineCases(text: string, code: string)
    ensures Combine(text, []) == text + RESET
    ensures Combine(text, [code]) == Wrap(text, code)
  {
    assert Join([], "") == "" && Join([code], "") == code;
    assert "" + text + RESET == text + RESET;
  }

  /** Drops everything up to and including the first `m`. */
  function AfterM(s: string): (r: string)
    ensures |r| <= |s|
  {
    if s == [] then [] else if s[0] == 'm' then s[1..] else AfterM(s[1..])
  }

  /** What a terminal shows of a string: every `ESC ... m` sequence
      removed. */
  function Visible(s: string): (r: string)
    ensures |r| <= |s|
    ensures ESC !in r
    decreases |s|
  {
    if s == [] then []
    else if s[0] == ESC then Visible(AfterM(s[1..]))
    else [s[0]] + Visible(s[1..])
  }

  lemma {:induction false} AfterDigits(d: string, rest: string)
    requires forall i :: 0 <= i < |d| ==> '0' <= d[i] <= '9'
    ensures AfterM(d + "m" + rest) == rest
  {
    if d == [] {
      assert d + "m" + rest == ['m'] + rest;
    } else {
      assert (d + "m" + rest)[1..] == d[1..] + "m" + rest;
      AfterDigits(d[1..], rest);
    }
  }

  /** An escape sequence is invisible. */
  lemma SgrInvisible(n: nat, rest: string)
    ensures Visible(Sgr(n) + rest) == Visible(rest)
  {
    var d := NatToString(n);
    assert (Sgr(n) + rest)[1..] == ['['] + (d + "m" + rest);
    AfterDigits(d, rest);
  }

  /** Plain text is shown as it is. */
  lemma {:induction false} TextVisible(t: string, rest: string)
    requires ESC !in t
    ensures Visible(t + rest) == t + Visible(rest)
  {
    if t != [] {
      assert t[0] in t;
      assert (t + rest)[1..] == t[1..] + rest;
      TextVisible(t[1..], rest);
    } else {
      assert t + rest == rest;
    }
  }

  /** Text wrapped in a sequence and a reset reads as the text. */
  lemma WrapShows(n: nat, t: string, rest: string)
    requires ESC !in t
    ensures Visible(Sgr(n) + t + Sgr(0) + rest) == t + Visible(rest)
  {
    assert Sgr(n) + t + Sgr(0) + rest == Sgr(n) + (t + (Sgr(0) + rest));
    SgrInvisible(n, t + (Sgr(0) + rest));
    TextVisible(t, Sgr(0) + rest);
    SgrInvisible(0, rest);
  }

  /** A painted text reads as the text itself, and ends by resetting
      every attribute. */
  lemma PaintShows(s: Style, t: string)
    requires ESC !in t
    ensures Visible(Paint(s, t)) == t
    ensures EndsWith(Paint(s, t), RESET)
  {
    WrapShows(Number(s), t, []);
    ResetIsCode();
    assert Paint(s, t) == Sgr(Number(s)) + t + Sgr(0) + [];
  }

  /** The four log helpers: the background, then the foreground, around
      each string argument. */
  datatype Level = Info | Success | Warn | Danger

  function Colours(level: Level): (Style, Style)
  {
    match level
    case Info => (BgBlue, Black)
    case Success => (BgGreen, Black)
    case Warn => (BgYellow, Black)
    case Danger => (BgRed, White)
  }

  function Format(level: Level, text: string): string
  {
    var (bg, fg) := Colours(level);
    Paint(bg, Paint(fg, text))
  }

  /** `info(...a)` and the rest: each argument formatted alone. */
  function Log(level: Level, args: seq<string>): (r: seq<string>)
    ensures |r| == |args| && forall i :: 0 <= i < |args| ==> r[i] == Format(level, args[i])
  {
    seq(|args|, i requires 0 <= i < |args| => Format(level, args[i]))
  }

  /** Text inside two sequences and two resets reads as the text. */
  lemma NestedShows(n: nat, m: nat, t: string)
    requires ESC !in t
    ensures Visible(Sgr(n) + Sgr(m) + t + Sgr(0) + Sgr(0)) == t
  {
    WrapShows(m, t, Sgr(0));
    assert Sgr(n) + Sgr(m) + t + Sgr(0) + Sgr(0) == Sgr(n) + (Sgr(m) + t + Sgr(0) + Sgr(0));
    SgrInvisible(n, Sgr(m) + t + Sgr(0) + Sgr(0));
    SgrInvisible(0, []);
  }

  /** A formatted argument is the two codes, the text and two resets,
      and it reads as the text. */
  lemma FormatLayout(level: Level, t: string)
    requires ESC !in t
    ensures Format(level, t) == Code(Colours(level).0) + Code(Colours(level).1) + t + RESET + RESET
    ensures Visible(Format(level, t)) == t
  {
    var bg, fg := Colours(level).0, Colours(level).1;
    assert Format(level, t) == Paint(bg, Paint(fg, t));
    var n, m := Number(bg), Number(fg);
    ResetIsCode();
    assert Paint(bg, Paint(fg, t)) == Sgr(n) + (Sgr(m) + t + Sgr(0)) + Sgr(0);
    assert Sgr(n) + (Sgr(m) + t + Sgr(0)) + Sgr(0) == Sgr(n) + Sgr(m) + t + Sgr(0) + Sgr(0);
    NestedShows(n, m, t);
  }
}
