/**
  The pen of the terminal: setting it from the arguments of an SGR sequence
  and describing it as arguments that set it again.
 */
module Pens {
  import opened Basics

  /** An argument of a control sequence; `more` says that the next one is a sub-argument. */
  datatype Arg = Arg(value: nat, more: bool)

  /** The value of an argument that was left out. */
  const MISSING: nat := 0x7FFF_FFFF

  datatype Color = Default | Rgb(red: byte, green: byte, blue: byte) | Indexed(index: byte)
  datatype Underline = Off | Single | Double | Curly
  datatype Baseline = Normal | Raise | Lower

  datatype Pen = Pen(fg: Color, bg: Color, bold: bool, underline: Underline, italic: bool, blink: bool,
                     inverse: bool, conceal: bool, strike: bool, font: nat, small: bool, baseline: Baseline)

  const RESET := Pen(Default, Default, false, Off, false, false, false, false, false, 0, false, Normal)

  // --- Reading arguments ---

  /** The position of the last argument that the selector at the front takes for itself. */
  function Taken(args: seq<Arg>): (k: nat)
    requires Complete(args)
    ensures k < |args|
  {
    if args[0].value == 4 && args[0].more then 1
    else if args[0].value == 38 || args[0].value == 48 then 1 + ColorArgs(args[1].value, |args| - 2)
    else 0
  }

  function ColorArgs(palette: nat, available: nat): (n: nat)
    ensures n <= available
  {
    if palette == 2 then (if available < 3 then available else 3)
    else if palette == 5 then (if available == 0 then 0 else 1)
    else 0
  }

  /** The position behind `k` and all sub-arguments that follow. */
  function Behind(args: seq<Arg>, k: nat): (n: nat)
    requires k < |args| && !args[|args| - 1].more
    ensures k < n <= |args|
    decreases |args| - k
  {
    if args[k].more then Behind(args, k + 1) else k + 1
  }

  /** The front selector has the arguments that it always reads, and no sub-argument is missing at the end. */
  predicate Complete(args: seq<Arg>) {
    && |args| > 0 && !args[|args| - 1].more
    && (args[0].value == 38 || args[0].value == 48 ==> |args| >= 2)
  }

  /** Every selector has the arguments that it always reads. */
  predicate Readable(args: seq<Arg>)
    decreases |args|
  {
    args == [] || (Complete(args) && Readable(args[Behind(args, Taken(args))..]))
  }

  /** The colour picked by the arguments behind a colour selector, if any. */
  function ColorFrom(args: seq<Arg>): Color {
    if |args| >= 5 && args[1].value == 2 then
      Rgb(args[2].value % 256, args[3].value % 256, args[4].value % 256)
    else if |args| >= 3 && args[1].value == 5 && args[2].value != MISSING then
      Indexed(args[2].value % 256)
    else Default
  }

  function Picked(color: Color, was: Color): Color {
    if color == Default then was else color
  }

  function UnderlineFrom(args: seq<Arg>): Underline
    requires |args| > 0
  {
    if |args| >= 2 && args[0].more then
      match args[1].value
      case 0 => Off
      case 2 => Double
      case 3 => Curly
      case _ => Single
    else Single
  }

  /** Turning bold on brightens a foreground colour of the first eight, if bold is shown as bright. */
  function Bolder(bright: bool, fg: Color): Color {
    if bright && fg.Indexed? && fg.index < 8 then Indexed(fg.index + 8) else fg
  }

  /** What a selector is about. */
  datatype Change =
    | Keep
    | Reset
    | Bold(on: bool)
    | Italic(on: bool)
    | Blink(on: bool)
    | Inverse(on: bool)
    | Conceal(on: bool)
    | Strike(on: bool)
    | Underlined(underline: Underline)
    | Font(number: nat)
    | Dark(index: byte)
    | Text(color: Color)
    | Ground(color: Color)
    | Script(baseline: Baseline)

  /** The meaning of selector `v`, whose further arguments pick `underline` or `color`, if they matter. */
  function Meaning(v: nat, underline: Underline, color: Color): (change: Change)
    ensures change.Font? ==> change.number <= 9
  {
    if v == 0 || v == MISSING then Reset
    else if v == 1 then Bold(true)
    else if v == 3 then Italic(true)
    else if v == 4 then Underlined(underline)
    else if v == 5 then Blink(true)
    else if v == 7 then Inverse(true)
    else if v == 8 then Conceal(true)
    else if v == 9 then Strike(true)
    else if 10 <= v <= 19 then Font(v - 10)
    else if v == 21 then Underlined(Double)
    else if v == 22 then Bold(false)
    else if v == 23 then Italic(false)
    else if v == 24 then Underlined(Off)
    else if v == 25 then Blink(false)
    else if v == 27 then Inverse(false)
    else if v == 28 then Conceal(false)
    else if v == 29 then Strike(false)
    else if 30 <= v <= 37 then Dark(v - 30)
    else if v == 38 then (if color == Default then Keep else Text(color))
    else if v == 39 then Text(Default)
    else if 40 <= v <= 47 then Ground(Indexed(v - 40))
    else if v == 48 then (if color == Default then Keep else Ground(color))
    else if v == 49 then Ground(Default)
    else if v == 73 then Script(Raise)
    else if v == 74 then Script(Lower)
    else if v == 75 then Script(Normal)
    else if 90 <= v <= 97 then Text(Indexed(v - 90 + 8))
    else if 100 <= v <= 107 then Ground(Indexed(v - 100 + 8))
    else Keep
  }

  function Changed(bright: bool, pen: Pen, change: Change): (r: Pen)
    ensures Proper(pen) && (change.Font? ==> change.number <= 9) ==> Proper(r)
  {
    match change
    case Keep => pen
    case Reset => RESET
    case Bold(on) => if on then pen.(bold := true, fg := Bolder(bright, pen.fg)) else pen.(bold := false)
    case Italic(on) => pen.(italic := on)
    case Blink(on) => pen.(blink := on)
    case Inverse(on) => pen.(inverse := on)
    case Conceal(on) => pen.(conceal := on)
    case Strike(on) => pen.(strike := on)
    case Underlined(underline) => pen.(underline := underline)
    case Font(n) => pen.(font := n)
    case Dark(i) => pen.(fg := if pen.bold then Bolder(bright, Indexed(i)) else Indexed(i))
    case Text(color) => pen.(fg := color)
    case Ground(color) => pen.(bg := color)
    case Script(baseline) => pen.(small := baseline != Normal, baseline := baseline)
  }

  function Set(bright: bool, pen: Pen, v: nat, underline: Underline, color: Color): (r: Pen)
    ensures Proper(pen) ==> Proper(r)
  {
    Changed(bright, pen, Meaning(v, underline, color))
  }

  function Select(bright: bool, pen: Pen, args: seq<Arg>): Pen
    requires Complete(args)
  {
    Set(bright, pen, args[0].value, UnderlineFrom(args), ColorFrom(args))
  }

  function Apply(bright: bool, pen: Pen, args: seq<Arg>): Pen
    requires Readable(args)
    decreases |args|
  {
    if args == [] then pen else Apply(bright, Select(bright, pen, args), args[Behind(args, Taken(args))..])
  }

  lemma ApplySelect(bright: bool, pen: Pen, args: seq<Arg>, from: nat) returns (after: Pen, next: nat)
    requires from < |args| && Readable(args[from..])
    ensures after == Select(bright, pen, args[from..]) && (Proper(pen) ==> Proper(after))
    ensures from < next == from + Behind(args[from..], Taken(args[from..])) <= |args|
    ensures Readable(args[next..]) && Apply(bright, pen, args[from..]) == Apply(bright, after, args[next..])
  {
    after := Select(bright, pen, args[from..]);
    next := from + Behind(args[from..], Taken(args[from..]));
    assert args[from..][next - from..] == args[next..];
  }

  // --- Pens that occur ---

  /** Fonts are numbered 0 to 9, and the pen is small exactly off the normal baseline. */
  predicate Proper(pen: Pen) {
    pen.font <= 9 && (pen.small <==> !pen.baseline.Normal?)
  }

  lemma {:induction false} ApplyProper(bright: bool, pen: Pen, args: seq<Arg>)
    requires Proper(pen) && Readable(args)
    ensures Proper(Apply(bright, pen, args))
    decreases |args|
  {
    if args != [] {
      ApplyProper(bright, Select(bright, pen, args), args[Behind(args, Taken(args))..]);
    }
  }

  // --- Describing a pen ---

  function If(b: bool, v: nat): seq<Arg> {
    if b then [Arg(v, false)] else []
  }

  function DescribeColor(color: Color, fg: bool): seq<Arg> {
    match color
    case Default => []
    case Indexed(i) =>
      if i < 8 then [Arg(i + if fg then 30 else 40, false)]
      else if i < 16 then [Arg(i - 8 + if fg then 90 else 100, false)]
      else [Arg(if fg then 38 else 48, true), Arg(5, true), Arg(i, false)]
    case Rgb(r, g, b) =>
      [Arg(if fg then 38 else 48, true), Arg(2, true), Arg(r, true), Arg(g, true), Arg(b, false)]
  }

  /** The parts of a description, each empty or one selector. */
  function Part(pen: Pen, n: nat): seq<Arg> {
    if n == 0 then If(pen.bold, 1)
    else if n == 1 then If(pen.italic, 3)
    else if n == 2 then If(pen.underline == Single, 4)
    else if n == 3 then (if pen.underline == Curly then [Arg(4, true), Arg(3, false)] else [])
    else if n == 4 then If(pen.blink, 5)
    else if n == 5 then If(pen.inverse, 7)
    else if n == 6 then If(pen.conceal, 8)
    else if n == 7 then If(pen.strike, 9)
    else if n == 8 then If(pen.font != 0, 10 + pen.font)
    else if n == 9 then If(pen.underline == Double, 21)
    else if n == 10 then DescribeColor(pen.fg, true)
    else if n == 11 then DescribeColor(pen.bg, false)
    else If(pen.small && !pen.baseline.Normal?, if pen.baseline == Raise then 73 else 74)
  }

  function Parts(pen: Pen): seq<seq<Arg>> {
    seq(13, i requires i >= 0 => Part(pen, i))
  }

  function Concat(parts: seq<seq<Arg>>): seq<Arg> {
    if parts == [] then [] else parts[0] + Concat(parts[1..])
  }

  function Describe(pen: Pen): seq<Arg> {
    Concat(Parts(pen))
  }

  // --- Round trip ---

  /** Exactly one selector, which would take no more if more followed. */
  predicate OneSelector(s: seq<Arg>) {
    && |s| > 0 && !s[|s| - 1].more && (forall i :: 0 <= i < |s| - 1 ==> s[i].more)
    && (s[0].value == 38 || s[0].value == 48 ==>
          |s| >= 2 && ((s[1].value == 2 && |s| >= 5) || (s[1].value == 5 && |s| >= 3)))
  }

  lemma {:induction false} BehindSelector(s: seq<Arg>, rest: seq<Arg>, k: nat)
    requires OneSelector(s) && k < |s| && (rest != [] ==> !rest[|rest| - 1].more)
    ensures !(s + rest)[|s + rest| - 1].more && Behind(s + rest, k) == |s|
    decreases |s| - k
  {
    if k < |s| - 1 {
      BehindSelector(s, rest, k + 1);
    }
  }

  lemma SelectFirst(bright: bool, pen: Pen, s: seq<Arg>, rest: seq<Arg>)
    requires OneSelector(s) && Readable(rest)
    ensures Complete(s) && Readable(s + rest)
    ensures Apply(bright, pen, s + rest) == Apply(bright, Select(bright, pen, s), rest)
  {
    var all := s + rest;
    assert all[0] == s[0] && (|s| > 1 ==> all[1] == s[1]);
    BehindSelector(s, rest, Taken(all));
    assert all[|s|..] == rest;
    assert UnderlineFrom(all) == UnderlineFrom(s);
    SameUse(bright, pen, s, rest);
  }

  /** Further arguments matter only to the selectors that use them. */
  lemma SetUses(bright: bool, pen: Pen, v: nat, underline: Underline, color: Color, other: Underline, paint: Color)
    requires v == 4 ==> underline == other
    requires v == 38 || v == 48 ==> color == paint
    ensures Set(bright, pen, v, underline, color) == Set(bright, pen, v, other, paint)
  {
    assert Meaning(v, underline, color) == Meaning(v, other, paint);
  }

  /** A selector does the same whatever follows it. */
  lemma SameUse(bright: bool, pen: Pen, s: seq<Arg>, rest: seq<Arg>)
    requires OneSelector(s) && Complete(s) && Complete(s + rest)
    ensures Select(bright, pen, s + rest) == Select(bright, pen, s)
  {
    var all := s + rest;
    assert forall i :: 0 <= i < |s| ==> all[i] == s[i];
    assert s[0].value == 38 || s[0].value == 48 ==> ColorFrom(all) == ColorFrom(s);
    SetUses(bright, pen, s[0].value, UnderlineFrom(all), ColorFrom(all), UnderlineFrom(s), ColorFrom(s));
  }

  predicate Lossy(bright: bool, pen: Pen) {
    bright && pen.bold && pen.fg.Indexed? && pen.fg.index < 8
  }

  /** What is set after the first `n` parts of the description of `pen`. */
  function Partial(bright: bool, pen: Pen, n: nat): Pen {
    Pen(if n < 11 then Default else if Lossy(bright, pen) then Indexed(pen.fg.index + 8) else pen.fg,
        if n < 12 then Default else pen.bg,
        n >= 1 && pen.bold,
        if (n >= 3 && pen.underline == Single) || (n >= 4 && pen.underline == Curly) || n >= 10 then pen.underline
        else Off,
        n >= 2 && pen.italic, n >= 5 && pen.blink, n >= 6 && pen.inverse, n >= 7 && pen.conceal, n >= 8 && pen.strike,
        if n >= 9 then pen.font else 0, n >= 13 && pen.small, if n >= 13 then pen.baseline else Normal)
  }

  /** Part `n` is empty or one selector, and sets what the parts before it do not set. */
  predicate Sets(bright: bool, pen: Pen, n: nat) {
    var part := Part(pen, n);
    if part == [] then Partial(bright, pen, n + 1) == Partial(bright, pen, n)
    else
      && OneSelector(part) && Complete(part)
      && Select(bright, Partial(bright, pen, n), part) == Partial(bright, pen, n + 1)
  }

  lemma FlagSets(bright: bool, pen: Pen, n: nat)
    requires n == 0 || n == 1 || 4 <= n <= 7
    ensures Sets(bright, pen, n)
  {
    if n < 4 {
      StyleSets(bright, pen, n);
    } else {
      EffectSets(bright, pen, n);
    }
  }

  lemma StyleSets(bright: bool, pen: Pen, n: nat)
    requires n == 0 || n == 1
    ensures Sets(bright, pen, n)
  {
  }

  lemma EffectSets(bright: bool, pen: Pen, n: nat)
    requires 4 <= n <= 7
    ensures Sets(bright, pen, n)
  {
    match n
    case 4 => case 5 => case 6 => case 7 =>
  }

  lemma UnderlineSets(bright: bool, pen: Pen, n: nat)
    requires n == 2 || n == 3 || n == 9
    ensures Sets(bright, pen, n)
  {
  }

  predicate Basic(color: Color) {
    color.Indexed? && color.index < 16
  }

  /** Colours beyond the first sixteen are described by a colour selector that picks them. */
  lemma ColorDescribed(color: Color, fg: bool)
    requires color != Default && !Basic(color)
    ensures var s := DescribeColor(color, fg);
      && OneSelector(s) && Complete(s) && s[0].value == (if fg then 38 else 48) && ColorFrom(s) == color
  {
  }

  lemma BasicSelected(bright: bool, was: Pen, color: Color, fg: bool)
    requires Basic(color)
    ensures var s := DescribeColor(color, fg);
      && OneSelector(s) && Complete(s)
      && Select(bright, was, s) ==
         if fg then was.(fg := if was.bold then Bolder(bright, color) else color) else was.(bg := color)
  {
  }

  /** Selecting from the description of a colour sets that colour and nothing else. */
  lemma ColorSelected(bright: bool, was: Pen, color: Color, fg: bool)
    requires color != Default
    ensures var s := DescribeColor(color, fg);
      && OneSelector(s) && Complete(s)
      && Select(bright, was, s) ==
         if fg then was.(fg := if was.bold then Bolder(bright, color) else color) else was.(bg := color)
  {
    if Basic(color) {
      BasicSelected(bright, was, color, fg);
    } else {
      ColorDescribed(color, fg);
    }
  }

  lemma ForegroundSets(bright: bool, pen: Pen)
    ensures Sets(bright, pen, 10)
  {
    var was := Partial(bright, pen, 10);
    if pen.fg != Default {
      ColorSelected(bright, was, pen.fg, true);
    }
    assert Partial(bright, pen, 11) == was.(fg := if was.bold then Bolder(bright, pen.fg) else pen.fg);
  }

  lemma BackgroundSets(bright: bool, pen: Pen)
    ensures Sets(bright, pen, 11)
  {
    var was := Partial(bright, pen, 11);
    if pen.bg != Default {
      ColorSelected(bright, was, pen.bg, false);
    }
    assert Partial(bright, pen, 12) == was.(bg := pen.bg);
  }

  lemma FontSets(bright: bool, pen: Pen)
    requires Proper(pen)
    ensures Sets(bright, pen, 8)
  {
  }

  lemma ScriptSets(bright: bool, pen: Pen)
    requires Proper(pen) && !pen.baseline.Normal?
    ensures Sets(bright, pen, 12)
  {
  }

  lemma BaselineSets(bright: bool, pen: Pen)
    requires Proper(pen)
    ensures Sets(bright, pen, 12)
  {
    if !pen.baseline.Normal? { ScriptSets(bright, pen); }
  }

  lemma PartSets(bright: bool, pen: Pen, n: nat)
    requires Proper(pen) && n < 13
    ensures Sets(bright, pen, n)
  {
    if n == 2 || n == 3 || n == 9 {
      UnderlineSets(bright, pen, n);
    } else if n == 8 {
      FontSets(bright, pen);
    } else if n == 10 {
      ForegroundSets(bright, pen);
    } else if n == 11 {
      BackgroundSets(bright, pen);
    } else if n == 12 {
      BaselineSets(bright, pen);
    } else {
      FlagSets(bright, pen, n);
    }
  }

  lemma {:induction false} RestSets(bright: bool, pen: Pen, n: nat)
    requires Proper(pen) && n <= 13
    ensures Readable(Concat(Parts(pen)[n..]))
    ensures Apply(bright, Partial(bright, pen, n), Concat(Parts(pen)[n..])) == Partial(bright, pen, 13)
    decreases 13 - n
  {
    if n < 13 {
      var parts := Parts(pen)[n..];
      assert parts[0] == Part(pen, n) && parts[1..] == Parts(pen)[n + 1..];
      RestSets(bright, pen, n + 1);
      PartSets(bright, pen, n);
      if parts[0] == [] {
        assert Concat(parts) == Concat(parts[1..]);
      } else {
        SelectFirst(bright, Partial(bright, pen, n), parts[0], Concat(parts[1..]));
      }
    }
  }

  /** Setting a fresh pen from the description of a pen gives that pen, but for a bold dark colour shown bright. */
  lemma RoundTrip(bright: bool, pen: Pen)
    requires Proper(pen)
    ensures Readable(Describe(pen))
    ensures Apply(bright, RESET, Describe(pen)) == pen <==> !Lossy(bright, pen)
    ensures Lossy(bright, pen) ==> Apply(bright, RESET, Describe(pen)) == pen.(fg := Indexed(pen.fg.index + 8))
  {
    assert Parts(pen)[0..] == Parts(pen);
    RestSets(bright, pen, 0);
  }

  /** Every pen that any arguments can set is restored by its description, unless bold is shown as bright. */
  lemma ReachablePenRoundTrip(args: seq<Arg>)
    requires Readable(args)
    ensures var pen := Apply(false, RESET, args);
      Readable(Describe(pen)) && Apply(false, RESET, Describe(pen)) == pen
  {
    ApplyProper(false, RESET, args);
    RoundTrip(false, Apply(false, RESET, args));
  }

  lemma BoldPaletteColor()
    ensures var args := [Arg(1, false), Arg(38, true), Arg(5, true), Arg(1, false)];
      Readable(args) && Apply(true, RESET, args) == RESET.(bold := true, fg := Indexed(1))
  {
    var color := [Arg(38, true), Arg(5, true), Arg(1, false)];
    var bold := RESET.(bold := true);
    assert color + [] == color &&
      [Arg(1, false)] + color == [Arg(1, false), Arg(38, true), Arg(5, true), Arg(1, false)];
    SelectFirst(true, bold, color, []);
    SelectFirst(true, RESET, [Arg(1, false)], color);
    assert Select(true, RESET, [Arg(1, false)]) == bold;
    assert Select(true, bold, color) == bold.(fg := Indexed(1));
  }

  /** Bold on, then colour 1 from the palette of 256: with bold shown as bright, the description makes it colour 9. */
  lemma LossyExample()
    ensures var args := [Arg(1, false), Arg(38, true), Arg(5, true), Arg(1, false)];
      && Readable(args) && Lossy(true, Apply(true, RESET, args)) && Readable(Describe(Apply(true, RESET, args)))
      && Apply(true, RESET, Describe(Apply(true, RESET, args))).fg == Indexed(9)
  {
    BoldPaletteColor();
    RoundTrip(true, RESET.(bold := true, fg := Indexed(1)));
  }

  /** The most arguments that the parts from `n` on can have. */
  function Room(pen: Pen, n: nat): nat {
    (if n < 2 then 2 - n else 0)
    + (if n <= 2 && pen.underline == Single then 1 else 0)
    + (if n <= 3 && pen.underline == Curly then 2 else 0)
    + (if n < 4 then 5 else if n < 9 then 9 - n else 0)
    + (if n <= 9 && pen.underline == Double then 1 else 0)
    + (if n <= 10 then 5 else 0) + (if n <= 11 then 5 else 0) + (if n <= 12 then 1 else 0)
  }

  lemma PartFits(pen: Pen, n: nat)
    requires n < 13
    ensures |Part(pen, n)| + Room(pen, n + 1) <= Room(pen, n)
  {
  }

  lemma {:induction false} RestFits(pen: Pen, n: nat)
    requires n <= 13
    ensures |Concat(Parts(pen)[n..])| <= Room(pen, n)
    decreases 13 - n
  {
    if n < 13 {
      var parts := Parts(pen)[n..];
      assert parts[0] == Part(pen, n) && parts[1..] == Parts(pen)[n + 1..];
      PartFits(pen, n);
      RestFits(pen, n + 1);
    }
  }

  /** The caller's room for twenty arguments is enough. */
  lemma DescriptionFits(pen: Pen)
    ensures |Describe(pen)| <= 20
  {
    assert Parts(pen)[0..] == Parts(pen);
    RestFits(pen, 0);
  }

  // --- The terminal state ---

  /** What is written so far and what is still to come make up the description. */
  predicate Written(pen: Pen, n: nat, prefix: seq<Arg>)
    requires n <= 13
  {
    prefix + Concat(Parts(pen)[n..]) == Describe(pen)
  }

  lemma WrittenNext(pen: Pen, n: nat, prefix: seq<Arg>)
    requires n < 13 && Written(pen, n, prefix)
    ensures Written(pen, n + 1, prefix + Part(pen, n)) && |prefix| + |Part(pen, n)| <= |Describe(pen)|
  {
    var parts := Parts(pen)[n..];
    assert parts[0] == Part(pen, n) && parts[1..] == Parts(pen)[n + 1..];
    assert prefix + (Part(pen, n) + Concat(parts[1..])) == prefix + Part(pen, n) + Concat(parts[1..]);
  }

  class PenState {
    var pen: Pen
    var saved: Pen
    var boldIsHighbright: bool

    constructor ()
      ensures pen == RESET && Proper(pen) && Proper(saved)
    {
      pen, saved, boldIsHighbright := RESET, RESET, false;
    }

    method SavePen(save: bool)
      modifies `pen, `saved
      ensures pen == (if save then old(pen) else old(saved)) == saved
    {
      if save {
        saved := pen;
      } else {
        pen := saved;
      }
    }

    /** The colour behind the colour selector at `argi`, and how many arguments were used after the palette. */
    method LookupColor(args: seq<Arg>, argi: nat, was: Color) returns (color: Color, n: nat)
      requires argi + 2 <= |args|
      ensures n == ColorArgs(args[argi + 1].value, |args| - argi - 2)
      ensures color == Picked(ColorFrom(args[argi..]), was)
    {
      var palette, from, count := args[argi + 1].value, argi + 2, |args| - argi - 2;
      color, n := was, 0;
      if palette == 2 {
        if count < 3 {
          n := count;
        } else {
          color, n := Rgb(args[from].value % 256, args[from + 1].value % 256, args[from + 2].value % 256), 3;
        }
      } else if palette == 5 {
        if count == 0 || args[from].value == MISSING {
          n := if count != 0 then 1 else 0;
        } else {
          color, n := Indexed(args[from].value % 256), 1;
        }
      }
    }

    /** The selector at `argi`; moves to the last argument that it uses. */
    method SelectOne(args: seq<Arg>, argi: nat) returns (last: nat)
      requires argi < |args| && Complete(args[argi..])
      modifies `pen
      ensures pen == Select(boldIsHighbright, old(pen), args[argi..])
      ensures last == argi + Taken(args[argi..])
    {
      last := argi;
      var v := args[argi].value;
      if v == 4 {
        last := SelectUnderline(args, argi);
      } else if v == 38 {
        var color, n := LookupColor(args, argi, pen.fg);
        pen := pen.(fg := color);
        last := argi + 1 + n;
      } else if v == 48 {
        var color, n := LookupColor(args, argi, pen.bg);
        pen := pen.(bg := color);
        last := argi + 1 + n;
      } else {
        SetUses(boldIsHighbright, pen, v, Single, Default, UnderlineFrom(args[argi..]), ColorFrom(args[argi..]));
        SelectPlain(v);
      }
    }

    method SelectUnderline(args: seq<Arg>, argi: nat) returns (last: nat)
      requires argi < |args| && (args[argi].more ==> argi + 1 < |args|)
      modifies `pen
      ensures pen == old(pen).(underline := UnderlineFrom(args[argi..]))
      ensures last == if args[argi].more then argi + 1 else argi
    {
      last := argi;
      pen := pen.(underline := Single);
      if args[argi].more {
        last := argi + 1;
        match args[last].value
        case 0 => pen := pen.(underline := Off);
        case 1 => pen := pen.(underline := Single);
        case 2 => pen := pen.(underline := Double);
        case 3 => pen := pen.(underline := Curly);
        case _ =>
      }
    }

    /** The selectors that do not use further arguments. */
    method SelectPlain(v: nat)
      requires v != 4 && v != 38 && v != 48
      modifies `pen
      ensures pen == Set(boldIsHighbright, old(pen), v, Single, Default)
    {
      if v == MISSING || v == 0 {
        pen := RESET;
      } else if v < 20 {
        SwitchOn(v);
      } else if v < 30 {
        SwitchOff(v);
      } else {
        SelectColor(v);
      }
    }

    method SwitchOn(v: nat)
      requires 0 < v < 20 && v != 4
      modifies `pen
      ensures pen == Set(boldIsHighbright, old(pen), v, Single, Default)
    {
      if v == 1 {
        pen := pen.(bold := true);
        if pen.fg.Indexed? && pen.fg.index < 8 && boldIsHighbright {
          pen := pen.(fg := Indexed(pen.fg.index + 8));
        }
      } else if v == 3 {
        pen := pen.(italic := true);
      } else if v == 5 {
        pen := pen.(blink := true);
      } else if v == 7 {
        pen := pen.(inverse := true);
      } else if v == 8 {
        pen := pen.(conceal := true);
      } else if v == 9 {
        pen := pen.(strike := true);
      } else if 10 <= v {
        pen := pen.(font := v - 10);
      }
    }

    method SwitchOff(v: nat)
      requires 20 <= v < 30
      modifies `pen
      ensures pen == Set(boldIsHighbright, old(pen), v, Single, Default)
    {
      if v == 21 {
        pen := pen.(underline := Double);
      } else if v == 22 {
        pen := pen.(bold := false);
      } else if v == 23 {
        pen := pen.(italic := false);
      } else if v == 24 {
        pen := pen.(underline := Off);
      } else if v == 25 {
        pen := pen.(blink := false);
      } else if v == 27 {
        pen := pen.(inverse := false);
      } else if v == 28 {
        pen := pen.(conceal := false);
      } else if v == 29 {
        pen := pen.(strike := false);
      }
    }

    method SelectColor(v: nat)
      requires 30 <= v && v != 38 && v != 48 && v != MISSING
      modifies `pen
      ensures pen == Set(boldIsHighbright, old(pen), v, Single, Default)
    {
      if v <= 37 {
        var value := v - 30;
        if pen.bold && boldIsHighbright {
          value := value + 8;
        }
        pen := pen.(fg := Indexed(value));
      } else if v == 39 {
        pen := pen.(fg := Default);
      } else if 40 <= v <= 47 {
        pen := pen.(bg := Indexed(v - 40));
      } else if v == 49 {
        pen := pen.(bg := Default);
      } else if v == 73 || v == 74 || v == 75 {
        pen := pen.(small := v != 75, baseline := if v == 73 then Raise else if v == 74 then Lower else Normal);
      } else if 90 <= v <= 97 {
        pen := pen.(fg := Indexed(v - 90 + 8));
      } else if 100 <= v <= 107 {
        pen := pen.(bg := Indexed(v - 100 + 8));
      }
    }

    /** Behind the sub-arguments that follow `last`. */
    method Skip(args: seq<Arg>, last: nat, ghost argi: nat) returns (next: nat)
      requires argi <= last < |args| && !args[|args| - 1].more
      ensures next == argi + Behind(args[argi..], last - argi)
    {
      next := last;
      while args[next].more
        invariant last <= next < |args| && Behind(args[argi..], next - argi) == Behind(args[argi..], last - argi)
        decreases |args| - next
      {
        next := next + 1;
      }
      next := next + 1;
    }

    method SetPen(args: seq<Arg>)
      requires Readable(args)
      modifies `pen
      ensures pen == Apply(boldIsHighbright, old(pen), args)
      ensures Proper(old(pen)) ==> Proper(pen)
    {
      var argi := 0;
      assert args[0..] == args;
      while argi < |args|
        invariant 0 <= argi <= |args| && Readable(args[argi..])
        invariant Apply(boldIsHighbright, pen, args[argi..]) == Apply(boldIsHighbright, old(pen), args)
        invariant Proper(old(pen)) ==> Proper(pen)
      {
        argi := SetNext(args, argi);
      }
    }

    /** One round of the loop: the selector at `argi` and everything that belongs to it. */
    method SetNext(args: seq<Arg>, argi: nat) returns (next: nat)
      requires argi < |args| && Readable(args[argi..])
      modifies `pen
      ensures argi < next <= |args| && Readable(args[next..])
      ensures Apply(boldIsHighbright, pen, args[next..]) == Apply(boldIsHighbright, old(pen), args[argi..])
      ensures Proper(old(pen)) ==> Proper(pen)
    {
      ghost var after, end := ApplySelect(boldIsHighbright, pen, args, argi);
      var last := SelectOne(args, argi);
      assert pen == after;
      next := Skip(args, last, argi);
      assert next == end;
    }

    /** Writes one part of the description. */
    method Emit(args: array<Arg>, argi: nat, part: seq<Arg>, ghost n: nat) returns (next: nat)
      requires n < 13 && part == Part(pen, n) && argi <= args.Length && args.Length >= 20
      requires Written(pen, n, args[..argi])
      modifies args
      ensures next <= args.Length && Written(pen, n + 1, args[..next])
    {
      WrittenNext(pen, n, args[..argi]);
      DescriptionFits(pen);
      Append(args, argi, part);
      next := argi + |part|;
    }

    method Append(args: array<Arg>, argi: nat, part: seq<Arg>)
      requires argi + |part| <= args.Length
      modifies args
      ensures args[..argi + |part|] == old(args[..argi]) + part
    {
      ghost var prefix := args[..argi];
      for i := 0 to |part|
        invariant args[..argi + i] == prefix + part[..i]
      {
        args[argi + i] := part[i];
      }
      assert part[..|part|] == part;
    }

    method EmitFlags(args: array<Arg>, from: nat) returns (argi: nat)
      requires from <= args.Length && args.Length >= 20 && Written(pen, 4, args[..from])
      modifies args
      ensures argi <= args.Length && Written(pen, 8, args[..argi])
    {
      argi := Emit(args, from, If(pen.blink, 5), 4);
      argi := Emit(args, argi, If(pen.inverse, 7), 5);
      argi := Emit(args, argi, If(pen.conceal, 8), 6);
      argi := Emit(args, argi, If(pen.strike, 9), 7);
    }

    method EmitRest(args: array<Arg>, from: nat) returns (argi: nat)
      requires from <= args.Length && args.Length >= 20 && Written(pen, 8, args[..from])
      modifies args
      ensures argi <= args.Length && Written(pen, 13, args[..argi])
    {
      argi := Emit(args, from, If(pen.font != 0, 10 + pen.font), 8);
      argi := Emit(args, argi, If(pen.underline == Double, 21), 9);
      argi := Emit(args, argi, DescribeColor(pen.fg, true), 10);
      argi := Emit(args, argi, DescribeColor(pen.bg, false), 11);
      argi := Emit(args, argi, If(pen.small && !pen.baseline.Normal?, if pen.baseline == Raise then 73 else 74), 12);
    }

    /** Writes the description and returns how many arguments it has. */
    method GetPen(args: array<Arg>) returns (argi: nat)
      requires args.Length >= 20
      modifies args
      ensures argi <= args.Length && args[..argi] == Describe(pen)
    {
      argi := 0;
      assert Written(pen, 0, args[..0]) by { assert Parts(pen)[0..] == Parts(pen); }
      argi := Emit(args, argi, If(pen.bold, 1), 0);
      argi := Emit(args, argi, If(pen.italic, 3), 1);
      argi := Emit(args, argi, If(pen.underline == Single, 4), 2);
      argi := Emit(args, argi, if pen.underline == Curly then [Arg(4, true), Arg(3, false)] else [], 3);
      argi := EmitFlags(args, argi);
      argi := EmitRest(args, argi);
      assert Parts(pen)[13..] == [];
    }
  }
}
