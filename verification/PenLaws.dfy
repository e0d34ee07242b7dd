/**
  What a list of SGR arguments does to each attribute of the pen: the last
  selector that has something to say about it decides.
 */
module PenLaws {
  import opened Basics
  import opened Pens

  // --- Cutting a list of arguments into selectors ---

  /** How many arguments the selector at the front claims, sub-arguments or not. */
  function Claims(args: seq<Arg>): (n: nat)
    requires |args| > 0
    ensures 1 <= n <= |args|
  {
    var v := args[0].value;
    if v == 4 && args[0].more && |args| > 1 then 2
    else if (v == 38 || v == 48) && |args| > 1 then
      if args[1].value == 2 then (if |args| < 5 then |args| else 5)
      else if args[1].value == 5 then (if |args| < 3 then |args| else 3)
      else 2
    else 1
  }

  /** The first `n` arguments are what the front selector claims and the sub-arguments behind that. */
  predicate Whole(args: seq<Arg>, n: nat) {
    && 1 <= n <= |args| && Claims(args) <= n && !args[n - 1].more
    && forall i :: Claims(args) - 1 <= i < n - 1 ==> args[i].more
  }

  predicate CutInto(args: seq<Arg>, selectors: seq<seq<Arg>>)
    decreases |selectors|
  {
    if selectors == [] then args == []
    else
      && selectors[0] <= args && Whole(args, |selectors[0]|)
      && CutInto(args[|selectors[0]|..], selectors[1..])
  }

  lemma {:induction false} BehindEnds(args: seq<Arg>, k: nat)
    requires k < |args| && !args[|args| - 1].more
    ensures var n := Behind(args, k); !args[n - 1].more && forall i :: k <= i < n - 1 ==> args[i].more
    decreases |args| - k
  {
    if args[k].more { BehindEnds(args, k + 1); }
  }

  lemma FrontIsWhole(args: seq<Arg>)
    requires Complete(args)
    ensures Whole(args, Behind(args, Taken(args)))
  {
    BehindEnds(args, Taken(args));
    assert Claims(args) == Taken(args) + 1;
  }

  /** There is one way to cut only. */
  lemma WholeIsFront(args: seq<Arg>, n: nat)
    requires Complete(args) && Whole(args, n)
    ensures n == Behind(args, Taken(args))
  {
    FrontIsWhole(args);
    var m := Behind(args, Taken(args));
    EndsOnce(args, n, m);
    EndsOnce(args, m, n);
  }

  lemma EndsOnce(args: seq<Arg>, m: nat, n: nat)
    requires |args| > 0 && Whole(args, m) && Whole(args, n)
    ensures m >= n
  {
  }

  /** Every readable list can be cut into selectors. */
  lemma {:induction false} CanBeCut(args: seq<Arg>) returns (selectors: seq<seq<Arg>>)
    requires Readable(args)
    ensures CutInto(args, selectors)
    decreases |args|
  {
    if args == [] {
      selectors := [];
    } else {
      var n := Behind(args, Taken(args));
      FrontIsWhole(args);
      selectors := CanBeCut(args[n..]);
      selectors := [args[..n]] + selectors;
    }
  }

  // --- The table, attribute by attribute ---

  datatype Says<+T> = Nothing | To(value: T)

  /** The number of a selector; 1000 stands for no selector at all. */
  function Number(s: seq<Arg>): nat {
    if |s| == 0 then 1000 else s[0].value
  }

  predicate Resets(v: nat) {
    v == 0 || v == 0x7FFF_FFFF
  }

  /** Attributes that one selector switches on and another off. */
  function Flag(v: nat, on: nat, off: nat): Says<bool> {
    if Resets(v) || v == off then To(false) else if v == on then To(true) else Nothing
  }

  function FlagSays(s: seq<Arg>, on: nat, off: nat): Says<bool> {
    Flag(Number(s), on, off)
  }

  function BoldSays(s: seq<Arg>): Says<bool> { FlagSays(s, 1, 22) }
  function ItalicSays(s: seq<Arg>): Says<bool> { FlagSays(s, 3, 23) }
  function BlinkSays(s: seq<Arg>): Says<bool> { FlagSays(s, 5, 25) }
  function InverseSays(s: seq<Arg>): Says<bool> { FlagSays(s, 7, 27) }
  function ConcealSays(s: seq<Arg>): Says<bool> { FlagSays(s, 8, 28) }
  function StrikeSays(s: seq<Arg>): Says<bool> { FlagSays(s, 9, 29) }

  /** Selector 4 may say how to underline in a sub-argument. */
  function UnderlineSays(s: seq<Arg>): Says<Underline> {
    var v := Number(s);
    if Resets(v) || v == 24 then To(Off)
    else if v == 21 then To(Double)
    else if v != 4 then Nothing
    else if |s| > 1 && s[0].more && s[1].value == 0 then To(Off)
    else if |s| > 1 && s[0].more && s[1].value == 2 then To(Double)
    else if |s| > 1 && s[0].more && s[1].value == 3 then To(Curly)
    else To(Single)
  }

  function FontSays(s: seq<Arg>): Says<nat> {
    var v := Number(s);
    if Resets(v) then To(0) else if 10 <= v <= 19 then To(v - 10) else Nothing
  }

  function SmallSays(s: seq<Arg>): Says<bool> {
    var v := Number(s);
    if Resets(v) || v == 75 then To(false) else if v == 73 || v == 74 then To(true) else Nothing
  }

  function BaselineSays(s: seq<Arg>): Says<Baseline> {
    var v := Number(s);
    if Resets(v) || v == 75 then To(Normal) else if v == 73 then To(Raise) else if v == 74 then To(Lower) else Nothing
  }

  /** The colour that the arguments of a colour selector pick, if they do. */
  function Pick(s: seq<Arg>): Says<Color> {
    if |s| >= 5 && s[1].value == 2 then To(Rgb(s[2].value % 256, s[3].value % 256, s[4].value % 256))
    else if |s| >= 3 && s[1].value == 5 && s[2].value != 0x7FFF_FFFF then To(Indexed(s[2].value % 256))
    else Nothing
  }

  /** A colour: eight from `first` on, eight bright ones from `bright` on, any after `any`, and none at all. */
  function ColorSays(s: seq<Arg>, first: nat, bright: nat, any: nat, none: nat): Says<Color> {
    var v := Number(s);
    if Resets(v) || v == none then To(Default)
    else if first <= v < first + 8 then To(Indexed(v - first))
    else if bright <= v < bright + 8 then To(Indexed(v - bright + 8))
    else if v == any then Pick(s)
    else Nothing
  }

  function ForegroundSays(s: seq<Arg>): Says<Color> { ColorSays(s, 30, 90, 38, 39) }
  function BackgroundSays(s: seq<Arg>): Says<Color> { ColorSays(s, 40, 100, 48, 49) }

  // --- The last word ---

  function Column<T>(selectors: seq<seq<Arg>>, f: seq<Arg> -> Says<T>): seq<Says<T>> {
    seq(|selectors|, i requires 0 <= i < |selectors| => f(selectors[i]))
  }

  /** The value is what the last one that says anything says, or what it was. */
  ghost predicate Latest<T(!new)>(says: seq<Says<T>>, was: T, now: T) {
    || (now == was && forall i :: 0 <= i < |says| ==> says[i].Nothing?)
    || exists i :: 0 <= i < |says| && says[i] == To(now) && forall j :: i < j < |says| ==> says[j].Nothing?
  }

  function Heard<T>(says: Says<T>, was: T): T {
    match says case Nothing => was case To(v) => v
  }

  lemma LatestCons<T(!new)>(selectors: seq<seq<Arg>>, f: seq<Arg> -> Says<T>, was: T, now: T)
    requires selectors != [] && Latest(Column(selectors[1..], f), Heard(f(selectors[0]), was), now)
    ensures Latest(Column(selectors, f), was, now)
  {
    var all, rest := Column(selectors, f), Column(selectors[1..], f);
    assert forall i :: 0 <= i < |rest| ==> all[i + 1] == rest[i];
    if i :| 0 <= i < |rest| && rest[i] == To(now) && forall j :: i < j < |rest| ==> rest[j].Nothing? {
      assert forall j :: i + 1 < j < |all| ==> all[j] == rest[j - 1];
      assert all[i + 1] == To(now);
    } else {
      assert forall j :: 0 < j < |all| ==> all[j] == rest[j - 1];
      assert all[0] == f(selectors[0]);
    }
  }

  // --- One selector ---

  /** The bright form of one of the first eight colours. */
  function Brighter(color: Color): Color {
    match color
    case Indexed(i) => if i < 8 then Indexed(i + 8) else color
    case _ => color
  }

  predicate TurnsBold(s: seq<Arg>) {
    Number(s) == 1
  }

  /** One of the first eight colours, which bold makes bright. */
  predicate PicksDark(s: seq<Arg>) {
    30 <= Number(s) <= 37
  }

  lemma FrontArgs(args: seq<Arg>, s: seq<Arg>)
    requires Complete(args) && s <= args && Whole(args, |s|)
    ensures Number(s) == args[0].value
    ensures Number(s) == 4 ==> UnderlineSays(s) == To(UnderlineFrom(args))
    ensures Number(s) == 38 || Number(s) == 48 ==>
      Pick(s) == if ColorFrom(args) == Default then Nothing else To(ColorFrom(args))
  {
    assert forall i :: 0 <= i < |s| ==> s[i] == args[i];
  }

  /** What one selector makes of the attributes that are on or off. */
  predicate FlagsHeard(s: seq<Arg>, pen: Pen, r: Pen) {
    && r.bold == Heard(BoldSays(s), pen.bold) && r.italic == Heard(ItalicSays(s), pen.italic)
    && r.blink == Heard(BlinkSays(s), pen.blink) && r.inverse == Heard(InverseSays(s), pen.inverse)
    && r.conceal == Heard(ConcealSays(s), pen.conceal) && r.strike == Heard(StrikeSays(s), pen.strike)
  }

  predicate ShapesHeard(s: seq<Arg>, pen: Pen, r: Pen) {
    && r.underline == Heard(UnderlineSays(s), pen.underline) && r.font == Heard(FontSays(s), pen.font)
    && r.small == Heard(SmallSays(s), pen.small) && r.baseline == Heard(BaselineSays(s), pen.baseline)
    && r.bg == Heard(BackgroundSays(s), pen.bg)
  }

  /** Bold makes one of the first eight colours bright, if it is shown so. */
  predicate ForegroundHeard(bright: bool, s: seq<Arg>, pen: Pen, r: Pen) {
    var heard := Heard(ForegroundSays(s), pen.fg);
    r.fg == if bright && (TurnsBold(s) || (PicksDark(s) && pen.bold)) then Brighter(heard) else heard
  }

  /** The table and the meaning of a selector agree on the attributes that are on or off. */
  predicate FlagsAgree(s: seq<Arg>, c: Change) {
    && BoldSays(s) == (if c.Reset? then To(false) else if c.Bold? then To(c.on) else Nothing)
    && ItalicSays(s) == (if c.Reset? then To(false) else if c.Italic? then To(c.on) else Nothing)
    && BlinkSays(s) == (if c.Reset? then To(false) else if c.Blink? then To(c.on) else Nothing)
    && InverseSays(s) == (if c.Reset? then To(false) else if c.Inverse? then To(c.on) else Nothing)
    && ConcealSays(s) == (if c.Reset? then To(false) else if c.Conceal? then To(c.on) else Nothing)
    && StrikeSays(s) == (if c.Reset? then To(false) else if c.Strike? then To(c.on) else Nothing)
  }

  predicate ShapesAgree(s: seq<Arg>, c: Change) {
    && UnderlineSays(s) == (if c.Reset? then To(Off) else if c.Underlined? then To(c.underline) else Nothing)
    && FontSays(s) == (if c.Reset? then To(0) else if c.Font? then To(c.number) else Nothing)
    && SmallSays(s) == (if c.Reset? then To(false) else if c.Script? then To(c.baseline != Normal) else Nothing)
    && BaselineSays(s) == (if c.Reset? then To(Normal) else if c.Script? then To(c.baseline) else Nothing)
  }

  predicate ColorsAgree(s: seq<Arg>, c: Change) {
    && BackgroundSays(s) == (if c.Reset? then To(Default) else if c.Ground? then To(c.color) else Nothing)
    && ForegroundSays(s) == (if c.Reset? then To(Default) else if c.Text? then To(c.color)
                             else if c.Dark? then To(Indexed(c.index)) else Nothing)
    && (TurnsBold(s) <==> c.Bold? && c.on) && (PicksDark(s) <==> c.Dark?)
  }

  lemma FlagsMeant(s: seq<Arg>, underline: Underline, color: Color)
    ensures FlagsAgree(s, Meaning(Number(s), underline, color))
  {
  }

  lemma ShapesMeant(s: seq<Arg>, underline: Underline, color: Color)
    requires Number(s) == 4 ==> UnderlineSays(s) == To(underline)
    ensures ShapesAgree(s, Meaning(Number(s), underline, color))
  {
  }

  lemma ColorsMeant(s: seq<Arg>, underline: Underline, color: Color)
    requires Number(s) == 38 || Number(s) == 48 ==> Pick(s) == if color == Default then Nothing else To(color)
    ensures ColorsAgree(s, Meaning(Number(s), underline, color))
  {
  }

  lemma FlagsChanged(bright: bool, pen: Pen, s: seq<Arg>, c: Change)
    requires FlagsAgree(s, c)
    ensures FlagsHeard(s, pen, Changed(bright, pen, c))
  {
    FlagFields(bright, pen, c, Changed(bright, pen, c));
    FlagsAgreed(pen, s, c, Changed(bright, pen, c));
  }

  lemma FlagsAgreed(pen: Pen, s: seq<Arg>, c: Change, r: Pen)
    requires FlagsAgree(s, c)
    requires r.bold == (if c.Reset? then false else if c.Bold? then c.on else pen.bold)
    requires r.italic == (if c.Reset? then false else if c.Italic? then c.on else pen.italic)
    requires r.blink == (if c.Reset? then false else if c.Blink? then c.on else pen.blink)
    requires r.inverse == (if c.Reset? then false else if c.Inverse? then c.on else pen.inverse)
    requires r.conceal == (if c.Reset? then false else if c.Conceal? then c.on else pen.conceal)
    requires r.strike == (if c.Reset? then false else if c.Strike? then c.on else pen.strike)
    ensures FlagsHeard(s, pen, r)
  {
  }

  predicate ConcernsFlags(c: Change) {
    c.Bold? || c.Italic? || c.Blink? || c.Inverse? || c.Conceal? || c.Strike? || c.Reset?
  }

  lemma FlagFields(bright: bool, pen: Pen, c: Change, r: Pen)
    requires r == Changed(bright, pen, c)
    ensures r.bold == (if c.Reset? then false else if c.Bold? then c.on else pen.bold)
    ensures r.italic == (if c.Reset? then false else if c.Italic? then c.on else pen.italic)
    ensures r.blink == (if c.Reset? then false else if c.Blink? then c.on else pen.blink)
    ensures r.inverse == (if c.Reset? then false else if c.Inverse? then c.on else pen.inverse)
    ensures r.conceal == (if c.Reset? then false else if c.Conceal? then c.on else pen.conceal)
    ensures r.strike == (if c.Reset? then false else if c.Strike? then c.on else pen.strike)
  {
    if ConcernsFlags(c) { FlagsTurned(bright, pen, c); } else { FlagsLeft(bright, pen, c); }
  }

  lemma FlagsTurned(bright: bool, pen: Pen, c: Change)
    requires ConcernsFlags(c)
    ensures var r := Changed(bright, pen, c);
      && r.bold == (if c.Reset? then false else if c.Bold? then c.on else pen.bold)
      && r.italic == (if c.Reset? then false else if c.Italic? then c.on else pen.italic)
      && r.blink == (if c.Reset? then false else if c.Blink? then c.on else pen.blink)
      && r.inverse == (if c.Reset? then false else if c.Inverse? then c.on else pen.inverse)
      && r.conceal == (if c.Reset? then false else if c.Conceal? then c.on else pen.conceal)
      && r.strike == (if c.Reset? then false else if c.Strike? then c.on else pen.strike)
  {
    match c
    case Bold(_) =>
    case Italic(_) =>
    case Blink(_) =>
    case Inverse(_) =>
    case Conceal(_) =>
    case Strike(_) =>
    case Reset =>
  }

  lemma FlagsLeft(bright: bool, pen: Pen, c: Change)
    requires !ConcernsFlags(c)
    ensures var r := Changed(bright, pen, c);
      && r.bold == pen.bold && r.italic == pen.italic && r.blink == pen.blink
      && r.inverse == pen.inverse && r.conceal == pen.conceal && r.strike == pen.strike
  {
    match c
    case Keep =>
    case Underlined(_) =>
    case Font(_) =>
    case Dark(_) =>
    case Text(_) =>
    case Ground(_) =>
    case Script(_) =>
  }

  lemma ShapesChanged(bright: bool, pen: Pen, s: seq<Arg>, c: Change)
    requires ShapesAgree(s, c) && ColorsAgree(s, c)
    ensures ShapesHeard(s, pen, Changed(bright, pen, c))
  {
  }

  lemma ForegroundChanged(bright: bool, pen: Pen, s: seq<Arg>, c: Change)
    requires ColorsAgree(s, c)
    ensures ForegroundHeard(bright, s, pen, Changed(bright, pen, c))
  {
  }

  lemma SelectHeard(bright: bool, pen: Pen, args: seq<Arg>, s: seq<Arg>)
    requires Complete(args) && s <= args && Whole(args, |s|)
    ensures FlagsHeard(s, pen, Select(bright, pen, args))
    ensures ShapesHeard(s, pen, Select(bright, pen, args))
    ensures ForegroundHeard(bright, s, pen, Select(bright, pen, args))
  {
    FrontArgs(args, s);
    var underline, color := UnderlineFrom(args), ColorFrom(args);
    var c := Meaning(Number(s), underline, color);
    FlagsMeant(s, underline, color);
    ShapesMeant(s, underline, color);
    ColorsMeant(s, underline, color);
    FlagsChanged(bright, pen, s, c);
    ShapesChanged(bright, pen, s, c);
    ForegroundChanged(bright, pen, s, c);
  }

  // --- All selectors ---

  ghost predicate FlagsRead(selectors: seq<seq<Arg>>, pen: Pen, r: Pen) {
    StylesRead(selectors, pen, r) && EffectsRead(selectors, pen, r)
  }

  ghost predicate StylesRead(selectors: seq<seq<Arg>>, pen: Pen, r: Pen) {
    && Latest(Column(selectors, BoldSays), pen.bold, r.bold)
    && Latest(Column(selectors, ItalicSays), pen.italic, r.italic)
    && Latest(Column(selectors, StrikeSays), pen.strike, r.strike)
  }

  ghost predicate EffectsRead(selectors: seq<seq<Arg>>, pen: Pen, r: Pen) {
    && Latest(Column(selectors, BlinkSays), pen.blink, r.blink)
    && Latest(Column(selectors, InverseSays), pen.inverse, r.inverse)
    && Latest(Column(selectors, ConcealSays), pen.conceal, r.conceal)
  }

  ghost predicate ShapesRead(selectors: seq<seq<Arg>>, pen: Pen, r: Pen) {
    && Latest(Column(selectors, UnderlineSays), pen.underline, r.underline)
    && Latest(Column(selectors, FontSays), pen.font, r.font)
    && Latest(Column(selectors, SmallSays), pen.small, r.small)
    && Latest(Column(selectors, BaselineSays), pen.baseline, r.baseline)
    && Latest(Column(selectors, BackgroundSays), pen.bg, r.bg)
  }

  lemma StylesReadCons(selectors: seq<seq<Arg>>, pen: Pen, next: Pen, r: Pen)
    requires selectors != [] && FlagsHeard(selectors[0], pen, next) && StylesRead(selectors[1..], next, r)
    ensures StylesRead(selectors, pen, r)
  {
    LatestCons(selectors, BoldSays, pen.bold, r.bold);
    LatestCons(selectors, ItalicSays, pen.italic, r.italic);
    LatestCons(selectors, StrikeSays, pen.strike, r.strike);
  }

  lemma EffectsReadCons(selectors: seq<seq<Arg>>, pen: Pen, next: Pen, r: Pen)
    requires selectors != [] && FlagsHeard(selectors[0], pen, next) && EffectsRead(selectors[1..], next, r)
    ensures EffectsRead(selectors, pen, r)
  {
    LatestCons(selectors, BlinkSays, pen.blink, r.blink);
    LatestCons(selectors, InverseSays, pen.inverse, r.inverse);
    LatestCons(selectors, ConcealSays, pen.conceal, r.conceal);
  }

  lemma ShapesReadCons(selectors: seq<seq<Arg>>, pen: Pen, next: Pen, r: Pen)
    requires selectors != [] && ShapesHeard(selectors[0], pen, next) && ShapesRead(selectors[1..], next, r)
    ensures ShapesRead(selectors, pen, r)
  {
    LatestCons(selectors, UnderlineSays, pen.underline, r.underline);
    LatestCons(selectors, FontSays, pen.font, r.font);
    LatestCons(selectors, SmallSays, pen.small, r.small);
    LatestCons(selectors, BaselineSays, pen.baseline, r.baseline);
    LatestCons(selectors, BackgroundSays, pen.bg, r.bg);
  }

  /** Each attribute is what the last selector that concerns it says, or what it was if none does. */
  lemma {:induction false} LastSelectorDecides(bright: bool, pen: Pen, args: seq<Arg>, selectors: seq<seq<Arg>>)
    requires Readable(args) && CutInto(args, selectors)
    ensures FlagsRead(selectors, pen, Apply(bright, pen, args)) && ShapesRead(selectors, pen, Apply(bright, pen, args))
    decreases |args|
  {
    if selectors != [] {
      var n, next := |selectors[0]|, Select(bright, pen, args);
      WholeIsFront(args, n);
      LastSelectorDecides(bright, next, args[n..], selectors[1..]);
      SelectHeard(bright, pen, args, selectors[0]);
      StylesReadCons(selectors, pen, next, Apply(bright, pen, args));
      EffectsReadCons(selectors, pen, next, Apply(bright, pen, args));
      ShapesReadCons(selectors, pen, next, Apply(bright, pen, args));
    }
  }

  // --- The foreground ---

  /** Some selector from `i` on turns bold on. */
  ghost predicate BoldFrom(selectors: seq<seq<Arg>>, i: nat) {
    exists j :: i <= j < |selectors| && TurnsBold(selectors[j])
  }

  /** The pen is bold when selector `i` comes up. */
  ghost predicate BoldAt(selectors: seq<seq<Arg>>, pen: Pen, i: nat)
    requires i <= |selectors|
  {
    Latest(Column(selectors[..i], BoldSays), pen.bold, true)
  }

  /** The last selector with a say in the foreground is the one before `i`; there is none if `i` is zero. */
  ghost predicate LastColorBefore(selectors: seq<seq<Arg>>, i: nat) {
    && i <= |selectors| && (i > 0 ==> ForegroundSays(selectors[i - 1]).To?)
    && forall j :: i <= j < |selectors| ==> ForegroundSays(selectors[j]).Nothing?
  }

  /**
    The colour said last, or the old one; bright, if bold is shown so and was
    turned on later, or was on when one of the first eight colours was picked.
   */
  ghost predicate ForegroundRead(bright: bool, selectors: seq<seq<Arg>>, pen: Pen, fg: Color) {
    exists i: nat :: LastColorBefore(selectors, i) && fg == ForegroundFrom(bright, selectors, pen, i)
  }

  ghost function ForegroundFrom(bright: bool, selectors: seq<seq<Arg>>, pen: Pen, i: nat): Color
    requires LastColorBefore(selectors, i)
  {
    var said := if i == 0 then pen.fg else ForegroundSays(selectors[i - 1]).value;
    if bright && (BoldFrom(selectors, i) || (i > 0 && PicksDark(selectors[i - 1]) && BoldAt(selectors, pen, i - 1)))
    then Brighter(said) else said
  }

  lemma BoldAtCons(selectors: seq<seq<Arg>>, pen: Pen, next: Pen, i: nat)
    requires 0 < i <= |selectors| && next.bold == Heard(BoldSays(selectors[0]), pen.bold)
    ensures BoldAt(selectors, pen, i) <==> BoldAt(selectors[1..], next, i - 1)
  {
    var front := selectors[..i];
    assert front[1..] == selectors[1..][..i - 1];
    if BoldAt(selectors[1..], next, i - 1) { LatestCons(front, BoldSays, pen.bold, true); }
    if BoldAt(selectors, pen, i) { LatestSplit(front, BoldSays, pen.bold, true); }
  }

  lemma LatestSplit<T(!new)>(selectors: seq<seq<Arg>>, f: seq<Arg> -> Says<T>, was: T, now: T)
    requires selectors != [] && Latest(Column(selectors, f), was, now)
    ensures Latest(Column(selectors[1..], f), Heard(f(selectors[0]), was), now)
  {
    var all, rest := Column(selectors, f), Column(selectors[1..], f);
    assert forall i :: 0 <= i < |rest| ==> rest[i] == all[i + 1];
    if i :| 0 < i < |all| && all[i] == To(now) && forall j :: i < j < |all| ==> all[j].Nothing? {
      assert rest[i - 1] == To(now);
      assert forall j :: i - 1 < j < |rest| ==> rest[j] == all[j + 1];
    } else {
      assert all[0] == f(selectors[0]);
    }
  }

  lemma ForegroundReadCons(bright: bool, selectors: seq<seq<Arg>>, pen: Pen, next: Pen, fg: Color)
    requires selectors != [] && next.bold == Heard(BoldSays(selectors[0]), pen.bold)
    requires ForegroundHeard(bright, selectors[0], pen, next) && ForegroundRead(bright, selectors[1..], next, fg)
    ensures ForegroundRead(bright, selectors, pen, fg)
  {
    var rest := selectors[1..];
    var i: nat :| LastColorBefore(rest, i) && fg == ForegroundFrom(bright, rest, next, i);
    BoldFromCons(selectors, i);
    if i > 0 {
      BoldAtCons(selectors, pen, next, i);
      assert LastColorBefore(selectors, i + 1) && fg == ForegroundFrom(bright, selectors, pen, i + 1);
    } else if ForegroundSays(selectors[0]).To? {
      assert LastColorBefore(selectors, 1);
      assert BoldAt(selectors, pen, 0) <==> pen.bold;
      assert fg == ForegroundFrom(bright, selectors, pen, 1);
    } else {
      assert LastColorBefore(selectors, 0);
      assert BoldFrom(selectors, 0) <==> TurnsBold(selectors[0]) || BoldFrom(selectors, 1);
      assert fg == ForegroundFrom(bright, selectors, pen, 0);
    }
  }

  lemma BoldFromCons(selectors: seq<seq<Arg>>, i: nat)
    requires selectors != []
    ensures BoldFrom(selectors, i + 1) <==> BoldFrom(selectors[1..], i)
  {
    assert forall j :: 0 < j < |selectors| ==> selectors[j] == selectors[1..][j - 1];
    if j :| i + 1 <= j < |selectors| && TurnsBold(selectors[j]) { assert TurnsBold(selectors[1..][j - 1]); }
    if j :| i <= j < |selectors| - 1 && TurnsBold(selectors[1..][j]) { assert TurnsBold(selectors[j + 1]); }
  }

  /** The foreground is the colour said last, brightened where bold is shown as bright. */
  lemma {:induction false} LastColorDecides(bright: bool, pen: Pen, args: seq<Arg>, selectors: seq<seq<Arg>>)
    requires Readable(args) && CutInto(args, selectors)
    ensures ForegroundRead(bright, selectors, pen, Apply(bright, pen, args).fg)
    decreases |args|
  {
    if selectors == [] {
      assert LastColorBefore(selectors, 0);
    } else {
      var n, next := |selectors[0]|, Select(bright, pen, args);
      WholeIsFront(args, n);
      LastColorDecides(bright, next, args[n..], selectors[1..]);
      SelectHeard(bright, pen, args, selectors[0]);
      ForegroundReadCons(bright, selectors, pen, next, Apply(bright, pen, args).fg);
    }
  }
}
