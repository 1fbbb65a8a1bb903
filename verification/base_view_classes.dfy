/**
 * The single-line widget views: their width rules, the text label's
 * truncation and padding, the slider and progress bar drawings, the
 * run-time width change of the scalable widgets, and the horizontal
 * container that stacks widgets and shares its free width among the
 * scalable ones. Widgets are immutable records; every mutating method is
 * a function returning the new record, or an error result where the
 * original raises. Clearing and printing are not modelled.
 */
module BaseViewClasses {
  import opened Wrappers

  /** The exceptions the widgets raise. */
  datatype WidgetError =
    | TypeError        // UT_TypeError: an argument of the wrong type
    | ValueError       // UT_ValueError: an integer outside its allowed range
    | DoesNotFit       // UT_Exception: a widget too wide for the container's free space

  /** The `Width` argument as the initialisers receive it. */
  datatype WidthArg = NoWidth | IntWidth(n: int) | OtherWidth

  /** The `Value` argument of a bar: a number (an int or a float) or anything else. */
  datatype NumberArg = Number(x: real) | NotNumber

  /** `BarControl_ABC._MinWidth`: the narrowest bar the initialiser accepts. */
  const BarMinWidth: int := 5

  // ---------------------------------------------------------------------
  // Widget width rules

  /**
   * `HWidget_ABC.__init__`: an integer width must reach the class minimum
   * when the class has one and be positive otherwise; no width at all
   * gives 1, even for a class that has a minimum; anything else is a type
   * error.
   */
  function HWidgetWidth(arg: WidthArg, minWidth: Option<int>): (r: Result<int, WidgetError>)
    ensures arg.NoWidth? ==> r == Success(1)
    ensures arg.OtherWidth? ==> r == Failure(TypeError)
    ensures arg.IntWidth? ==> (r.Success? <==> (if minWidth.Some? then arg.n >= minWidth.value else arg.n > 0))
    ensures arg.IntWidth? && r.Success? ==> r.value == arg.n
    ensures arg.IntWidth? && r.Failure? ==> r.error == ValueError
  {
    match arg
    case IntWidth(n) =>
      if minWidth.Some? then
        if n >= minWidth.value then Success(n) else Failure(ValueError)
      else if n > 0 then Success(n) else Failure(ValueError)
    case NoWidth => Success(1)
    case OtherWidth => Failure(TypeError)
  }

  /** Every accepted width is positive when the class minimum is. */
  lemma AcceptedWidthsArePositive(arg: WidthArg, minWidth: Option<int>)
    requires minWidth.Some? ==> minWidth.value >= 1
    ensures HWidgetWidth(arg, minWidth).Success? ==> HWidgetWidth(arg, minWidth).value >= 1
  {
  }

  /** An accepted width is below the class minimum only when no width was given at all. */
  lemma OnlyNoWidthUndercutsTheMinimum(arg: WidthArg, m: int)
    requires m > 1
    ensures HWidgetWidth(arg, Some(m)).Success? && HWidgetWidth(arg, Some(m)).value < m <==> arg.NoWidth?
  {
  }

  // ---------------------------------------------------------------------
  // Alignment

  datatype Align = Left | Center | Right

  /** `str.lower` on one character; only the ASCII letters change. */
  function LowerAscii(c: char): (l: char)
    ensures 'A' <= c <= 'Z' ==> l as int == c as int + 32
    ensures !('A' <= c <= 'Z') ==> l == c
  {
    if 'A' <= c <= 'Z' then (c as int + 32) as char else c
  }

  /** The one-letter code the widgets store for an alignment. */
  function AlignmentCode(a: Align): string {
    match a
    case Left => "l"
    case Center => "c"
    case Right => "r"
  }

  /**
   * The alignment check of the text label initialisers: the argument,
   * lower-cased, must be one of `'c'`, `'l'` or `'r'`.
   */
  function ParseAlignment(s: string): (r: Result<Align, WidgetError>)
    ensures r.Success? <==> |s| == 1 && LowerAscii(s[0]) in {'l', 'c', 'r'}
    ensures r.Failure? ==> r.error == ValueError
    ensures r.Success? ==> AlignmentCode(r.value) == [LowerAscii(s[0])]
  {
    if |s| != 1 then Failure(ValueError)
    else
      var c := LowerAscii(s[0]);
      if c == 'l' then Success(Left)
      else if c == 'c' then Success(Center)
      else if c == 'r' then Success(Right)
      else Failure(ValueError)
  }

  /** The stored code parses back to its alignment, and the check ignores case. */
  lemma AlignmentRoundTrip(a: Align)
    ensures ParseAlignment(AlignmentCode(a)) == Success(a)
    ensures ParseAlignment([(AlignmentCode(a)[0] as int - 32) as char]) == Success(a)
  {
  }

  // ---------------------------------------------------------------------
  // Text label drawing

  /** `c * n`: `n` copies of `c`, none when `n` is not positive. */
  function Replicate(c: char, n: int): (s: string)
    ensures |s| == if n > 0 then n else 0
    ensures forall i | 0 <= i < |s| :: s[i] == c
    decreases if n > 0 then n else 0
  {
    if n <= 0 then "" else [c] + Replicate(c, n - 1)
  }

  /**
   * The shown part of a label's text: the whole text when it is shorter
   * than the width, otherwise its first `width - 1` characters, so there
   * is always room for at least one blank.
   */
  function Truncated(text: string, width: int): (t: string)
    requires width >= 1
    ensures |t| < width
    ensures t <= text
    ensures |t| == |text| || |t| == width - 1
  {
    if |text| < width then text else text[..width - 1]
  }

  /** Where the shown text starts: blanks after it, before it, or `remains // 2` before it. */
  function LabelOffset(shown: int, width: int, align: Align): int {
    match align
    case Left => 0
    case Right => width - shown
    case Center => (width - shown) / 2
  }

  /**
   * `TextLabel.getStringValue`: exactly `width` characters, holding the
   * shown text at the alignment's offset and blanks everywhere else.
   */
  function TextLabelString(text: string, width: int, align: Align): (r: string)
    requires width >= 1
    ensures |r| == width
    ensures var t := Truncated(text, width);
      var k := LabelOffset(|t|, width, align);
      && 0 <= k && k + |t| <= width
      && r[k..k + |t|] == t
      && forall i | 0 <= i < width && !(k <= i < k + |t|) :: r[i] == ' '
  {
    var t := Truncated(text, width);
    var remains := width - |t|;
    match align
    case Left => t + Replicate(' ', remains)
    case Right => Replicate(' ', remains) + t
    case Center =>
      var left := remains / 2;
      var right := remains - left;
      Replicate(' ', left) + t + Replicate(' ', right)
  }

  /**
   * Centred text is balanced: the blanks on the right are as many as on
   * the left or one more, and there is at least one blank in all.
   */
  lemma CenteredPaddingBalanced(text: string, width: int)
    requires width >= 1
    ensures var t := Truncated(text, width);
      var left := LabelOffset(|t|, width, Center);
      var right := width - |t| - left;
      && 0 <= left <= right <= left + 1
      && left + right >= 1
  {
  }

  /** A label shows its whole text exactly when the text is shorter than the width. */
  lemma LabelShowsWholeText(text: string, width: int, align: Align)
    requires width >= 1
    ensures |text| < width <==> Truncated(text, width) == text
    ensures |text| < width ==>
      var k := LabelOffset(|text|, width, align);
      TextLabelString(text, width, align)[k..k + |text|] == text
  {
  }

  // ---------------------------------------------------------------------
  // Bar drawing

  /** Python's `int()` of a number: truncation toward zero. */
  function Trunc(x: real): (n: int)
    ensures x >= 0.0 ==> n as real <= x < n as real + 1.0
    ensures x < 0.0 ==> n as real - 1.0 < x <= n as real
  {
    if x >= 0.0 then x.Floor else -((-x).Floor)
  }

  /** `Slider`: the position of the handle, `1 + int(Value * (BarWidth - 1))`. */
  function SliderPosition(value: real, width: int): int {
    1 + Trunc(value * ((width - 3) as real))
  }

  /** `ProgressBar`: the number of filled cells, `int(Value * BarWidth)`. */
  function ProgressPosition(value: real, width: int): int {
    Trunc(value * ((width - 2) as real))
  }

  /** For any value in `[0, 1]` the handle lies on the bar, and the fill does not overflow it. */
  lemma PositionsInRange(value: real, width: int)
    requires 0.0 <= value <= 1.0
    requires width >= 3
    ensures 1 <= SliderPosition(value, width) <= width - 2
    ensures 0 <= ProgressPosition(value, width) <= width - 2
  {
    ScaledBelow(value, (width - 3) as real);
    ScaledBelow(value, (width - 2) as real);
  }

  /** A fraction of a non-negative length lies between zero and that length. */
  lemma ScaledBelow(value: real, k: real)
    requires 0.0 <= value <= 1.0 && k >= 0.0
    ensures 0.0 <= value * k <= k
  {
    assert (1.0 - value) * k >= 0.0;
  }

  /** A larger value never moves the handle left or empties cells. */
  lemma PositionsMonotone(v1: real, v2: real, width: int)
    requires 0.0 <= v1 <= v2
    requires width >= 3
    ensures SliderPosition(v1, width) <= SliderPosition(v2, width)
    ensures ProgressPosition(v1, width) <= ProgressPosition(v2, width)
  {
    SliderMonotone(v1, v2, width);
    ProgressMonotone(v1, v2, width);
  }

  lemma SliderMonotone(v1: real, v2: real, width: int)
    requires 0.0 <= v1 <= v2 && width >= 3
    ensures SliderPosition(v1, width) <= SliderPosition(v2, width)
  {
    var k := (width - 3) as real;
    assert Trunc(v1 * k) <= Trunc(v2 * k) by {
      ScaledTruncMonotone(v1, v2, k);
    }
    assert SliderPosition(v1, width) == 1 + Trunc(v1 * k);
    assert SliderPosition(v2, width) == 1 + Trunc(v2 * k);
  }

  lemma ProgressMonotone(v1: real, v2: real, width: int)
    requires 0.0 <= v1 <= v2 && width >= 3
    ensures ProgressPosition(v1, width) <= ProgressPosition(v2, width)
  {
    var m := (width - 2) as real;
    assert Trunc(v1 * m) <= Trunc(v2 * m) by {
      ScaledTruncMonotone(v1, v2, m);
    }
    assert ProgressPosition(v1, width) == Trunc(v1 * m);
    assert ProgressPosition(v2, width) == Trunc(v2 * m);
  }

  lemma ScaledTruncMonotone(v1: real, v2: real, k: real)
    requires 0.0 <= v1 <= v2 && k >= 0.0
    ensures Trunc(v1 * k) <= Trunc(v2 * k)
  {
    ScaledMonotone(v1, v2, k);
    TruncMonotone(v1 * k, v2 * k);
  }

  lemma TruncMonotone(x: real, y: real)
    requires 0.0 <= x <= y
    ensures Trunc(x) <= Trunc(y)
  {
    assert Trunc(x) as real <= x && y < Trunc(y) as real + 1.0;
  }

  /** Scaling by a non-negative length keeps the order of non-negative values. */
  lemma ScaledMonotone(v1: real, v2: real, k: real)
    requires 0.0 <= v1 <= v2 && k >= 0.0
    ensures 0.0 <= v1 * k <= v2 * k
  {
    assert (v2 - v1) * k >= 0.0;
  }

  /** The ends of the range: empty and full. */
  lemma PositionsAtTheEnds(width: int)
    requires width >= 3
    ensures SliderPosition(0.0, width) == 1 && SliderPosition(1.0, width) == width - 2
    ensures ProgressPosition(0.0, width) == 0 && ProgressPosition(1.0, width) == width - 2
  {
  }

  /**
   * `Slider.getStringValue` for a handle position `p`: the bar between
   * `<` and `>` is dashes with one `I` at `p`.
   */
  function SliderString(barWidth: int, p: int): (r: string)
    ensures 1 <= p <= barWidth ==>
      && |r| == barWidth + 2
      && r[0] == '<' && r[barWidth + 1] == '>' && r[p] == 'I'
      && forall i | 1 <= i <= barWidth && i != p :: r[i] == '-'
  {
    "<" + (if p > 1 then Replicate('-', p - 1) else "") + "I"
        + (if p < barWidth then Replicate('-', barWidth - p) else "") + ">"
  }

  /**
   * `ProgressBar.getStringValue` for a fill `p`: between `[` and `]`, `p`
   * hashes then blanks.
   */
  function ProgressBarString(barWidth: int, p: int): (r: string)
    ensures 0 <= p <= barWidth ==>
      && |r| == barWidth + 2
      && r[0] == '[' && r[barWidth + 1] == ']'
      && (forall i | 1 <= i <= p :: r[i] == '#')
      && (forall i | p < i <= barWidth :: r[i] == ' ')
  {
    "[" + Replicate('#', p) + (if p < barWidth then Replicate(' ', barWidth - p) else "") + "]"
  }

  /** The handle and the fill can be read back from the drawings. */
  lemma BarDrawingsReadBack(barWidth: int, p: int, q: int)
    requires 1 <= p <= barWidth && 0 <= q <= barWidth
    ensures forall i | 0 <= i < |SliderString(barWidth, p)| :: SliderString(barWidth, p)[i] == 'I' <==> i == p
    ensures forall i | 0 < i <= barWidth :: ProgressBarString(barWidth, q)[i] == '#' <==> i <= q
  {
  }

  /** `BarControl_ABC.setValue`: a number in `[0, 1]`, stored as a float. */
  function BarValue(arg: NumberArg): (r: Result<real, WidgetError>)
    ensures r.Success? <==> arg.Number? && 0.0 <= arg.x <= 1.0
    ensures r.Success? ==> r.value == arg.x
    ensures arg.NotNumber? ==> r == Failure(TypeError)
    ensures arg.Number? && r.Failure? ==> r.error == ValueError
  {
    match arg
    case Number(x) => if x < 0.0 || x > 1.0 then Failure(ValueError) else Success(x)
    case NotNumber => Failure(TypeError)
  }

  // ---------------------------------------------------------------------
  // Widgets

  datatype BarKind = SliderBar | ProgressFill

  /**
   * The widget views. `Label` is `TextLabel`, `LabelVW` is `TextLabelVW`,
   * and `Bar` is a slider or progress bar, scalable for the `VW` classes.
   */
  datatype Widget =
    | Label(text: string, width: int, align: Align)
    | LabelVW(text: string, minWidth: int, width: int, align: Align)
    | Bar(kind: BarKind, value: real, width: int, scalable: bool)

  /** The same widget with another width. */
  function WithWidth(w: Widget, width: int): (r: Widget)
    ensures r.width == width
  {
    match w
    case Label(text, _, align) => Label(text, width, align)
    case LabelVW(text, minWidth, _, align) => LabelVW(text, minWidth, width, align)
    case Bar(kind, value, _, scalable) => Bar(kind, value, width, scalable)
  }

  /** The container's test: the widget has both `MinWidth` and `setWidth`. */
  predicate Scalable(w: Widget) {
    w.LabelVW? || (w.Bar? && w.scalable)
  }

  /** `MinWidth` of a scalable widget. */
  function MinWidthOf(w: Widget): int
    requires Scalable(w)
  {
    if w.LabelVW? then w.minWidth else BarMinWidth
  }

  /** The states the initialisers and setters build. */
  predicate WellFormed(w: Widget) {
    match w
    case Label(_, width, _) => width >= 1
    case LabelVW(text, minWidth, width, _) => minWidth == |text| + 1 && width >= minWidth
    case Bar(_, value, width, _) => 0.0 <= value <= 1.0 && width >= 1
  }

  /**
   * `TextLabel.__init__`: the alignment is checked first; then a positive
   * integer width is taken as given and anything else is replaced by the
   * text length plus one, so the width can no longer fail.
   */
  function NewTextLabel(text: string, width: WidthArg, alignment: string): (r: Result<Widget, WidgetError>)
    ensures r.Success? <==> ParseAlignment(alignment).Success?
    ensures r.Failure? ==> r.error == ValueError
    ensures r.Success? ==> r.value.Label? && WellFormed(r.value) && r.value.text == text
    ensures r.Success? && width.IntWidth? && width.n > 0 ==> r.value.width == width.n
    ensures r.Success? && !(width.IntWidth? && width.n > 0) ==> r.value.width == |text| + 1
    ensures r.Success? && !(width.IntWidth? && width.n > 0) ==> Truncated(text, r.value.width) == text
  {
    var align :- ParseAlignment(alignment);
    var w := if width.IntWidth? && width.n > 0 then width.n else |text| + 1;
    var accepted := HWidgetWidth(IntWidth(w), None);
    Success(Label(text, accepted.value, align))
  }

  /**
   * `TextLabelVW.__init__`: the value sets both the minimum and the width
   * to its length plus one; an integer width may only widen it; then the
   * alignment is checked.
   */
  function NewTextLabelVW(text: string, width: WidthArg, alignment: string): (r: Result<Widget, WidgetError>)
    ensures width.OtherWidth? ==> r == Failure(TypeError)
    ensures width.IntWidth? && width.n < |text| + 1 ==> r == Failure(ValueError)
    ensures r.Success? <==>
      && !width.OtherWidth?
      && !(width.IntWidth? && width.n < |text| + 1)
      && ParseAlignment(alignment).Success?
    ensures r.Success? ==> r.value.LabelVW? && WellFormed(r.value) && r.value.text == text
    ensures r.Success? ==> r.value.width == if width.IntWidth? then width.n else |text| + 1
  {
    var labelled := SetText(LabelVW("", 1, 1, Left), text);
    var w :-
      match width
      case IntWidth(n) => if n >= labelled.minWidth then Success(n) else Failure(ValueError)
      case NoWidth => Success(labelled.width)
      case OtherWidth => Failure(TypeError);
    var align :- ParseAlignment(alignment);
    Success(LabelVW(text, labelled.minWidth, w, align))
  }

  /**
   * The initialiser of a bar: the width rules with the minimum of 5, then
   * the value check of `setValue`.
   */
  function NewBar(kind: BarKind, value: NumberArg, width: WidthArg, scalable: bool): (r: Result<Widget, WidgetError>)
    ensures r.Success? <==> HWidgetWidth(width, Some(BarMinWidth)).Success? && BarValue(value).Success?
    ensures r.Success? ==>
      && r.value == Bar(kind, value.x, HWidgetWidth(width, Some(BarMinWidth)).value, scalable)
      && WellFormed(r.value)
    ensures r.Success? && !width.NoWidth? ==> r.value.width >= BarMinWidth
  {
    var w :- HWidgetWidth(width, Some(BarMinWidth));
    var v :- BarValue(value);
    Success(Bar(kind, v, w, scalable))
  }

  /** `BarControl_ABC.setValue` on a bar: the width stays, the value is replaced or rejected. */
  function SetBarValue(w: Widget, value: NumberArg): (r: Result<Widget, WidgetError>)
    requires w.Bar?
    ensures r.Success? <==> BarValue(value).Success?
    ensures r.Success? ==> r.value == Bar(w.kind, value.x, w.width, w.scalable)
  {
    var v :- BarValue(value);
    Success(Bar(w.kind, v, w.width, w.scalable))
  }

  /**
   * `setValue` of the text labels: `TextLabel` keeps its width, while
   * `TextLabelVW` sets both its minimum and its width to the text length
   * plus one, narrowing a label that had been widened.
   */
  function SetText(w: Widget, text: string): (r: Widget)
    requires w.Label? || w.LabelVW?
    ensures w.Label? ==> r == Label(text, w.width, w.align)
    ensures w.LabelVW? ==> r == LabelVW(text, |text| + 1, |text| + 1, w.align)
    ensures WellFormed(w) ==> WellFormed(r)
  {
    if w.Label? then Label(text, w.width, w.align)
    else LabelVW(text, |text| + 1, |text| + 1, w.align)
  }

  /** A variable-width label never cuts its text, whatever width it is later given. */
  lemma LabelVWNeverTruncates(w: Widget, text: string, width: int)
    requires w.LabelVW?
    ensures var labelled := SetText(w, text);
      && WellFormed(labelled)
      && Truncated(text, labelled.width) == text
      && (ScalableSetWidth(labelled, width).Success? ==>
            Truncated(text, ScalableSetWidth(labelled, width).value.width) == text)
  {
  }

  /** `ScalableWidth.setWidth`: a width below the minimum is rejected, anything else is stored. */
  function ScalableSetWidth(w: Widget, width: int): (r: Result<Widget, WidgetError>)
    requires Scalable(w)
    ensures r.Success? <==> width >= MinWidthOf(w)
    ensures r.Failure? ==> r.error == ValueError
    ensures r.Success? ==> r.value == WithWidth(w, width)
  {
    if width < MinWidthOf(w) then Failure(ValueError) else Success(WithWidth(w, width))
  }

  /**
   * `getStringValue` of any widget. A well-formed widget that is not a
   * bar narrower than 3 draws exactly `Width` characters: a slider shows
   * its handle and a progress bar its fill at the position its value gives.
   */
  function Render(w: Widget): (r: string)
    requires w.Label? || w.LabelVW? ==> w.width >= 1
    ensures WellFormed(w) && (w.Bar? ==> w.width >= 3) ==> |r| == w.width
    ensures WellFormed(w) && w.Bar? && w.width >= 3 && w.kind == SliderBar ==>
      && 1 <= SliderPosition(w.value, w.width) <= w.width - 2
      && r[0] == '<' && r[SliderPosition(w.value, w.width)] == 'I' && r[w.width - 1] == '>'
    ensures WellFormed(w) && w.Bar? && w.width >= 3 && w.kind == ProgressFill ==>
      && r[0] == '[' && r[w.width - 1] == ']'
      && forall i | 0 < i < w.width - 1 :: r[i] == '#' <==> i <= ProgressPosition(w.value, w.width)
  {
    match w
    case Label(text, width, align) => TextLabelString(text, width, align)
    case LabelVW(text, _, width, align) => TextLabelString(text, width, align)
    case Bar(SliderBar, value, width, _) =>
      assert WellFormed(w) && width >= 3 ==> 1 <= SliderPosition(value, width) <= width - 2 by {
        if WellFormed(w) && width >= 3 {
          PositionsInRange(value, width);
        }
      }
      SliderString(width - 2, SliderPosition(value, width))
    case Bar(ProgressFill, value, width, _) =>
      assert WellFormed(w) && width >= 3 ==> 0 <= ProgressPosition(value, width) <= width - 2 by {
        if WellFormed(w) && width >= 3 {
          PositionsInRange(value, width);
        }
      }
      ProgressBarString(width - 2, ProgressPosition(value, width))
  }

  /**
   * A bar created with no width gets width 1, below its minimum of 5, and
   * then draws more characters than its width: `<I>` or `[]`.
   */
  lemma UnsizedBarOverflows(value: real)
    requires 0.0 <= value <= 1.0
    ensures NewBar(SliderBar, Number(value), NoWidth, false).value.width == 1
    ensures Render(NewBar(SliderBar, Number(value), NoWidth, false).value) == "<I>"
    ensures |Render(NewBar(ProgressFill, Number(value), NoWidth, false).value)| == 2
  {
    var s := NewBar(SliderBar, Number(value), NoWidth, false).value;
    var p := SliderPosition(value, 1);
    assert -1 <= p <= 1 by {
      assert value * -2.0 >= -2.0;
    }
    var q := ProgressPosition(value, 1);
    assert -1 <= q <= 0 by {
      assert value * -1.0 >= -1.0;
    }
  }

  // ---------------------------------------------------------------------
  // The horizontal container

  /** `HContainer`: its width and its stacked widgets, left to right. */
  datatype HContainer = HContainer(width: int, widgets: seq<Widget>)

  /** The width a widget claims in the container: its minimum if scalable, else its width. */
  function Required(w: Widget): int {
    if Scalable(w) then MinWidthOf(w) else w.width
  }

  function SumRequired(ws: seq<Widget>): int {
    if ws == [] then 0 else Required(ws[0]) + SumRequired(ws[1..])
  }

  function SumWidths(ws: seq<Widget>): int {
    if ws == [] then 0 else ws[0].width + SumWidths(ws[1..])
  }

  function CountScalable(ws: seq<Widget>): nat {
    if ws == [] then 0 else (if Scalable(ws[0]) then 1 else 0) + CountScalable(ws[1..])
  }

  /**
   * `HContainer.MinWidth`: each scalable widget counts with its minimum,
   * every other widget with its width; without scalable widgets that is
   * the widths together, and a container of well-formed widgets never
   * needs a negative width.
   */
  function MinWidth(c: HContainer): (m: int)
    ensures CountScalable(c.widgets) == 0 ==> m == SumWidths(c.widgets)
    ensures (forall i | 0 <= i < |c.widgets| :: WellFormed(c.widgets[i])) ==> m >= 0
  {
    RequiredSums(c.widgets);
    SumRequired(c.widgets)
  }

  lemma {:induction false} RequiredSums(ws: seq<Widget>)
    ensures CountScalable(ws) == 0 ==> SumRequired(ws) == SumWidths(ws)
    ensures (forall i | 0 <= i < |ws| :: WellFormed(ws[i])) ==> SumRequired(ws) >= 0
  {
    if ws != [] {
      RequiredSums(ws[1..]);
      if forall i | 0 <= i < |ws| :: WellFormed(ws[i]) {
        assert forall i | 0 <= i < |ws[1..]| :: ws[1..][i] == ws[i + 1];
        assert WellFormed(ws[0]);
      }
    }
  }

  /** `HContainer.__init__`: a non-negative width and no widgets. */
  function NewContainer(width: int): (r: Result<HContainer, WidgetError>)
    ensures r.Success? <==> width >= 0
    ensures r.Failure? ==> r.error == ValueError
    ensures r.Success? ==> r.value.width == width && r.value.widgets == [] && MinWidth(r.value) == 0
  {
    if width >= 0 then Success(HContainer(width, [])) else Failure(ValueError)
  }

  lemma SumRequiredAppend(a: seq<Widget>, b: seq<Widget>)
    ensures SumRequired(a + b) == SumRequired(a) + SumRequired(b)
  {
    if a == [] {
      assert a + b == b;
    } else {
      assert (a + b)[1..] == a[1..] + b;
    }
  }

  lemma SumWidthsAppend(a: seq<Widget>, b: seq<Widget>)
    ensures SumWidths(a + b) == SumWidths(a) + SumWidths(b)
  {
    if a == [] {
      assert a + b == b;
    } else {
      assert (a + b)[1..] == a[1..] + b;
    }
  }

  lemma CountScalableAppend(a: seq<Widget>, b: seq<Widget>)
    ensures CountScalable(a + b) == CountScalable(a) + CountScalable(b)
  {
    if a == [] {
      assert a + b == b;
    } else {
      assert (a + b)[1..] == a[1..] + b;
    }
  }

  /** Without scalable widgets every widget claims exactly its width. */
  lemma {:induction false} FixedClaimWidths(ws: seq<Widget>)
    requires CountScalable(ws) == 0
    ensures SumWidths(ws) == SumRequired(ws)
  {
    if ws != [] {
      FixedClaimWidths(ws[1..]);
    }
  }

  /**
   * The scaling loop of `HContainer.setWidth`: each scalable widget gets
   * its minimum plus the mean extra; the one numbered `n`, the last, also
   * gets the remainder, and the loop stops there. `current` is the number
   * the next scalable widget will have.
   */
  function Distribute(ws: seq<Widget>, mean: int, last: int, current: int, n: int): (r: seq<Widget>)
    ensures |r| == |ws|
    decreases |ws|
  {
    if ws == [] then []
    else if Scalable(ws[0]) then
      var scaled := WithWidth(ws[0], MinWidthOf(ws[0]) + mean);
      if current == n then [WithWidth(scaled, scaled.width + last)] + ws[1..]
      else [scaled] + Distribute(ws[1..], mean, last, current + 1, n)
    else
      [ws[0]] + Distribute(ws[1..], mean, last, current, n)
  }

  /** The widths after scaling add up to the claims plus the whole free space handed out. */
  lemma {:induction false} DistributeSums(ws: seq<Widget>, mean: int, last: int, current: int, n: int)
    requires CountScalable(ws) >= 1
    requires current + CountScalable(ws) - 1 == n
    ensures SumWidths(Distribute(ws, mean, last, current, n)) == SumRequired(ws) + CountScalable(ws) * mean + last
    decreases |ws|
  {
    var r := Distribute(ws, mean, last, current, n);
    assert r[1..] == if Scalable(ws[0]) && current == n then ws[1..] else Distribute(ws[1..], mean, last, if Scalable(ws[0]) then current + 1 else current, n);
    if Scalable(ws[0]) {
      if current == n {
        FixedClaimWidths(ws[1..]);
      } else {
        DistributeSums(ws[1..], mean, last, current + 1, n);
      }
    } else {
      DistributeSums(ws[1..], mean, last, current, n);
    }
  }

  /**
   * Scaling keeps every widget's kind, text, value and minimum, leaves the
   * fixed widgets alone and never takes a scalable widget below its
   * minimum.
   */
  lemma {:induction false} DistributeShape(ws: seq<Widget>, mean: int, last: int, current: int, n: int)
    requires mean >= 0 && last >= 0
    requires current + CountScalable(ws) - 1 <= n
    ensures var r := Distribute(ws, mean, last, current, n);
      && (forall i | 0 <= i < |ws| :: r[i] == WithWidth(ws[i], r[i].width))
      && (forall i | 0 <= i < |ws| && !Scalable(ws[i]) :: r[i] == ws[i])
      && (forall i | 0 <= i < |ws| && Scalable(ws[i]) :: r[i].width >= MinWidthOf(ws[i]))
    decreases |ws|
  {
    if ws != [] {
      var r := Distribute(ws, mean, last, current, n);
      if Scalable(ws[0]) && current == n {
        assert r[1..] == ws[1..];
        NoScalableWidgets(ws[1..]);
      } else {
        var next := if Scalable(ws[0]) then current + 1 else current;
        DistributeShape(ws[1..], mean, last, next, n);
        assert r[1..] == Distribute(ws[1..], mean, last, next, n);
      }
      forall i | 1 <= i < |ws| ensures r[i] == r[1..][i - 1] && ws[i] == ws[1..][i - 1] {
      }
      if Scalable(ws[0]) {
        assert r[0].width >= MinWidthOf(ws[0]) + mean;
      }
    }
  }

  /** Changing only widths keeps the claims: the minimum of the container does not move. */
  lemma {:induction false} ResizedClaimsUnchanged(ws: seq<Widget>, rs: seq<Widget>)
    requires |rs| == |ws|
    requires forall i | 0 <= i < |ws| :: rs[i] == WithWidth(ws[i], rs[i].width)
    requires forall i | 0 <= i < |ws| && !Scalable(ws[i]) :: rs[i] == ws[i]
    ensures SumRequired(rs) == SumRequired(ws)
    ensures CountScalable(rs) == CountScalable(ws)
  {
    if ws != [] {
      assert Required(rs[0]) == Required(ws[0]);
      ResizedClaimsUnchanged(ws[1..], rs[1..]);
    }
  }

  lemma {:induction false} NoScalableWidgets(ws: seq<Widget>)
    requires CountScalable(ws) == 0
    ensures forall i | 0 <= i < |ws| :: !Scalable(ws[i])
  {
    if ws != [] {
      NoScalableWidgets(ws[1..]);
      assert forall i | 1 <= i < |ws| :: ws[i] == ws[1..][i - 1];
    }
  }

  /**
   * `HContainer.setWidth`: a width below the minimum is rejected;
   * otherwise it is stored and the free space is shared among the
   * scalable widgets, the remainder going to the last of them.
   */
  function SetWidth(c: HContainer, width: int): (r: Result<HContainer, WidgetError>)
    ensures r.Success? <==> width >= MinWidth(c)
    ensures r.Failure? ==> r.error == ValueError
    ensures r.Success? ==>
      && r.value.width == width
      && |r.value.widgets| == |c.widgets|
      && MinWidth(r.value) == MinWidth(c)
      && CountScalable(r.value.widgets) == CountScalable(c.widgets)
      && (forall i | 0 <= i < |c.widgets| :: r.value.widgets[i] == WithWidth(c.widgets[i], r.value.widgets[i].width))
      && (forall i | 0 <= i < |c.widgets| && !Scalable(c.widgets[i]) :: r.value.widgets[i] == c.widgets[i])
      && (forall i | 0 <= i < |c.widgets| && Scalable(c.widgets[i]) ::
            r.value.widgets[i].width >= MinWidthOf(c.widgets[i]))
    ensures r.Success? && CountScalable(c.widgets) >= 1 ==> SumWidths(r.value.widgets) == width
    ensures r.Success? && CountScalable(c.widgets) == 0 ==> r.value.widgets == c.widgets
  {
    var minWidth := MinWidth(c);
    if width < minWidth then
      Failure(ValueError)
    else
      var free := width - minWidth;
      var n := CountScalable(c.widgets);
      if n == 0 then
        NoScalableWidgets(c.widgets);
        Success(HContainer(width, c.widgets))
      else
        var mean := free / n;
        var last := free - mean * n;
        var ws := Distribute(c.widgets, mean, last, 1, n);
        DistributeShape(c.widgets, mean, last, 1, n);
        DistributeSums(c.widgets, mean, last, 1, n);
        ResizedClaimsUnchanged(c.widgets, ws);
        Success(HContainer(width, ws))
  }

  /**
   * `HContainer.addWidget`: a widget claiming more than the free space is
   * rejected; otherwise it is appended and the width is set again, which
   * rescales the scalable widgets.
   */
  function AddWidget(c: HContainer, w: Widget): (r: Result<HContainer, WidgetError>)
    ensures r.Success? <==> Required(w) <= c.width - MinWidth(c)
    ensures r.Failure? ==> r.error == DoesNotFit
    ensures r.Success? ==>
      && r.value.width == c.width
      && |r.value.widgets| == |c.widgets| + 1
      && MinWidth(r.value) == MinWidth(c) + Required(w)
      && r.value.widgets[|c.widgets|] == WithWidth(w, r.value.widgets[|c.widgets|].width)
      && (forall i | 0 <= i < |c.widgets| :: r.value.widgets[i] == WithWidth(c.widgets[i], r.value.widgets[i].width))
      && (forall i | 0 <= i < |c.widgets| && !Scalable(c.widgets[i]) :: r.value.widgets[i] == c.widgets[i])
      && (!Scalable(w) ==> r.value.widgets[|c.widgets|] == w)
    ensures r.Success? && (Scalable(w) || CountScalable(c.widgets) >= 1) ==> SumWidths(r.value.widgets) == c.width
    ensures r.Success? && !Scalable(w) && CountScalable(c.widgets) == 0 ==> r.value.widgets == c.widgets + [w]
  {
    if Required(w) > c.width - MinWidth(c) then
      Failure(DoesNotFit)
    else
      var grown := HContainer(c.width, c.widgets + [w]);
      assert MinWidth(grown) == MinWidth(c) + Required(w) by {
        SumRequiredAppend(c.widgets, [w]);
        assert SumRequired([w]) == Required(w) by {
          assert [w][1..] == [];
        }
      }
      assert CountScalable(grown.widgets) == CountScalable(c.widgets) + (if Scalable(w) then 1 else 0) by {
        CountScalableAppend(c.widgets, [w]);
        assert [w][1..] == [];
      }
      assert forall i | 0 <= i < |c.widgets| :: grown.widgets[i] == c.widgets[i];
      assert grown.widgets[|c.widgets|] == w;
      SetWidth(grown, c.width)
  }

  /** The container never claims more than its width. */
  predicate ContainerFits(c: HContainer) {
    0 <= MinWidth(c) <= c.width
  }

  /** Creating, resizing and filling a container keep it fitting. */
  lemma ContainerStaysFitting(c: HContainer, width: int, w: Widget)
    requires ContainerFits(c)
    requires Required(w) >= 0
    ensures NewContainer(width).Success? ==> ContainerFits(NewContainer(width).value)
    ensures SetWidth(c, width).Success? ==> ContainerFits(SetWidth(c, width).value)
    ensures AddWidget(c, w).Success? ==> ContainerFits(AddWidget(c, w).value)
  {
  }

  /** Every label of the sequence is at least one character wide, which is all `Render` needs. */
  predicate Renderable(ws: seq<Widget>) {
    forall i | 0 <= i < |ws| :: (ws[i].Label? || ws[i].LabelVW?) ==> ws[i].width >= 1
  }

  /** Every widget of the container draws exactly its width. */
  predicate Drawable(ws: seq<Widget>) {
    forall i | 0 <= i < |ws| :: WellFormed(ws[i]) && (ws[i].Bar? ==> ws[i].width >= 3)
  }

  /**
   * `HContainer.getStringValue`: the drawings of the widgets, joined left
   * to right; each widget's drawing starts where the previous one ends.
   * The contract gives the first drawing; the whole join is stated by
   * `ContainerStringLength` (the length for drawable widgets) and by
   * `LineWidgets.ContainerStringAppend` and `ContainerStringCons`.
   */
  function ContainerString(ws: seq<Widget>): (r: string)
    requires Renderable(ws)
    ensures ws == [] ==> r == ""
    ensures ws != [] ==> |Render(ws[0])| <= |r| && r[..|Render(ws[0])|] == Render(ws[0])
  {
    if ws == [] then "" else Render(ws[0]) + ContainerString(ws[1..])
  }

  /** A well-formed container can always be drawn. */
  lemma DrawableIsRenderable(ws: seq<Widget>)
    requires Drawable(ws)
    ensures Renderable(ws)
  {
    forall i | 0 <= i < |ws| && (ws[i].Label? || ws[i].LabelVW?) ensures ws[i].width >= 1 {
      assert WellFormed(ws[i]);
    }
  }

  /**
   * A bar created with no width is accepted by any container with a free
   * character, and then the container's line is longer than the widths
   * of its widgets together.
   */
  lemma UnsizedBarOverflowsContainer(width: int, value: real)
    requires width >= 1 && 0.0 <= value <= 1.0
    ensures var bar := NewBar(SliderBar, Number(value), NoWidth, false).value;
      && AddWidget(NewContainer(width).value, bar).Success?
      && var ws := AddWidget(NewContainer(width).value, bar).value.widgets;
      && Renderable(ws) && !Drawable(ws)
      && ContainerString(ws) == "<I>"
      && |ContainerString(ws)| > SumWidths(ws)
  {
    var bar := NewBar(SliderBar, Number(value), NoWidth, false).value;
    UnsizedBarOverflows(value);
    var c := NewContainer(width).value;
    assert Required(bar) == 1;
    var ws := AddWidget(c, bar).value.widgets;
    assert ws == [bar] by {
      assert CountScalable([bar]) == 0 by {
        assert [bar][1..] == [];
      }
      assert c.widgets + [bar] == [bar];
    }
    assert ContainerString(ws) == Render(bar) + ContainerString([]) by {
      assert ws[1..] == [];
    }
    assert SumWidths(ws) == 1 by {
      assert ws[1..] == [];
    }
  }

  /**
   * The container's line is as long as its widgets' widths together; once
   * the container holds a scalable widget and its width has been set,
   * that is exactly the container's width.
   */
  lemma {:induction false} ContainerStringLength(ws: seq<Widget>)
    requires Drawable(ws)
    ensures |ContainerString(ws)| == SumWidths(ws)
  {
    if ws != [] {
      assert Drawable(ws[1..]) by {
        forall i | 0 <= i < |ws[1..]| ensures WellFormed(ws[1..][i]) && (ws[1..][i].Bar? ==> ws[1..][i].width >= 3) {
          assert ws[1..][i] == ws[i + 1];
        }
      }
      ContainerStringLength(ws[1..]);
    }
  }

  /** Setting the width of a container with a scalable widget makes its line exactly that wide. */
  lemma ScaledLineFillsTheWidth(c: HContainer, width: int)
    requires width >= MinWidth(c)
    requires CountScalable(c.widgets) >= 1
    requires Drawable(c.widgets)
    ensures Drawable(SetWidth(c, width).value.widgets)
    ensures |ContainerString(SetWidth(c, width).value.widgets)| == width
  {
    var r := SetWidth(c, width).value;
    forall i | 0 <= i < |r.widgets|
      ensures WellFormed(r.widgets[i]) && (r.widgets[i].Bar? ==> r.widgets[i].width >= 3)
    {
      var w := c.widgets[i];
      assert r.widgets[i] == WithWidth(w, r.widgets[i].width);
      if Scalable(w) {
        assert r.widgets[i].width >= MinWidthOf(w);
      }
    }
    ContainerStringLength(r.widgets);
  }
}
