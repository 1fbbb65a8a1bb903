/**
 * `ProgressBarIndicator`: a bounded counter drawn as a scalable progress
 * bar, a right-aligned `value/range` counter label and a right-aligned
 * percent label, stacked in a horizontal container.
 *
 * The indicator is a record; every method that changes it is a function
 * returning the new record, or an error result where the Python code
 * raises. Writing to the terminal (`start`, `stop`, `update`) is not part
 * of the model; the line it would write is `IndicatorLine`.
 *
 * Besides drawing, `_show` calls `getStringValue` after every change,
 * which writes the bar's value and the label texts into the stored
 * widgets. The model keeps only the widgets' sizes up to date in
 * `layout` and computes the shown widgets from the counter in
 * `ShownWidgets`; the stored bar value and label texts stay as built.
 */
module LineWidgets {
  import opened Wrappers
  import opened Decimal
  import opened BaseViewClasses
  import opened Seqs

  /** The width of the counter label: room for `value/range` and one blank. */
  function CounterWidth(range: nat): (w: int)
    ensures w >= 4
  {
    2 * (Digits(range) + 1)
  }

  /** The fixed width of the percent label. */
  const PercentsWidth: int := 5

  /** The width the labels claim, without the bar. */
  function LabelsWidth(range: nat, showCounter: bool, showPercents: bool): (w: int)
    ensures w >= 0
  {
    (if showCounter then CounterWidth(range) else 0) + (if showPercents then PercentsWidth else 0)
  }

  /** The least width the initialiser accepts: the bar's minimum plus the labels. */
  function MinIndicatorWidth(range: nat, showCounter: bool, showPercents: bool): (w: int)
    ensures w >= BarMinWidth
  {
    BarMinWidth + LabelsWidth(range, showCounter, showPercents)
  }

  /**
   * The counter label's text, `'{}/{}'.format(Value, Range)`. A value
   * within the range never needs more than the counter label's width
   * minus one.
   */
  function CounterText(value: nat, range: nat): (s: string)
    requires value <= range
    ensures |s| == Digits(value) + 1 + Digits(range)
    ensures |s| < CounterWidth(range)
  {
    DigitsMonotone(value, range);
    NatToString(value) + "/" + NatToString(range)
  }

  /**
   * `(100 * Value) // Range`; both operands are non-negative, so floor and
   * Euclidean division agree, and a value within the range gives 0..100.
   */
  function Percent(value: nat, range: nat): (p: nat)
    requires 1 <= range && value <= range
    ensures p <= 100
    ensures p * range <= 100 * value < (p + 1) * range
  {
    assert 100 * value <= 100 * range;
    (100 * value) / range
  }

  /** The percent label's text, `'{}%'.format(...)`, which always fits the percent label. */
  function PercentText(value: nat, range: nat): (s: string)
    requires 1 <= range && value <= range
    ensures |s| == Digits(Percent(value, range)) + 1
    ensures |s| < PercentsWidth
  {
    DigitsUpToHundred(Percent(value, range));
    NatToString(Percent(value, range)) + "%"
  }

  // ---------------------------------------------------------------------
  // The layout: one progress bar, then fixed-width labels

  /** `ProgressBarVW`: the only scalable widget of the indicator. */
  predicate IsProgressBar(w: Widget) {
    w.Bar? && w.kind == ProgressFill && w.scalable && 0.0 <= w.value <= 1.0
  }

  predicate AllFixedLabels(ls: seq<Widget>) {
    forall i | 0 <= i < |ls| :: ls[i].Label? && ls[i].width >= 1
  }

  /** Fixed labels claim exactly their widths and none of them is scalable. */
  lemma {:induction false} FixedLabelsClaimTheirWidths(ls: seq<Widget>)
    requires AllFixedLabels(ls)
    ensures CountScalable(ls) == 0
    ensures SumRequired(ls) == SumWidths(ls)
    ensures SumWidths(ls) >= |ls|
  {
    if ls != [] {
      assert AllFixedLabels(ls[1..]) by {
        forall i | 0 <= i < |ls[1..]| ensures ls[1..][i].Label? && ls[1..][i].width >= 1 {
          assert ls[1..][i] == ls[i + 1];
        }
      }
      FixedLabelsClaimTheirWidths(ls[1..]);
    }
  }

  lemma ConsSums(w: Widget, ls: seq<Widget>)
    ensures SumWidths([w] + ls) == w.width + SumWidths(ls)
    ensures SumRequired([w] + ls) == Required(w) + SumRequired(ls)
    ensures CountScalable([w] + ls) == (if Scalable(w) then 1 else 0) + CountScalable(ls)
  {
    assert ([w] + ls)[1..] == ls;
  }

  /** The laid-out container: the bar takes whatever the labels leave. */
  function Laid(width: int, bar: Widget, labels: seq<Widget>): HContainer {
    HContainer(width, [WithWidth(bar, width - SumWidths(labels))] + labels)
  }

  /**
   * `HContainer.setWidth` on a bar followed by fixed labels: accepted
   * exactly when the bar keeps its minimum, and then the bar absorbs the
   * whole change.
   */
  lemma ResizeBarAndLabels(c: HContainer, width: int)
    requires |c.widgets| >= 1 && IsProgressBar(c.widgets[0]) && AllFixedLabels(c.widgets[1..])
    ensures MinWidth(c) == BarMinWidth + SumWidths(c.widgets[1..])
    ensures SetWidth(c, width).Success? <==> width >= BarMinWidth + SumWidths(c.widgets[1..])
    ensures SetWidth(c, width).Success? ==>
      SetWidth(c, width).value == Laid(width, c.widgets[0], c.widgets[1..])
  {
    var bar := c.widgets[0];
    var labels := c.widgets[1..];
    assert c.widgets == [bar] + labels;
    FixedLabelsClaimTheirWidths(labels);
    ConsSums(bar, labels);
    var r := SetWidth(c, width);
    if r.Success? {
      var ws := r.value.widgets;
      var first := ws[0];
      assert first == WithWidth(bar, first.width);
      forall i | 1 <= i < |ws| ensures ws[i] == c.widgets[i] {
        assert c.widgets[i] == labels[i - 1];
      }
      assert ws == [first] + labels;
      ConsSums(first, labels);
      assert WithWidth(bar, width - SumWidths(labels)) == first;
    }
  }

  /** Adding one more fixed label to a laid-out container keeps it laid out. */
  lemma AddLabelToLaid(width: int, bar: Widget, labels: seq<Widget>, extra: Widget)
    requires IsProgressBar(bar) && AllFixedLabels(labels + [extra])
    requires width >= BarMinWidth + SumWidths(labels + [extra])
    ensures AddWidget(Laid(width, bar, labels), extra) == Success(Laid(width, bar, labels + [extra]))
  {
    var sized := WithWidth(bar, width - SumWidths(labels));
    var grown := HContainer(width, [sized] + (labels + [extra]));
    var c := Laid(width, bar, labels);
    LabelFitsLaid(width, bar, labels, extra);
    assert AddWidget(c, extra) == SetWidth(grown, width) by {
      assert c.widgets + [extra] == grown.widgets;
    }
    GrownLaid(width, sized, labels + [extra]);
  }

  /** One more fixed label fits the space a laid-out container's bar can give up. */
  lemma LabelFitsLaid(width: int, bar: Widget, labels: seq<Widget>, extra: Widget)
    requires IsProgressBar(bar) && AllFixedLabels(labels + [extra])
    requires width >= BarMinWidth + SumWidths(labels + [extra])
    ensures Required(extra) <= width - MinWidth(Laid(width, bar, labels))
  {
    var c := Laid(width, bar, labels);
    assert AllFixedLabels(labels) by {
      forall i | 0 <= i < |labels| ensures labels[i].Label? && labels[i].width >= 1 {
        assert labels[i] == (labels + [extra])[i];
      }
    }
    assert extra.Label? && extra.width >= 1 by {
      assert extra == (labels + [extra])[|labels|];
    }
    assert c.widgets[1..] == labels;
    ResizeBarAndLabels(c, width);
    SumWidthsAppend(labels, [extra]);
    ConsSums(extra, []);
    assert [extra][1..] == [];
  }

  /** Setting the width of a bar followed by fixed labels lays them out. */
  lemma GrownLaid(width: int, sized: Widget, labels: seq<Widget>)
    requires IsProgressBar(sized) && AllFixedLabels(labels)
    requires width >= BarMinWidth + SumWidths(labels)
    ensures SetWidth(HContainer(width, [sized] + labels), width) == Success(Laid(width, sized, labels))
  {
    var grown := HContainer(width, [sized] + labels);
    assert grown.widgets[1..] == labels;
    ResizeBarAndLabels(grown, width);
  }

  /** Adds the widgets one by one, stopping at the first refusal. */
  function AddAll(c: HContainer, ws: seq<Widget>): (r: Result<HContainer, WidgetError>)
    decreases |ws|
  {
    if ws == [] then Success(c)
    else
      var next :- AddWidget(c, ws[0]);
      AddAll(next, ws[1..])
  }

  /**
   * The construction sequence of the initialiser and of `setRange`: a
   * container of the given width, the bar, then the labels.
   */
  function BuildLayout(width: int, bar: Widget, labels: seq<Widget>): (r: Result<HContainer, WidgetError>) {
    var empty :- NewContainer(width);
    var withBar :- AddWidget(empty, bar);
    AddAll(withBar, labels)
  }

  lemma {:induction false} AddAllToLaid(width: int, bar: Widget, done: seq<Widget>, todo: seq<Widget>)
    requires IsProgressBar(bar) && AllFixedLabels(done + todo)
    requires width >= BarMinWidth + SumWidths(done + todo)
    ensures AddAll(Laid(width, bar, done), todo) == Success(Laid(width, bar, done + todo))
    decreases |todo|
  {
    if todo != [] {
      var step := done + [todo[0]];
      assert step + todo[1..] == done + todo;
      assert AllFixedLabels(step) by {
        forall i | 0 <= i < |step| ensures step[i].Label? && step[i].width >= 1 {
          assert step[i] == (done + todo)[i];
        }
      }
      assert SumWidths(step) <= SumWidths(done + todo) by {
        SumWidthsAppend(step, todo[1..]);
        assert AllFixedLabels(todo[1..]) by {
          forall i | 0 <= i < |todo[1..]| ensures todo[1..][i].Label? && todo[1..][i].width >= 1 {
            assert todo[1..][i] == (done + todo)[|step| + i];
          }
        }
        FixedLabelsClaimTheirWidths(todo[1..]);
      }
      AddLabelToLaid(width, bar, done, todo[0]);
      assert AddAll(Laid(width, bar, done), todo) == AddAll(Laid(width, bar, step), todo[1..]);
      AddAllToLaid(width, bar, step, todo[1..]);
    } else {
      assert done + todo == done;
    }
  }

  /**
   * With room for the bar's minimum and all labels, the construction
   * sequence never fails, and the bar takes exactly the space the labels
   * leave.
   */
  lemma BuildLayoutSucceeds(width: int, bar: Widget, labels: seq<Widget>)
    requires IsProgressBar(bar) && AllFixedLabels(labels)
    requires width >= BarMinWidth + SumWidths(labels)
    ensures BuildLayout(width, bar, labels) == Success(Laid(width, bar, labels))
  {
    FixedLabelsClaimTheirWidths(labels);
    var empty := HContainer(width, []);
    assert NewContainer(width) == Success(empty);
    BarIntoEmpty(width, bar);
    assert [] + labels == labels;
    AddAllToLaid(width, bar, [], labels);
  }

  /** The bar alone in a container takes all of its width. */
  lemma BarIntoEmpty(width: int, bar: Widget)
    requires IsProgressBar(bar) && width >= BarMinWidth
    ensures AddWidget(HContainer(width, []), bar) == Success(Laid(width, bar, []))
  {
    var empty := HContainer(width, []);
    assert empty.widgets + [bar] == [bar];
    var one := HContainer(width, [bar]);
    assert one.widgets[1..] == [];
    ResizeBarAndLabels(one, width);
    assert AddWidget(empty, bar) == SetWidth(one, width);
    assert Laid(width, bar, []).widgets == [WithWidth(bar, width)];
  }

  // ---------------------------------------------------------------------
  // The indicator

  /**
   * The indicator's state. `layout` is the inner `HContainer`; its first
   * widget is the progress bar, then the counter label when `showCounter`
   * is set, then the percent label when `showPercents` is set.
   */
  datatype Indicator = Indicator(
    range: int,
    value: int,
    width: int,
    showCounter: bool,
    showPercents: bool,
    layout: HContainer)

  /** The label widths and alignments the indicator's layout must have, in order. */
  predicate LabelSlots(ls: seq<Widget>, range: nat, showCounter: bool, showPercents: bool) {
    var widths := (if showCounter then [CounterWidth(range)] else []) + (if showPercents then [PercentsWidth] else []);
    && |ls| == |widths|
    && forall i | 0 <= i < |ls| :: ls[i].Label? && ls[i].width == widths[i] && ls[i].align == Right
  }

  lemma LabelSlotsWidth(ls: seq<Widget>, range: nat, showCounter: bool, showPercents: bool)
    requires LabelSlots(ls, range, showCounter, showPercents)
    ensures AllFixedLabels(ls)
    ensures SumWidths(ls) == LabelsWidth(range, showCounter, showPercents)
  {
    if |ls| == 2 {
      assert ls == [ls[0]] + [ls[1]];
      ConsSums(ls[0], [ls[1]]);
      ConsSums(ls[1], []);
      assert [ls[1]][1..] == [];
    } else if |ls| == 1 {
      ConsSums(ls[0], []);
      assert ls[1..] == [];
    }
  }

  /** The class invariant every operation keeps. */
  predicate Valid(ind: Indicator) {
    && 1 <= ind.range
    && 0 <= ind.value <= ind.range
    && ind.width >= MinIndicatorWidth(ind.range, ind.showCounter, ind.showPercents)
    && |ind.layout.widgets| >= 1
    && IsProgressBar(ind.layout.widgets[0])
    && LabelSlots(ind.layout.widgets[1..], ind.range, ind.showCounter, ind.showPercents)
    && ind.layout == Laid(ind.width, ind.layout.widgets[0], ind.layout.widgets[1..])
  }

  /** The labels built by the initialiser; both start with the percentage text. */
  function InitialLabels(range: nat, value: nat, showCounter: bool, showPercents: bool): (ls: seq<Widget>)
    requires 1 <= range && value <= range
    ensures LabelSlots(ls, range, showCounter, showPercents)
  {
    (if showCounter then [Label(PercentText(value, range), CounterWidth(range), Right)] else [])
    + (if showPercents then [Label(PercentText(value, range), PercentsWidth, Right)] else [])
  }

  /** `ProgressBarVW(0)`: value 0 and the default width 5. */
  const InitialBar: Widget := Bar(ProgressFill, 0.0, BarMinWidth, true)

  /**
   * `ProgressBarIndicator.__init__`: the range must be positive, then the
   * value within it, then the width wide enough for the bar and the
   * labels shown.
   */
  function NewIndicator(range: int, value: int, showCounter: bool, showPercents: bool, width: int)
    : (r: Result<Indicator, WidgetError>)
    ensures r.Success? <==>
      && range >= 1
      && 0 <= value <= range
      && width >= MinIndicatorWidth(range, showCounter, showPercents)
    ensures r.Failure? ==> r.error == ValueError
    ensures r.Success? ==>
      && Valid(r.value)
      && r.value.range == range && r.value.value == value && r.value.width == width
      && r.value.showCounter == showCounter && r.value.showPercents == showPercents
  {
    if range <= 0 then Failure(ValueError)
    else if value < 0 || value > range then Failure(ValueError)
    else if width < MinIndicatorWidth(range, showCounter, showPercents) then Failure(ValueError)
    else
      var labels := InitialLabels(range, value, showCounter, showPercents);
      LabelSlotsWidth(labels, range, showCounter, showPercents);
      BuildLayoutSucceeds(width, InitialBar, labels);
      var layout := BuildLayout(width, InitialBar, labels).value;
      assert layout.widgets[1..] == labels;
      Success(Indicator(range, value, width, showCounter, showPercents, layout))
  }

  /** `setValue`: a value outside `[0, Range]` is rejected, any other is stored as given. */
  function SetValue(ind: Indicator, value: int): (r: Result<Indicator, WidgetError>)
    requires Valid(ind)
    ensures r.Success? <==> 0 <= value <= ind.range
    ensures r.Failure? ==> r.error == ValueError
    ensures r.Success? ==> Valid(r.value) && r.value.value == value
    ensures r.Success? ==> r.value.range == ind.range && r.value.width == ind.width && r.value.layout == ind.layout
    ensures r.Success? ==> r.value.showCounter == ind.showCounter && r.value.showPercents == ind.showPercents
  {
    if value < 0 || value > ind.range then Failure(ValueError)
    else Success(ind.(value := value))
  }

  /** `inc`: one step up, unless the counter is already at the range. */
  function Inc(ind: Indicator): (r: Indicator)
    requires Valid(ind)
    ensures Valid(r)
  {
    if ind.value < ind.range then SetValue(ind, ind.value + 1).value else ind
  }

  /** `dec`: one step down, unless the counter is already at zero. */
  function Dec(ind: Indicator): (r: Indicator)
    requires Valid(ind)
    ensures Valid(r)
  {
    if ind.value > 0 then SetValue(ind, ind.value - 1).value else ind
  }

  /** `reset`: `setValue(0)`, which never fails. */
  function Reset(ind: Indicator): (r: Indicator)
    requires Valid(ind)
    ensures Valid(r) && r.value == 0
    ensures r == ind.(value := 0)
  {
    SetValue(ind, 0).value
  }

  function IncTimes(ind: Indicator, n: nat): (r: Indicator)
    requires Valid(ind)
    ensures Valid(r)
    decreases n
  {
    if n == 0 then ind else IncTimes(Inc(ind), n - 1)
  }

  function DecTimes(ind: Indicator, n: nat): (r: Indicator)
    requires Valid(ind)
    ensures Valid(r)
    decreases n
  {
    if n == 0 then ind else DecTimes(Dec(ind), n - 1)
  }

  /**
   * `n` calls of `inc` move the counter up by `n` but stop at the range;
   * nothing but the value changes.
   */
  lemma {:induction false} IncSaturates(ind: Indicator, n: nat)
    requires Valid(ind)
    ensures IncTimes(ind, n) == ind.(value := if ind.value + n <= ind.range then ind.value + n else ind.range)
    decreases n
  {
    if n > 0 {
      IncSaturates(Inc(ind), n - 1);
    }
  }

  /** `n` calls of `dec` move the counter down by `n` but stop at zero; nothing but the value changes. */
  lemma {:induction false} DecSaturates(ind: Indicator, n: nat)
    requires Valid(ind)
    ensures DecTimes(ind, n) == ind.(value := if ind.value >= n then ind.value - n else 0)
    decreases n
  {
    if n > 0 {
      DecSaturates(Dec(ind), n - 1);
    }
  }

  /**
   * `setWidth`: a width below the inner container's minimum is rejected,
   * and that minimum is exactly the initialiser's minimum for the current
   * range; otherwise the width is stored and passed to the container,
   * whose bar absorbs the change.
   */
  function SetIndicatorWidth(ind: Indicator, width: int): (r: Result<Indicator, WidgetError>)
    requires Valid(ind)
    ensures r.Success? <==> width >= MinIndicatorWidth(ind.range, ind.showCounter, ind.showPercents)
    ensures r.Failure? ==> r.error == ValueError
    ensures r.Success? ==> Valid(r.value) && r.value.width == width
    ensures r.Success? ==>
      && r.value.range == ind.range && r.value.value == ind.value
      && r.value.showCounter == ind.showCounter && r.value.showPercents == ind.showPercents
      && r.value.layout.widgets[1..] == ind.layout.widgets[1..]
  {
    LabelSlotsWidth(ind.layout.widgets[1..], ind.range, ind.showCounter, ind.showPercents);
    ResizeBarAndLabels(ind.layout, width);
    if width < MinWidth(ind.layout) then Failure(ValueError)
    else
      var layout := SetWidth(ind.layout, width).value;
      assert layout.widgets[1..] == ind.layout.widgets[1..];
      Success(ind.(width := width, layout := layout))
  }

  /** Changing the width and changing it back restores the indicator exactly: only the bar absorbs the change. */
  lemma WidthChangeIsReversible(ind: Indicator, width: int)
    requires Valid(ind)
    requires width >= MinIndicatorWidth(ind.range, ind.showCounter, ind.showPercents)
    ensures SetIndicatorWidth(ind, width).Success?
    ensures SetIndicatorWidth(SetIndicatorWidth(ind, width).value, ind.width) == Success(ind)
  {
    var there := SetIndicatorWidth(ind, width).value;
    var labels := ind.layout.widgets[1..];
    LabelSlotsWidth(labels, ind.range, ind.showCounter, ind.showPercents);
    ResizeBarAndLabels(ind.layout, width);
    ResizeBarAndLabels(there.layout, ind.width);
    assert there.layout.widgets[1..] == labels;
  }

  /** At a new range whose counter (if shown) keeps its width, the layout still fits the indicator. */
  lemma LayoutFitsRange(ind: Indicator, range: nat, value: nat)
    requires Valid(ind) && 1 <= range && value <= range
    requires ind.showCounter ==> Digits(ind.range) == Digits(range)
    ensures Valid(ind.(range := range, value := value))
  {
    assert LabelsWidth(ind.range, ind.showCounter, ind.showPercents) == LabelsWidth(range, ind.showCounter, ind.showPercents);
    assert LabelSlots(ind.layout.widgets[1..], range, ind.showCounter, ind.showPercents);
  }

  /**
   * `setRange`'s rebuild: the width raised to the new minimum if it is
   * below it, and a new container holding the same bar, a counter label
   * of the new width and the same percent label.
   */
  function RebuiltForRange(ind: Indicator, range: nat, value: nat): (r: Indicator)
    requires Valid(ind) && ind.showCounter && 1 <= range && value <= range
    ensures Valid(r) && r.range == range && r.value == value
    ensures r.showCounter && r.showPercents == ind.showPercents
    ensures var least := MinIndicatorWidth(range, true, ind.showPercents);
      r.width == if least > ind.width then least else ind.width
  {
    var labels := ind.layout.widgets[1..];
    var minLength := BarMinWidth + CounterWidth(range) + (if ind.showPercents then labels[|labels| - 1].width else 0);
    var width := if minLength > ind.width then minLength else ind.width;
    var counter := Label(" ", CounterWidth(range), Right);
    var rebuilt := [counter] + (if ind.showPercents then [labels[|labels| - 1]] else []);
    var bar := ind.layout.widgets[0];
    assert LabelSlots(rebuilt, range, true, ind.showPercents);
    assert SumWidths(rebuilt) == LabelsWidth(range, true, ind.showPercents) && AllFixedLabels(rebuilt) by {
      LabelSlotsWidth(rebuilt, range, true, ind.showPercents);
    }
    assert BuildLayout(width, bar, rebuilt) == Success(Laid(width, bar, rebuilt)) by {
      BuildLayoutSucceeds(width, bar, rebuilt);
    }
    LaidIsValid(range, value, width, true, ind.showPercents, bar, rebuilt);
    Indicator(range, value, width, ind.showCounter, ind.showPercents, BuildLayout(width, bar, rebuilt).value)
  }

  /** An indicator whose container is a bar followed by the right label slots is valid. */
  lemma LaidIsValid(range: nat, value: nat, width: int, showCounter: bool, showPercents: bool, bar: Widget, labels: seq<Widget>)
    requires 1 <= range && value <= range
    requires width >= MinIndicatorWidth(range, showCounter, showPercents)
    requires IsProgressBar(bar) && LabelSlots(labels, range, showCounter, showPercents)
    ensures Valid(Indicator(range, value, width, showCounter, showPercents, Laid(width, bar, labels)))
  {
    var layout := Laid(width, bar, labels);
    assert layout.widgets[0] == WithWidth(bar, width - SumWidths(labels));
    assert layout.widgets[1..] == labels;
  }

  /**
   * `setRange`: a range that is not positive is rejected; a value above
   * the new range is clamped to it. When the counter is shown and the
   * range's digit count changes, the container is rebuilt around a counter
   * label of the new width; the width only ever grows.
   */
  function SetRange(ind: Indicator, range: int): (r: Result<Indicator, WidgetError>)
    requires Valid(ind)
    ensures r.Success? <==> range >= 1
    ensures r.Failure? ==> r.error == ValueError
    ensures r.Success? ==> Valid(r.value) && r.value.range == range
    ensures r.Success? ==> r.value.value == if ind.value > range then range else ind.value
    ensures r.Success? ==>
      var least := MinIndicatorWidth(range, ind.showCounter, ind.showPercents);
      r.value.width == if least > ind.width then least else ind.width
    ensures r.Success? ==> r.value.showCounter == ind.showCounter && r.value.showPercents == ind.showPercents
  {
    if range <= 0 then Failure(ValueError)
    else
      var value := if ind.value > range then range else ind.value;
      if ind.showCounter && Digits(ind.range) != Digits(range) then
        Success(RebuiltForRange(ind, range, value))
      else
        LayoutFitsRange(ind, range, value);
        Success(ind.(range := range, value := value))
  }

  // ---------------------------------------------------------------------
  // The drawn line

  /** `Value / Range`, the bar's fill. */
  function Fraction(value: nat, range: nat): (f: real)
    requires value <= range && range >= 1
    ensures 0.0 <= f <= 1.0
  {
    var f := value as real / range as real;
    assert f * range as real == value as real;
    f
  }

  /** The labels after `getStringValue` has written the counter and the percentage into them. */
  function ShownLabels(labels: seq<Widget>, ind: Indicator): (ls: seq<Widget>)
    requires Valid(ind) && labels == ind.layout.widgets[1..]
    ensures |ls| == |labels|
    ensures forall i | 0 <= i < |ls| :: ls[i].Label? && ls[i] == SetText(labels[i], ls[i].text)
    ensures ind.showCounter ==> ls[0].text == CounterText(ind.value, ind.range)
    ensures ind.showPercents ==> ls[|ls| - 1].text == PercentText(ind.value, ind.range)
  {
    var counted :=
      if ind.showCounter then [SetText(labels[0], CounterText(ind.value, ind.range))] + labels[1..]
      else labels;
    if ind.showPercents then
      counted[..|counted| - 1] + [SetText(counted[|counted| - 1], PercentText(ind.value, ind.range))]
    else counted
  }

  /**
   * `getStringValue`: the bar's value is set to `Value / Range`, the
   * counter's text to `Value/Range` and the percent label's to the
   * percentage, and the container is drawn.
   */
  function ShownWidgets(ind: Indicator): (ws: seq<Widget>)
    requires Valid(ind)
    ensures |ws| == |ind.layout.widgets|
    ensures ws[0] == ind.layout.widgets[0].(value := Fraction(ind.value, ind.range))
    ensures forall i | 1 <= i < |ws| :: ws[i].Label? && ws[i] == SetText(ind.layout.widgets[i], ws[i].text)
    ensures ind.showCounter ==> ws[1].text == CounterText(ind.value, ind.range)
    ensures ind.showPercents ==> ws[|ws| - 1].text == PercentText(ind.value, ind.range)
  {
    var bar := SetBarValue(ind.layout.widgets[0], Number(Fraction(ind.value, ind.range))).value;
    [bar] + ShownLabels(ind.layout.widgets[1..], ind)
  }

  /** The shown widgets: the sized bar at the current fraction, then the labels with their new texts. */
  lemma ShownWidgetsAre(ind: Indicator)
    requires Valid(ind)
    ensures ShownWidgets(ind) ==
      [Bar(ProgressFill, Fraction(ind.value, ind.range), ind.width - LabelsWidth(ind.range, ind.showCounter, ind.showPercents), true)]
      + (if ind.showCounter then [Label(CounterText(ind.value, ind.range), CounterWidth(ind.range), Right)] else [])
      + (if ind.showPercents then [Label(PercentText(ind.value, ind.range), PercentsWidth, Right)] else [])
  {
    var labels := ind.layout.widgets[1..];
    LabelSlotsWidth(labels, ind.range, ind.showCounter, ind.showPercents);
    assert ind.layout.widgets[0].width == ind.width - SumWidths(labels);
  }

  lemma DrawableParts(a: seq<Widget>, b: seq<Widget>)
    requires Drawable(a) && Drawable(b)
    ensures Drawable(a + b)
    ensures a != [] ==> Drawable(a[1..])
  {
    if a != [] {
      forall i | 0 <= i < |a[1..]| ensures WellFormed(a[1..][i]) && (a[1..][i].Bar? ==> a[1..][i].width >= 3) {
        assert a[1..][i] == a[i + 1];
      }
    }
  }

  lemma {:induction false} ContainerStringAppend(a: seq<Widget>, b: seq<Widget>)
    requires Drawable(a) && Drawable(b)
    ensures Drawable(a + b)
    ensures ContainerString(a + b) == ContainerString(a) + ContainerString(b)
    decreases |a|
  {
    DrawableParts(a, b);
    if a == [] {
      assert a + b == b;
      assert ContainerString(a) == [];
      EmptyJoins(ContainerString(b));
    } else {
      ContainerStringCons(a, b);
      ContainerStringAppend(a[1..], b);
      JoinedAfterHead(ContainerString(a + b), ContainerString(a), Render(a[0]),
        ContainerString(a[1..] + b), ContainerString(a[1..]), ContainerString(b));
    }
  }

  lemma JoinedAfterHead(whole: string, left: string, head: string, tail: string, rest: string, right: string)
    requires whole == head + tail && tail == rest + right && left == head + rest
    ensures whole == left + right
  {
    Associate(head, rest, right);
  }

  /** Drawing `a + b` starts with the drawing of `a`'s first widget. */
  lemma ContainerStringCons(a: seq<Widget>, b: seq<Widget>)
    requires Drawable(a) && Drawable(b) && a != []
    ensures Drawable(a[1..]) && Drawable(a + b)
    ensures ContainerString(a + b) == Render(a[0]) + ContainerString(a[1..] + b)
    ensures ContainerString(a) == Render(a[0]) + ContainerString(a[1..])
  {
    DrawableParts(a, b);
    ConsAppend(a, b);
  }

  lemma SingleString(w: Widget)
    requires WellFormed(w) && (w.Bar? ==> w.width >= 3)
    ensures Drawable([w]) && ContainerString([w]) == Render(w)
  {
    assert [w][1..] == [];
  }

  /** The shown widgets can all be drawn, and their widths fill the indicator's width. */
  lemma ShownWidgetsDrawable(ind: Indicator)
    requires Valid(ind)
    ensures Drawable(ShownWidgets(ind))
    ensures SumWidths(ShownWidgets(ind)) == ind.width
  {
    var ws := ShownWidgets(ind);
    var labels := ws[1..];
    assert ws == [ws[0]] + labels;
    assert ws[0].Bar? && ws[0].width == ind.width - LabelsWidth(ind.range, ind.showCounter, ind.showPercents)
      && LabelSlots(labels, ind.range, ind.showCounter, ind.showPercents) by {
      ShownWidgetsAre(ind);
    }
    assert SumWidths(labels) == LabelsWidth(ind.range, ind.showCounter, ind.showPercents) by {
      LabelSlotsWidth(labels, ind.range, ind.showCounter, ind.showPercents);
    }
    assert Drawable(ws) by {
      IndicatorLineIsContainerDrawing(ind);
    }
    ConsSums(ws[0], labels);
  }

  /** The width left to the bar once the labels have theirs. */
  function BarWidthOf(ind: Indicator): (bw: int)
    requires Valid(ind)
    ensures bw >= BarMinWidth
  {
    ind.width - LabelsWidth(ind.range, ind.showCounter, ind.showPercents)
  }

  /** The counter part of the line: the counter label's drawing, or nothing. */
  function CounterPart(ind: Indicator): string
    requires Valid(ind)
  {
    if ind.showCounter then TextLabelString(CounterText(ind.value, ind.range), CounterWidth(ind.range), Right) else ""
  }

  /** The percent part of the line: the percent label's drawing, or nothing. */
  function PercentPart(ind: Indicator): string
    requires Valid(ind)
  {
    if ind.showPercents then TextLabelString(PercentText(ind.value, ind.range), PercentsWidth, Right) else ""
  }

  /**
   * The drawn line of the indicator: the bar filled to `Value / Range`,
   * then the counter's drawing, then the percentage's.
   */
  function IndicatorLine(ind: Indicator): (line: string)
    requires Valid(ind)
    ensures |line| == ind.width
  {
    var bw := BarWidthOf(ind);
    PositionsInRange(Fraction(ind.value, ind.range), bw);
    ProgressBarString(bw - 2, ProgressPosition(Fraction(ind.value, ind.range), bw)) + CounterPart(ind) + PercentPart(ind)
  }

  /** A bar followed by labels draws as the bar's drawing followed by the labels' drawings. */
  lemma DrawBarAndLabels(bar: Widget, counter: seq<Widget>, percents: seq<Widget>)
    requires WellFormed(bar) && (bar.Bar? ==> bar.width >= 3)
    requires Drawable(counter) && Drawable(percents)
    ensures Drawable([bar] + counter + percents)
    ensures ContainerString([bar] + counter + percents) ==
      Render(bar) + ContainerString(counter) + ContainerString(percents)
  {
    SingleString(bar);
    ContainerStringAppend([bar], counter);
    ContainerStringAppend([bar] + counter, percents);
  }

  /**
   * What `getStringValue` draws, the container's line of the shown
   * widgets, is the indicator's line: the bar's drawing, then the
   * counter's, then the percentage's.
   */
  lemma IndicatorLineIsContainerDrawing(ind: Indicator)
    requires Valid(ind)
    ensures Drawable(ShownWidgets(ind))
    ensures ContainerString(ShownWidgets(ind)) == IndicatorLine(ind)
  {
    var bw := BarWidthOf(ind);
    var bar := Bar(ProgressFill, Fraction(ind.value, ind.range), bw, true);
    var counter: seq<Widget> :=
      if ind.showCounter then [Label(CounterText(ind.value, ind.range), CounterWidth(ind.range), Right)] else [];
    var percents: seq<Widget> :=
      if ind.showPercents then [Label(PercentText(ind.value, ind.range), PercentsWidth, Right)] else [];
    assert ShownWidgets(ind) == [bar] + counter + percents by {
      ShownWidgetsAre(ind);
    }
    OptionalLabelDrawn(ind.showCounter, CounterText(ind.value, ind.range), CounterWidth(ind.range));
    OptionalLabelDrawn(ind.showPercents, PercentText(ind.value, ind.range), PercentsWidth);
    assert Render(bar) == ProgressBarString(bw - 2, ProgressPosition(Fraction(ind.value, ind.range), bw));
    DrawBarAndLabels(bar, counter, percents);
  }

  /** A right-aligned label that is shown or not draws as its text's drawing or as nothing. */
  lemma OptionalLabelDrawn(show: bool, text: string, width: int)
    requires width >= 1
    ensures var ws: seq<Widget> := if show then [Label(text, width, Right)] else [];
      && Drawable(ws)
      && ContainerString(ws) == if show then TextLabelString(text, width, Right) else ""
  {
    if show {
      SingleString(Label(text, width, Right));
    }
  }

  /** A progress bar drawing followed by two more pieces of text, read back piece by piece. */
  lemma BarThenLabels(bw: int, p: int, cp: string, pp: string)
    requires bw >= 3 && 0 <= p <= bw - 2
    ensures var line := ProgressBarString(bw - 2, p) + cp + pp;
      && |line| == bw + |cp| + |pp|
      && line[0] == '[' && line[bw - 1] == ']'
      && (forall i | 1 <= i <= bw - 2 :: line[i] == '#' <==> i <= p)
      && line[bw..bw + |cp|] == cp
      && line[bw + |cp|..] == pp
  {
    var drawn := ProgressBarString(bw - 2, p);
    var line := drawn + cp + pp;
    forall i | 1 <= i <= bw - 2 ensures line[i] == '#' <==> i <= p {
      assert line[i] == drawn[i];
    }
    assert line[bw..bw + |cp|] == cp;
  }

  /** A right-aligned label whose text fits ends with that text. */
  lemma RightLabelEndsWithText(text: string, width: int)
    requires |text| < width
    ensures TextLabelString(text, width, Right)[width - |text|..] == text
  {
    LabelShowsWholeText(text, width, Right);
  }

  /** Any line that starts with a progress bar drawn for a fill in `[0, 1]` shows that fill. */
  lemma LineShowsFill(line: string, bw: int, f: real, cp: string, pp: string)
    requires bw >= 3 && 0.0 <= f <= 1.0
    requires line == ProgressBarString(bw - 2, ProgressPosition(f, bw)) + cp + pp
    ensures var p := ProgressPosition(f, bw);
      && p as real <= f * (bw - 2) as real < p as real + 1.0
      && line[0] == '[' && line[bw - 1] == ']'
      && (forall i | 1 <= i <= bw - 2 :: line[i] == '#' <==> i <= p)
  {
    var p := ProgressPosition(f, bw);
    var m := (bw - 2) as real;
    assert p == Trunc(f * m);
    PositionsInRange(f, bw);
    BarThenLabels(bw, p, cp, pp);
  }

  /** The bar's part of the line is filled with `#` up to `Value / Range` of its inner width, rounded down. */
  lemma IndicatorLineShowsFill(ind: Indicator)
    requires Valid(ind)
    ensures var line := IndicatorLine(ind);
      var bw := BarWidthOf(ind);
      var f := Fraction(ind.value, ind.range);
      var p := ProgressPosition(f, bw);
      && p as real <= f * (bw - 2) as real < p as real + 1.0
      && line[0] == '[' && line[bw - 1] == ']'
      && (forall i | 1 <= i <= bw - 2 :: line[i] == '#' <==> i <= p)
  {
    IndicatorLineParts(ind);
    LineShowsFill(IndicatorLine(ind), BarWidthOf(ind), Fraction(ind.value, ind.range), CounterPart(ind), PercentPart(ind));
  }

  lemma IndicatorLineParts(ind: Indicator)
    requires Valid(ind)
    ensures var bw := BarWidthOf(ind);
      && bw >= 3
      && IndicatorLine(ind)
         == ProgressBarString(bw - 2, ProgressPosition(Fraction(ind.value, ind.range), bw)) + CounterPart(ind) + PercentPart(ind)
  {
  }

  /** A line made of a bar, a right-aligned label whose text fits, and a tail shows that text at the label's end. */
  lemma LineShowsMiddleLabel(line: string, bw: int, f: real, text: string, width: int, pp: string)
    requires bw >= 3 && 0.0 <= f <= 1.0 && |text| < width
    requires line == ProgressBarString(bw - 2, ProgressPosition(f, bw)) + TextLabelString(text, width, Right) + pp
    ensures bw + width <= |line|
    ensures line[bw + width - |text|..bw + width] == text
  {
    var p := ProgressPosition(f, bw);
    var cp := TextLabelString(text, width, Right);
    PositionsInRange(f, bw);
    BarThenLabels(bw, p, cp, pp);
    RightLabelEndsWithText(text, width);
    PieceEndsWith(line, bw, cp, text);
  }

  /** A line ending with a right-aligned label whose text fits ends with that text. */
  lemma LineEndsWithLabel(line: string, head: string, text: string, width: int)
    requires |text| < width
    requires line == head + TextLabelString(text, width, Right)
    ensures line[|line| - |text|..] == text
  {
    var piece := TextLabelString(text, width, Right);
    RightLabelEndsWithText(text, width);
    assert line[|head|..] == piece;
    PieceEndsWith(line, |head|, piece, text);
  }

  /** A piece of a line that ends with some text puts that text at the piece's end. */
  lemma PieceEndsWith(line: string, start: int, piece: string, text: string)
    requires 0 <= start && start + |piece| <= |line| && |text| <= |piece|
    requires line[start..start + |piece|] == piece
    requires piece[|piece| - |text|..] == text
    ensures line[start + |piece| - |text|..start + |piece|] == text
  {
    assert line[start + |piece| - |text|..start + |piece|] == line[start..start + |piece|][|piece| - |text|..];
  }

  /** The counter label's part of the line ends with the whole `Value/Range` text. */
  lemma IndicatorLineShowsCounter(ind: Indicator)
    requires Valid(ind) && ind.showCounter
    ensures var line := IndicatorLine(ind);
      var bw := BarWidthOf(ind);
      var ct := CounterText(ind.value, ind.range);
      var end := bw + CounterWidth(ind.range);
      end <= |line| && line[end - |ct|..end] == ct
  {
    IndicatorLineParts(ind);
    LineShowsMiddleLabel(IndicatorLine(ind), BarWidthOf(ind), Fraction(ind.value, ind.range),
      CounterText(ind.value, ind.range), CounterWidth(ind.range), PercentPart(ind));
  }

  /** The line ends with the whole percentage text. */
  lemma IndicatorLineShowsPercent(ind: Indicator)
    requires Valid(ind) && ind.showPercents
    ensures var line := IndicatorLine(ind);
      var pt := PercentText(ind.value, ind.range);
      line[ind.width - |pt|..] == pt
  {
    var bw := BarWidthOf(ind);
    var head := ProgressBarString(bw - 2, ProgressPosition(Fraction(ind.value, ind.range), bw)) + CounterPart(ind);
    LineEndsWithLabel(IndicatorLine(ind), head, PercentText(ind.value, ind.range), PercentsWidth);
  }

  // ---------------------------------------------------------------------
  // The demonstration script

  lemma DemoDigits()
    ensures Digits(25) == 2 && Digits(50) == 2 && Digits(100) == 3 && Digits(1000) == 4
  {
    assert NatToString(2) == "2" && NatToString(5) == "5" && NatToString(1) == "1";
    assert NatToString(10) == "10";
    assert NatToString(100) == "100";
  }

  /** The script's first half: 105 `inc`s on range 100 stop at 100, and 105 `dec`s stop at 0. */
  lemma DemoCounting()
    ensures var a := NewIndicator(100, 0, true, true, 80);
      && a.Success?
      && var up := IncTimes(a.value, 105);
      && up.value == 100
      && var b := SetIndicatorWidth(up, 60);
      && b.Success?
      && DecTimes(b.value, 105).value == 0
  {
    DemoDigits();
    var a := NewIndicator(100, 0, true, true, 80);
    IncSaturates(a.value, 105);
    var b := SetIndicatorWidth(IncTimes(a.value, 105), 60);
    DecSaturates(b.value, 105);
  }

  /**
   * The script's middle: after counting up and down it sets width 70,
   * value 50, width 18 and value 100, which is the state its second half
   * starts from (`DemoRanges`).
   */
  lemma DemoReachesRanges()
    ensures var a := NewIndicator(100, 0, true, true, 80);
      && a.Success?
      && var b := SetIndicatorWidth(IncTimes(a.value, 105), 60);
      && b.Success?
      && var c := SetIndicatorWidth(DecTimes(b.value, 105), 70);
      && c.Success?
      && var d := SetValue(c.value, 50);
      && d.Success?
      && var e := SetIndicatorWidth(d.value, 18);
      && e.Success?
      && var f := SetValue(e.value, 100);
      && f.Success?
      && Valid(f.value) && f.value.range == 100 && f.value.value == 100 && f.value.width == 18
      && f.value.showCounter && f.value.showPercents
  {
    DemoCounting();
    DemoDigits();
    var a := NewIndicator(100, 0, true, true, 80).value;
    IncSaturates(a, 105);
    var b := SetIndicatorWidth(IncTimes(a, 105), 60).value;
    DecSaturates(b, 105);
    var c := SetIndicatorWidth(DecTimes(b, 105), 70).value;
    assert c.range == 100 && c.showCounter && c.showPercents;
    var d := SetValue(c, 50).value;
    var e := SetIndicatorWidth(d, 18).value;
    assert e.range == 100 && e.showCounter && e.showPercents;
  }

  /** Width 18 is exactly the minimum for range 100 with both labels. */
  lemma DemoNarrowest(ind: Indicator)
    requires Valid(ind) && ind.range == 100 && ind.showCounter && ind.showPercents
    ensures SetIndicatorWidth(ind, 17).Failure?
    ensures SetIndicatorWidth(ind, 18).Success?
  {
    DemoDigits();
  }

  /**
   * The script's second half: narrowing the range from 100 to 50 and 25
   * clamps the value and keeps width 18; widening it to 1000 raises width
   * 16 to the new minimum 20; `reset` returns to 0.
   */
  lemma DemoRanges(ind: Indicator)
    requires Valid(ind) && ind.range == 100 && ind.value == 100 && ind.width == 18
    requires ind.showCounter && ind.showPercents
    ensures var e := SetRange(ind, 50);
      && e.Success? && e.value.value == 50 && e.value.width == 18
      && var f := SetRange(e.value, 25);
      && f.Success? && f.value.value == 25 && f.value.width == 18
      && var g := SetIndicatorWidth(f.value, 16);
      && g.Success?
      && var h := SetRange(g.value, 1000);
      && h.Success? && h.value.value == 25 && h.value.width == 20
      && var k := SetIndicatorWidth(h.value, 80);
      && k.Success?
      && Reset(k.value).value == 0
  {
    DemoDigits();
  }

}
