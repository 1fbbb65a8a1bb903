# clui_lib core in Dafny

A model of the core of `clui_lib`. This Python library provides a console user interface with four parts:

- keyboard input decoding for POSIX terminals;
- single-line view widgets and a container that stacks them on one line;
- a progress-bar indicator built from those widgets;
- colouring of console text with xterm SGR control sequences.

Each part is written as pure Dafny functions over immutable datatypes. The contracts and lemmas state what the library promises.

## What is modelled

**Keystroke queues** (`keystroke_common.dfy`, `keystroke_abc.dfy`)

- Covers the control-code table, `ControlCode` and the thread-safe `InputBuffer` queue.
- There are two generations of the queue:
  - `keystroke_common` drops `put` and refuses `get` while the queue is inactive.
  - The older `keystroke_abc` ignores its activity flag. Its queue is otherwise the current one, so the model defines only its `put` and `get` again.
- The model proves both properties:
  - An active queue is first-in-first-out over any run of puts and gets.
  - An inactive current-generation queue does not change.
- It also proves that the two generations agree while active and differ while inactive.

**Escape-sequence decoding** (`keystroke_posix.dfy`, `keystroke_possix.dfy`)

- `SplitCharacters`, `ParseEscapeSequence` and the body of the `KeystrokesListener` loop are functions of the input bytes and of the two lookup tables. `ASCII_CONTROL_MAPPING` and `CSI_MAPPING` are parameters of the model.
- A decoded key is an `Event`:
  - a literal character;
  - a control code;
  - `Alt-x`;
  - a CSI table entry;
  - or a raw byte prefix.
- The older `keystroke_possix` variant is written as imperative methods that follow its loops. Each method is proved to compute the same events as the recursive functions.

**Widgets** (`base_view_classes.dfy`)

- Width validation, `TextLabel` and `TextLabelVW`, and the `Slider`/`ProgressBar` drawings and their positions.
- The `ScalableWidth` mixin.
- `HContainer`: its minimum width, `setWidth` with the even spreading of free space over scalable widgets, `addWidget`, and the joined drawing.

**Progress indicator** (`line_widgets.dfy`)

- `ProgressBarIndicator`: construction, `setValue`, `inc`, `dec`, `reset`, `setWidth`, `setRange` and `getStringValue`.
- Its layout is an `HContainer` holding a scalable progress bar followed by right-aligned counter and percent labels.

**Colours** (`xterm_colours.dfy`)

- `Colorize`, its inverse `ParseColorized`, and the `ColouredBuffer` `put`/`Data`/`print` state machine.
- The model tracks the look the terminal ends up with after the emitted codes.

Supporting modules:

- `wrappers.dfy`: `Option` and `Result`. Python exceptions become `Failure` values.
- `decimal.dfy`: decimal digits of naturals, for `str(int)` and `len(str(n))`.
- `seqs.dfy`: small sequence lemmas.

### Where the code differs from its documentation

The model follows the code.

Keystrokes:

- Byte 32 is in the control table as `SPACE`, so a lone space is delivered as a control code, not as a literal.
- An escape group whose second byte is printable is always read as `Alt-<byte>`, followed by literals. This holds even when a CSI entry is a proper prefix of the group: `ESC [ A x` gives `Alt-[`, `A`, `x`.
- The search for the longest CSI prefix only happens when the second byte is not printable. It emits the raw prefix bytes, not the table's name for them.
- A group that matches nothing emits nothing.
- The `Code <= 32 or Code == 127` check in `keystroke_possix` selects exactly the keys of the control table.
- The two `ControlCode` classes treat the default `'Undefined'` differently:
  - the current class copies it with `list()`, giving a list of nine one-character strings;
  - the older class keeps the string.
- An escape sequence that arrives split across two polling windows is decoded as a bare `ESC` control code followed by literals.

Widgets:

- An explicit `Width=None` gives width 1 even for bar widgets, whose minimum is 5. Their drawing then overflows.
- `addWidget` accepts such a bar into any container with one free column, and the container's line is then longer than its widgets' widths together.
- `TextLabelVW` checks the width before the alignment, so a bad width wins over a bad alignment.

Progress indicator:

- The counter label is first filled with the percent text. The first drawing replaces it with `value/range`.
- `setRange` never shrinks the width.
- `setRange` rebuilds the layout only when the number of digits of the range changes.

Colours:

- `ColouredBuffer.put` emits a full reset whenever some attribute is not named in the call, which is almost always.
- The `Codes[0] != 0` check on a dropped colour is always true.

Floats are exact `real`s, and `int()` of a non-negative float is its floor.

## Model

| member | source | states |
|---|---|---|
| KeystrokeCommon.ControlTableKeys | console/keystroke_common.py:30-65 | the control table names exactly the bytes 0..32 and 127 |
| KeystrokeCommon.ControlTableNames | console/keystroke_common.py:30-65 | 27 is ESC, 32 is SPACE, and no two codes share a name, so a name identifies its byte |
| KeystrokeCommon.NewControlCode | console/keystroke_common.py:83-99 | the name is kept; a key list is copied; a key string becomes the list of its one-character strings |
| KeystrokeCommon.NewBuffer | console/keystroke_common.py:166-167 | a new queue, current or older, is inactive and empty |
| KeystrokeCommon.IsNotEmpty | console/keystroke_common.py:195-199 | true exactly when items are waiting; the older queue's test is the same |
| KeystrokeCommon.Activate | console/keystroke_common.py:213 | opens the queue and keeps its items; the older queue's activate is the same |
| KeystrokeCommon.Deactivate | console/keystroke_common.py:227 | closes the queue and keeps its items; the older queue's deactivate is the same |
| KeystrokeCommon.Put | console/keystroke_common.py:238-240 | an active queue gains the item at its tail; an inactive queue is unchanged |
| KeystrokeCommon.Get | console/keystroke_common.py:252-260 | an active non-empty queue yields its head and keeps the rest; otherwise nothing is yielded and nothing changes |
| KeystrokeCommon.Empty | console/keystroke_common.py:272 | drops all items and keeps the activity flag; the older queue's empty is the same |
| KeystrokeCommon.SwitchesIdempotent | console/keystroke_common.py:201-227 | activating or deactivating twice is the same as once; a deactivate/activate cycle keeps the items |
| KeystrokeCommon.FifoWhileActive | console/keystroke_common.py:229-260 | over any run of puts and gets on an active queue, the delivered items followed by the remaining items equal the initial items followed by the pushed ones |
| KeystrokeCommon.FrozenWhileInactive | console/keystroke_common.py:238-260 | on an inactive queue, puts and gets change nothing and deliver nothing |
| KeystrokeAbc.SameControlTable | console/keystroke_abc.py:9-44 | the older table is the same map as the current one |
| KeystrokeAbc.RangeTestSelectsTableKeys | console/keystroke_possix.py:192-195 | the range check used by the listener picks exactly the bytes in the control table |
| KeystrokeAbc.NewControlCode | console/keystroke_abc.py:50-54 | name and keys are stored as given, the default being the string `Undefined` |
| KeystrokeAbc.ConstructorsCompared | console/keystroke_abc.py:50-54 | for a key list both constructors keep it; for the default, the current one splits `Undefined` into letters and the older one keeps the string |
| KeystrokeAbc.Put | console/keystroke_abc.py:151-152 | appends the item whatever the flag |
| KeystrokeAbc.Get | console/keystroke_abc.py:159-164 | yields and removes the head whenever the queue is non-empty, whatever the flag |
| KeystrokeAbc.AgreesWhileActive | console/keystroke_abc.py:146-164 | from an active state, any run of puts and gets on the older queue gives the same states and outputs as on the current one |
| KeystrokeAbc.DiffersWhileInactive | console/keystroke_abc.py:151-164 | on an inactive queue the older class still puts and gets while the current one refuses |
| KeystrokeAbc.FifoRegardlessOfFlag | console/keystroke_abc.py:146-164 | the older queue is first-in-first-out over any run of puts and gets, active or not |
| KeystrokePosix.CharEvent | console/keystroke_posix.py:108-112 | a byte in the control table becomes its control code with the mapped keys; any other byte stays a literal |
| KeystrokePosix.SplitCharacters | console/keystroke_posix.py:106-113 | succeeds exactly when every control byte's name is in the key map, giving one event per byte; otherwise fails on the first unmapped name |
| KeystrokePosix.NextEscape | console/keystroke_posix.py:144-145 | the first ESC at or after the start, or the end of input when there is none |
| KeystrokePosix.EscapeGroups | console/keystroke_posix.py:149-156 | cuts the input at every ESC: the groups concatenate back to the input and each starts with its only ESC |
| KeystrokePosix.EscapeGroupsUnique | console/keystroke_posix.py:149-156 | any cut into ESC-led groups that concatenate to the input is this one |
| KeystrokePosix.LongestCsiPrefix | console/keystroke_posix.py:167-173 | the longest prefix of length 2 or more, up to the bound, that is a CSI key, or none when there is no such prefix |
| KeystrokePosix.ClassifyGroup | console/keystroke_posix.py:157-175 | a whole CSI key gives its name; a lone ESC gives the ESC control code; a printable second byte gives Alt plus literals; otherwise the longest CSI prefix gives raw bytes plus literals, and no prefix gives nothing |
| KeystrokePosix.ClassifyGroups | console/keystroke_posix.py:157-175 | classifying the groups can only fail for a missing key mapping |
| KeystrokePosix.ClassifyGroupsAppend | console/keystroke_posix.py:157-175 | classifying groups distributes over concatenation, stopping at the first failure |
| KeystrokePosix.ParseEscapeSequence | console/keystroke_posix.py:140-176 | runs off the end (IndexError) exactly when the input holds no ESC |
| KeystrokePosix.ParseLeadingText | console/keystroke_posix.py:143-148 | the bytes before the first ESC are split as plain characters ahead of the escape groups |
| KeystrokePosix.ParseGroupThenRest | console/keystroke_posix.py:149-175 | a leading escape group is classified on its own, before the rest |
| KeystrokePosix.ParseSingleGroup | console/keystroke_posix.py:157-175 | input that is one escape group decodes as that group's classification |
| KeystrokePosix.ClassifyWindow | console/keystroke_posix.py:249-265 | an empty window gives nothing; a single byte gives one event, a control code or a literal; a longer window is split as characters without ESC and parsed as escape groups with one |
| KeystrokePosix.SingleCharacterShortcut | console/keystroke_posix.py:250-257 | a single byte decodes as `SplitCharacters` would, except that an unmapped control name gets the keys `Undefined` instead of failing |
| KeystrokePosix.WindowNeverRunsOffTheEnd | console/keystroke_posix.py:258-262 | the listener only parses escape groups when an ESC is present, so decoding a window never raises IndexError |
| KeystrokePosix.PutAll | console/keystroke_posix.py:261-265 | an active queue gains the events in order; an inactive one is unchanged |
| KeystrokePosix.WindowsEventsAppend | console/keystroke_posix.py:246-266 | decoding consecutive windows distributes over their concatenation |
| KeystrokePosix.ListenerPreservesOrder | console/keystroke_posix.py:246-266 | the listener queues the events of all windows in order, or reports the first decoding error |
| KeystrokePosix.Drain | console/keystroke_posix.py:247-248 | draining yields exactly the queued bytes in order and leaves the active queue empty |
| KeystrokePosix.SplitPrintable | console/keystroke_posix.py:106-113 | printable non-space bytes are always delivered as themselves |
| KeystrokePosix.PrintableAndSpaceWindows | console/keystroke_posix.py:250-257 | a lone printable key is a literal; a lone space is the SPACE control code |
| KeystrokePosix.AltWindow | console/keystroke_posix.py:160-165 | ESC then a printable byte, not itself a CSI key, is Alt of that byte |
| KeystrokePosix.ExactSequenceWindow | console/keystroke_posix.py:158-159 | a window that is exactly a CSI key decodes to that key's name |
| KeystrokePosix.CsiPrefixThenLetter | console/keystroke_posix.py:160-165 | `ESC [ A x` is read as Alt-`[`, `A`, `x`, even though `ESC [ A` is a CSI key |
| KeystrokePosix.RawPrefixWindow | console/keystroke_posix.py:166-173 | with a non-printable second byte, the longest CSI prefix is emitted as raw bytes, followed by the remaining characters |
| KeystrokePosix.UnmatchedGroupIsDropped | console/keystroke_posix.py:166-173 | a group with a non-printable second byte and no CSI prefix yields no event |
| KeystrokePosix.WindowKeys | console/keystroke_posix.py:254 | a name in the mapping gives its key list; otherwise the control code gets the nine letters of `Undefined` |
| KeystrokePosix.RunListener | console/keystroke_posix.py:246-267 | the loop never changes the output queue's flag, and does nothing once that queue is inactive |
| KeystrokePosix.ListenerOnlyAppends | console/keystroke_posix.py:246-267 | the loop only appends: whatever the output queue held before stays in front |
| KeystrokePosix.SplitAcrossWindows | console/keystroke_posix.py:246-266 | an escape sequence split over two polling windows is delivered as the ESC control code followed by literals |
| KeystrokePossix.SplitCharacters | console/keystroke_possix.py:64-71 | the loop yields the same events or error as the recursive definition |
| KeystrokePossix.GroupEscapes | console/keystroke_possix.py:87-94 | the index loop builds exactly the ESC-led groups of the input |
| KeystrokePossix.ClassifyGroup | console/keystroke_possix.py:95-113 | the downward prefix search classifies a group as the recursive definition does |
| KeystrokePossix.ClassifyGroups | console/keystroke_possix.py:95-113 | the loop over the groups accumulates the same events and stops at the same error |
| KeystrokePossix.ParseEscapeSequence | console/keystroke_possix.py:78-114 | the imperative parser agrees with the recursive one, including the IndexError case |
| KeystrokePossix.ClassifyWindow | console/keystroke_possix.py:189-205 | window decoding agrees with the current listener; an unmapped single control byte carries the string `Undefined` |
| KeystrokePossix.PutAll | console/keystroke_possix.py:199-205 | the older queue gains all events in order, whatever its flag |
| KeystrokePossix.Listen | console/keystroke_possix.py:186-206 | over any sequence of windows, the queue gains every decoded event in order, or the first decoding error is reported; then the queue holds exactly the events of the windows before the failing one, which puts nothing; either way the earlier items stay in front |
| KeystrokePossix.Drain | console/keystroke_possix.py:187-188 | draining yields the queued bytes in order and empties the queue |
| BaseViewClasses.HWidgetWidth | cli_ui/base_view_classes.py:197-213 | None gives 1; an integer is accepted when at least the minimum width (positive when there is none); anything else is a type error |
| BaseViewClasses.AcceptedWidthsArePositive | cli_ui/base_view_classes.py:197-213 | every accepted width is at least 1 |
| BaseViewClasses.OnlyNoWidthUndercutsTheMinimum | cli_ui/base_view_classes.py:197-213 | a width below the widget's minimum is accepted exactly when the width was None |
| BaseViewClasses.ParseAlignment | cli_ui/base_view_classes.py:334-341 | accepts exactly `l`, `c`, `r` in either case, lower-cased; anything else is a value error |
| BaseViewClasses.AlignmentRoundTrip | cli_ui/base_view_classes.py:334-336 | an alignment's code, lower or upper case, parses back to it |
| BaseViewClasses.Truncated | cli_ui/base_view_classes.py:423-426 | the shown text is a prefix of the text, shorter than the width, and cut only when the text does not fit |
| BaseViewClasses.TextLabelString | cli_ui/base_view_classes.py:423-437 | the label is exactly the width and shows the truncated text padded according to the alignment |
| BaseViewClasses.CenteredPaddingBalanced | cli_ui/base_view_classes.py:433-436 | centring puts the extra space on the right: left padding is half the remainder, rounded down |
| BaseViewClasses.LabelShowsWholeText | cli_ui/base_view_classes.py:423-432 | the text is shown whole exactly when it is shorter than the width |
| BaseViewClasses.Trunc | cli_ui/base_view_classes.py:588 | `int()` of a float rounds toward zero |
| BaseViewClasses.PositionsInRange | cli_ui/base_view_classes.py:588-637 | for values in [0, 1] the slider mark (`SliderPosition`) lies on the bar, in 1..width-2, and the fill (`ProgressPosition`) stays within it, 0..width-2 cells |
| BaseViewClasses.PositionsAtTheEnds | cli_ui/base_view_classes.py:588-637 | value 0 puts the slider mark on the first cell and fills nothing; value 1 puts the mark on the last cell and fills every cell |
| BaseViewClasses.PositionsMonotone | cli_ui/base_view_classes.py:586-642 | a larger value never moves the slider mark or the fill back |
| BaseViewClasses.SliderString | cli_ui/base_view_classes.py:586-595 | `<`, dashes with the `I` mark at the position, `>`, exactly the bar width plus 2 |
| BaseViewClasses.ProgressBarString | cli_ui/base_view_classes.py:635-642 | `[`, the fill in `#`, spaces, `]`, exactly the bar width plus 2 |
| BaseViewClasses.BarDrawingsReadBack | cli_ui/base_view_classes.py:586-642 | the drawings can be read back: the only `I` is at the slider position, and a cell is `#` exactly when it is within the fill |
| BaseViewClasses.BarValue | cli_ui/base_view_classes.py:540-546 | numbers in [0, 1] are accepted; other numbers are a value error and non-numbers a type error |
| BaseViewClasses.NewTextLabel | cli_ui/base_view_classes.py:334-355 | the alignment is checked first; a positive width is kept; otherwise the width is the text length plus 1, so the whole text shows |
| BaseViewClasses.NewTextLabelVW | cli_ui/base_view_classes.py:841-859 | the width must be an integer no less than the text length plus 1, or None; it is checked before the alignment |
| BaseViewClasses.NewBar | cli_ui/base_view_classes.py:474-503 | a bar needs an accepted width, at least 5 when given as an integer, and a value in [0, 1] |
| BaseViewClasses.SetBarValue | cli_ui/base_view_classes.py:540-546 | a bar's value is replaced when valid; otherwise it is an error and the bar is unchanged |
| BaseViewClasses.SetText | cli_ui/base_view_classes.py:863-883 | a fixed label keeps its width; a variable label's minimum and current width become the text length plus 1; well-formedness is kept |
| BaseViewClasses.LabelVWNeverTruncates | cli_ui/base_view_classes.py:776-783 | a variable-width label always shows its whole text, at any width it accepts |
| BaseViewClasses.ScalableSetWidth | cli_ui/base_view_classes.py:699-706 | a scalable widget takes any width no less than its minimum and refuses smaller ones |
| BaseViewClasses.Render | cli_ui/base_view_classes.py:410-642 | a well-formed widget (a bar at least 3 wide) draws exactly its width; a slider shows `<`, the `I` at its position (on the bar) and `>`; a progress bar shows `[`, `#` exactly on the filled cells, and `]` |
| BaseViewClasses.UnsizedBarOverflows | cli_ui/base_view_classes.py:210-211 | a bar given width None gets width 1 and draws 3 characters (slider) or 2 (progress bar) |
| BaseViewClasses.NewContainer | cli_ui/base_view_classes.py:945-953 | a container needs a non-negative width and starts empty with minimum width 0 |
| BaseViewClasses.MinWidth | cli_ui/base_view_classes.py:972-988 | without scalable widgets the minimum is the widths added up; for well-formed widgets it is never negative |
| BaseViewClasses.FixedClaimWidths | cli_ui/base_view_classes.py:982-988 | without scalable widgets the minimum width is the sum of the widths |
| BaseViewClasses.Distribute | cli_ui/base_view_classes.py:1029-1036 | the spreading loop keeps the number of widgets |
| BaseViewClasses.DistributeSums | cli_ui/base_view_classes.py:1021-1036 | after spreading, the widths total the minimum plus the mean extra per scalable widget plus the remainder |
| BaseViewClasses.DistributeShape | cli_ui/base_view_classes.py:1029-1036 | fixed widgets keep their width; each scalable widget gets its minimum plus the mean extra, and the last one also the remainder |
| BaseViewClasses.ResizedClaimsUnchanged | cli_ui/base_view_classes.py:982-988 | resizing does not change the minimum width or the number of scalable widgets |
| BaseViewClasses.SetWidth | cli_ui/base_view_classes.py:1011-1036 | widths below the minimum are refused; with a scalable widget the widths then fill the container exactly; without one the widgets are untouched |
| BaseViewClasses.AddWidget | cli_ui/base_view_classes.py:1085-1098 | a widget is appended only if its claim fits the free space, otherwise nothing is added; the earlier widgets stay in order with only scalable ones resized, and once a scalable widget is held the widths fill the container exactly |
| BaseViewClasses.ContainerStaysFitting | cli_ui/base_view_classes.py:945-1098 | construction, resizing and adding keep the minimum width within the container width (for widgets held once and changed by nothing else) |
| BaseViewClasses.ContainerString | cli_ui/base_view_classes.py:1062 | the line of any container whose labels are at least 1 wide begins with its first widget's drawing; no widgets draw nothing |
| BaseViewClasses.UnsizedBarOverflowsContainer | cli_ui/base_view_classes.py:1085-1098 | a bar created with width None fits any container with a free column, and that container then draws `<I>`, longer than its widths together |
| BaseViewClasses.ContainerStringLength | cli_ui/base_view_classes.py:1062 | the joined drawing is as long as the widths added up |
| BaseViewClasses.ScaledLineFillsTheWidth | cli_ui/base_view_classes.py:1021-1062 | after a successful resize of a container with a scalable widget, the drawing is exactly the container width (for widgets held once and changed by nothing else) |
| LineWidgets.CounterWidth | cli_ui/line_widgets.py:141 | the counter label is at least 4 wide |
| LineWidgets.MinIndicatorWidth | cli_ui/line_widgets.py:122-126 | the narrowest indicator is at least the bar minimum of 5 |
| LineWidgets.CounterText | cli_ui/line_widgets.py:429 | `value/range` always fits its label without truncation |
| LineWidgets.Percent | cli_ui/line_widgets.py:432 | the percentage is floor(100 * value / range), at most 100 |
| LineWidgets.PercentText | cli_ui/line_widgets.py:432 | the percent text always fits its 5-wide label |
| LineWidgets.ResizeBarAndLabels | cli_ui/base_view_classes.py:1011-1036 | resizing a bar-and-labels container gives every extra column to the bar |
| LineWidgets.AddLabelToLaid | cli_ui/base_view_classes.py:1085-1098 | adding a fixed label that fits keeps the bar-and-labels layout |
| LineWidgets.AddAllToLaid | cli_ui/line_widgets.py:139-152 | adding the labels one by one builds the bar-then-labels layout |
| LineWidgets.BuildLayoutSucceeds | cli_ui/line_widgets.py:136-152 | with a width at least the minimum, the container is built without error and holds the bar then the labels |
| LineWidgets.InitialLabels | cli_ui/line_widgets.py:139-152 | counter and percent labels come in that order, right-aligned, 2·(digits+1) and 5 wide |
| LineWidgets.NewIndicator | cli_ui/line_widgets.py:108-153 | succeeds exactly for range ≥ 1, 0 ≤ value ≤ range and a width at least the minimum; the result keeps the arguments and is valid |
| LineWidgets.SetValue | cli_ui/line_widgets.py:318-325 | a value in 0..range replaces the value and keeps range, width, label flags and the container's widgets; others are refused |
| LineWidgets.Inc | cli_ui/line_widgets.py:281-283 | increment keeps the indicator valid |
| LineWidgets.Dec | cli_ui/line_widgets.py:295-297 | decrement keeps the indicator valid |
| LineWidgets.Reset | cli_ui/line_widgets.py:269 | reset sets the value to 0 and changes nothing else |
| LineWidgets.IncSaturates | cli_ui/line_widgets.py:281-283 | n increments add n but stop at the range |
| LineWidgets.DecSaturates | cli_ui/line_widgets.py:295-297 | n decrements subtract n but stop at 0 |
| LineWidgets.SetIndicatorWidth | cli_ui/line_widgets.py:347-356 | any width at least the minimum is accepted; range, value, label flags and labels are kept; narrower widths are refused |
| LineWidgets.WidthChangeIsReversible | cli_ui/line_widgets.py:347-356 | setting a new width and then the old one restores the indicator exactly |
| LineWidgets.LayoutFitsRange | cli_ui/line_widgets.py:390-393 | a range with the same number of digits fits the existing layout |
| LineWidgets.RebuiltForRange | cli_ui/line_widgets.py:393-407 | the rebuilt layout is valid for the new range, and the width grows to the new minimum only if needed |
| LineWidgets.SetRange | cli_ui/line_widgets.py:382-409 | a positive range is accepted, the value is clamped to it, and the width never shrinks; other ranges are refused |
| LineWidgets.Fraction | cli_ui/line_widgets.py:426 | the bar value lies in [0, 1] |
| LineWidgets.ShownLabels | cli_ui/line_widgets.py:428-433 | the labels keep their sizes; the counter's text becomes `value/range` and the percent label's the percentage |
| LineWidgets.ShownWidgets | cli_ui/line_widgets.py:426-433 | the widgets keep their sizes and kinds; the bar's value becomes value/range and the labels take the new texts |
| LineWidgets.ShownWidgetsAre | cli_ui/line_widgets.py:426-434 | the drawing shows the bar at value/range with the remaining width, then `value/range`, then the percentage |
| LineWidgets.ShownWidgetsDrawable | cli_ui/line_widgets.py:426-434 | the widgets drawn can be drawn and together take the indicator's width |
| LineWidgets.IndicatorLine | cli_ui/line_widgets.py:411-434 | the indicator line is exactly the indicator's width |
| LineWidgets.IndicatorLineIsContainerDrawing | cli_ui/line_widgets.py:426-434 | the line is the container's joined drawing of bar, counter and percent labels |
| LineWidgets.IndicatorLineShowsFill | cli_ui/line_widgets.py:426-427 | the line opens with `[` and closes the bar with `]`; its `#` cells are exactly the first floor(fraction · bar cells) cells |
| LineWidgets.IndicatorLineShowsCounter | cli_ui/line_widgets.py:428-430 | `value/range` appears right-aligned just after the bar |
| LineWidgets.IndicatorLineShowsPercent | cli_ui/line_widgets.py:431-433 | the line ends with the percent text |
| LineWidgets.DemoCounting | Tests/DT001_ProrgessBarIndicator.py:46-54 | counting 105 up from 0 of 100 stops at 100; after narrowing to 60, counting 105 down stops at 0 |
| LineWidgets.DemoReachesRanges | Tests/DT001_ProrgessBarIndicator.py:46-59 | from `ProgressBarIndicator(100)`, the script's counting, `setWidth` and `setValue` calls all succeed and reach range 100, value 100, width 18 with both labels |
| LineWidgets.DemoNarrowest | Tests/DT001_ProrgessBarIndicator.py:58 | with range 100 and both labels, 18 is the narrowest accepted width |
| LineWidgets.DemoRanges | Tests/DT001_ProrgessBarIndicator.py:62-72 | from that state, the demo script's setRange/setWidth sequence: values clamp to 50 and 25, width 16 fits range 25, range 1000 widens it to 20, reset gives 0 |
| XtermColours.AttributeCode | console/xterm_colours.py:149-156 | every attribute code is positive, so it never collides with the reset code |
| XtermColours.AttributeNamed | console/xterm_colours.py:160 | finds the attribute with the name, or proves there is none |
| XtermColours.AttributeWithCode | console/xterm_colours.py:149-156 | finds the attribute with the code, or proves there is none |
| XtermColours.AttributeLookupsInvert | console/xterm_colours.py:149-160 | names and codes identify attributes uniquely |
| XtermColours.ChunkReadsBack | console/xterm_colours.py:431-435 | a chunk ends with its text; without codes it is the text alone; with codes, closed by the reset sequence, it parses back to exactly those codes and that text |
| XtermColours.ParseCodeText | console/xterm_colours.py:226-241 | every code's text (attribute number, `38:5:n`, `48:5:n`, `0`) parses back to the code |
| XtermColours.SplitJoinedCodes | console/xterm_colours.py:240-241 | splitting the `;`-joined codes at `;` recovers each code's text |
| XtermColours.SgrRoundTrip | console/xterm_colours.py:240-243 | a coloured chunk closed by the reset sequence parses back to its codes and text |
| XtermColours.ColourValue | console/xterm_colours.py:217-226 | None is no colour; an integer in 0..256 is accepted; other integers are a value error, non-integers a type error |
| XtermColours.AttributeCodes | console/xterm_colours.py:211-216 | an unknown attribute name is a key error naming the first unknown; otherwise the truthy attributes give their codes in order |
| XtermColours.SelectionSetsTheLook | console/xterm_colours.py:211-236 | the selected codes, applied to a plain terminal, give exactly the selected attributes and colours |
| XtermColours.ColorizeCodes | console/xterm_colours.py:211-236 | errors are checked in the order attributes, foreground, background; on success the codes are attributes, then foreground, then background |
| XtermColours.Colorize | console/xterm_colours.py:237-244 | without codes the text is returned as is; otherwise it is framed by the SGR sequence and the reset |
| XtermColours.ColorizeUnchangedWhenNothingSelected | console/xterm_colours.py:237-238 | no codes are emitted exactly when no attribute is true and neither colour is given |
| XtermColours.ColorizeRoundTrip | console/xterm_colours.py:240-243 | the coloured string parses back to its codes and text; the codes set the requested look and the trailing reset restores the plain look |
| XtermColours.NewBuffer | console/xterm_colours.py:265-294 | a new buffer has the plain look, the one a reset gives from any look, holds no text, and its data is just the reset sequence |
| XtermColours.Data | console/xterm_colours.py:328-330 | the buffer's data followed by the reset sequence |
| XtermColours.Print | console/xterm_colours.py:448-449 | returns the data that `print` writes (without the newline it adds) and returns to the empty, plain buffer, the look a reset produces |
| XtermColours.ScanSettings | console/xterm_colours.py:377-390 | the attribute scan fails exactly on the first unknown name, with a key error |
| XtermColours.ScanSettles | console/xterm_colours.py:377-390 | after the scan, whether it finishes or stops at a KeyError, an attribute named before that point is on exactly when its last setting there is true; any other keeps its old flag |
| XtermColours.ScanCodesTrackFlags | console/xterm_colours.py:381-386 | without a reset, the codes the scan emits move the terminal from the old attributes to the new ones |
| XtermColours.ActiveInOrder | console/xterm_colours.py:423-425 | the reset path lists exactly the active attributes |
| XtermColours.PlanPut | console/xterm_colours.py:375-429 | put fails exactly when Colorize would, with the same error; on success the attributes become those set true and the colours the ones given |
| XtermColours.FlagsAfterLoops | console/xterm_colours.py:377-390 | after both loops the named attributes that are on are exactly those set true |
| XtermColours.Put | console/xterm_colours.py:375-436 | on success the data grows by a chunk ending with the text, which becomes the last input, and the state takes the requested look; an error leaves the data unchanged and keeps what Python had already assigned: on a KeyError each flag named before the unknown name is its last setting there and the others keep their old value |
| XtermColours.KeyErrorKeepsEarlierFlags | console/xterm_colours.py:377-386 | `put("x", BOLD=True, BLINK=True)` on a new buffer raises KeyError for `BLINK` after storing `BOLD`: the flags are `{BOLD}` and the data stays empty |
| XtermColours.PutChunkReadsBack | console/xterm_colours.py:430-436 | the appended chunk, once closed by a reset, parses back to the emitted codes and the text |
| XtermColours.ResetCodesSetTheLook | console/xterm_colours.py:421-429 | the reset sequence sets the terminal to exactly the buffer's look, from any look |
| XtermColours.ColourStepTracks | console/xterm_colours.py:400-405 | when no reset is needed, the colour step moves the terminal to the wanted colour |
| XtermColours.ColourStepKeeps | console/xterm_colours.py:400-401 | the colour step only appends its own colour code |
| XtermColours.PutTracksTheTerminal | console/xterm_colours.py:375-436 | after a put, the emitted codes move the terminal from the old look to the buffer's new look |
| XtermColours.PutResetLayout | console/xterm_colours.py:387-429 | a reset chunk is the reset followed by the full look; a call that leaves any attribute unnamed always takes the reset path |
| XtermColours.DroppedColourAlwaysResets | console/xterm_colours.py:402-419 | dropping a colour always resets, because the `Codes[0] != 0` check cannot fail |
| XtermColours.PlainPutStartsWithReset | console/xterm_colours.py:455 | the first plain put on a new buffer still emits a reset before the text |

## Left out

- Threads and locks: the reader thread, the lock around the queue, `time.sleep` and the polling delay. A listener run is a sequence of polling windows given as input.
- Terminal I/O: termios/tty set-up, reading stdin, and all writes to stdout. `clear`, `show`, `update`, `start` and `stop` print or flip the indicator's `IsActive` flag only.
- `keystroke_windows.py` and the `KeyboardListener` demo loops are not part of this model.
- BaseViewClasses.AddWidget: widgets are values, not shared objects, so a widget added twice, or changed through its own `setValue` or `setWidth` after `addWidget`, is not modelled. Python resizes the one object once per entry: a `TextLabelVW("a", Width=2)` added twice to a 9-wide container ends up 5 wide, so both entries draw 5 characters, a 10-character line. A held label given a longer text can push `MinWidth` above `Width`. `ContainerStaysFitting` and `ScaledLineFillsTheWidth` hold for widgets the container holds once and that nothing else changes. The indicator's own writes into its held bar and labels are modelled by `LineWidgets.ShownWidgets`.
- The contents of `ASCII_CONTROL_MAPPING` and `CSI_MAPPING`, whose module `xterm_new_mapping` is not part of this model. They are parameters.
- Text beyond 7-bit ASCII: input bytes are 0..127, where the UTF-8 encode/decode steps of the listener are the identity.
- XtermColours.ColourValue: a Python `bool` colour is not modelled; it passes the `isinstance(…, int)` test at console/xterm_colours.py:218 and :228 (and in `put`) and is written as `38:5:True` or `48:5:False`, which no `ColourArg` produces.
- `str()` of arbitrary values: label texts are strings. `TypeError`s for arguments of the wrong Python type are modelled only where an argument is a sum type (widths, bar values, colours).
- The exception classes and messages: errors are `Failure` values carrying only their kind.
- `ColouredBuffer.Last`: it calls `Colorize` with keyword arguments that `put` never sets, and raises `AttributeError`.
- The truthiness of non-boolean attribute values: attributes take booleans.
- Float rounding: floats are exact reals, so rounding in `value * (width - 2)` and `value / range` is not modelled.
- KeystrokePosix.ClassifyGroups: its own contract only says that failures are missing key mappings; what it computes is stated through ClassifyGroupsAppend and the per-group contract of ClassifyGroup.
- LineWidgets.SetValue: `_show` calls `getStringValue` after every `setValue`, `setWidth` and `setRange`, which writes the bar's value and the label texts back into the stored widgets. The model leaves the stored bar value and label texts as they were built, so SetValue, SetIndicatorWidth and SetRange do not promise those fields. The values shown are recomputed by ShownWidgets, which depends only on value, range, width and the flags (ShownWidgetsAre), so the drawn line is the same.
- LineWidgets.Inc: its own contract only keeps validity; its effect is stated by IncSaturates.
- LineWidgets.Dec: its own contract only keeps validity; its effect is stated by DecSaturates.
