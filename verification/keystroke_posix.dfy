/**
 * Keystroke decoding of the POSIX keyboard listener: one poll window of
 * raw terminal input becomes a list of key events. The two lookup tables
 * of the terminal (control-code name -> key combinations, escape sequence
 * -> symbolic key) are parameters. Threads, sleeping and terminal mode
 * switching are not modelled; the listener loop is a fold over the
 * windows it drains.
 */
module KeystrokePosix {
  import opened Wrappers
  import opened KeystrokeCommon
  import Seqs

  /** `ASCII_CONTROL_MAPPING`: control-code name -> key combinations. */
  type KeyMap = map<string, seq<string>>

  /** `CSI_MAPPING`: exact escape byte sequence -> symbolic key. */
  type CsiMap = map<seq<Ascii>, string>

  /** One entry of the decoder's output list. */
  datatype Event =
    | Literal(code: Ascii)        // the one-character string chr(code)
    | Control(control: ControlCode)
    | Alt(code: Ascii)            // the string 'Alt-' + chr(code)
    | Csi(name: string)           // the table value of a whole escape group
    | Raw(bytes: seq<Ascii>)      // a clipped group prefix, appended as bytes

  /** The exceptions the decoder can raise. */
  datatype DecodeError =
    | MissingKeys(name: string)   // KeyError: a control name absent from the key table
    | IndexOutOfRange             // IndexError: no escape character to stop the scan

  type Events = Result<seq<Event>, DecodeError>

  /** Both parts succeed, and their lists are joined; otherwise the first failure. */
  function Append(a: Events, b: Events): (r: Events)
    ensures r.Success? <==> a.Success? && b.Success?
    ensures r.Success? ==> r.value == a.value + b.value
    ensures a.Failure? ==> r == a
    ensures a.Success? && b.Failure? ==> r == b
  {
    if a.Failure? then a else if b.Failure? then b else Success(a.value + b.value)
  }

  function Concat<T>(ss: seq<seq<T>>): seq<T> {
    if ss == [] then [] else ss[0] + Concat(ss[1..])
  }

  lemma {:induction false} ConcatAppend<T>(a: seq<seq<T>>, b: seq<seq<T>>)
    ensures Concat(a + b) == Concat(a) + Concat(b)
    decreases |a|
  {
    if a == [] {
      assert a + b == b;
    } else {
      assert (a + b)[0] == a[0];
      assert (a + b)[1..] == a[1..] + b;
      ConcatAppend(a[1..], b);
    }
  }

  // ---------------------------------------------------------------------
  // Single characters

  /** The key table can describe `c`: it is no control code, or its name has keys. */
  predicate Known(c: Ascii, keys: KeyMap) {
    c in AsciiControlCodes ==> AsciiControlCodes[c] in keys
  }

  /**
   * The event of one character: a control code carrying its key
   * combinations exactly when the character is in the control table,
   * otherwise the character itself.
   */
  function CharEvent(c: Ascii, keys: KeyMap): (e: Event)
    requires Known(c, keys)
    ensures e.Control? <==> c in AsciiControlCodes
    ensures e.Control? ==> e.control == ControlCode(AsciiControlCodes[c], keys[AsciiControlCodes[c]])
    ensures !e.Control? ==> e == Literal(c)
  {
    if c in AsciiControlCodes then
      Control(NewControlCode(AsciiControlCodes[c], KeyList(keys[AsciiControlCodes[c]])))
    else
      Literal(c)
  }

  /** `i` is the first character of `data` the key table cannot describe. */
  predicate FirstUnknownAt(data: seq<Ascii>, keys: KeyMap, i: int) {
    && 0 <= i < |data|
    && !Known(data[i], keys)
    && forall j | 0 <= j < i :: Known(data[j], keys)
  }

  /**
   * `SplitCharacters`: one event per input character, in input order. The
   * first control character whose name has no keys raises `KeyError`.
   */
  function SplitCharacters(data: seq<Ascii>, keys: KeyMap): (r: Events)
    ensures r.Success? <==> forall i | 0 <= i < |data| :: Known(data[i], keys)
    ensures r.Success? ==>
      |r.value| == |data| && forall i | 0 <= i < |data| :: r.value[i] == CharEvent(data[i], keys)
    ensures r.Failure? ==>
      exists i :: FirstUnknownAt(data, keys, i) && r.error == MissingKeys(AsciiControlCodes[data[i]])
  {
    if data == [] then Success([])
    else if !Known(data[0], keys) then
      assert FirstUnknownAt(data, keys, 0);
      Failure(MissingKeys(AsciiControlCodes[data[0]]))
    else
      var rest := SplitCharacters(data[1..], keys);
      if rest.Failure? then
        assert forall i | FirstUnknownAt(data[1..], keys, i) :: FirstUnknownAt(data, keys, i + 1);
        rest
      else
        Success([CharEvent(data[0], keys)] + rest.value)
  }

  // ---------------------------------------------------------------------
  // Escape groups

  /** The index of the first escape character at or after `from`, or `|s|` when there is none. */
  function NextEscape(s: seq<Ascii>, from: nat): (k: nat)
    requires from <= |s|
    ensures from <= k <= |s|
    ensures k < |s| ==> s[k] == ESC
    ensures forall j | from <= j < k :: s[j] != ESC
    decreases |s| - from
  {
    if from == |s| || s[from] == ESC then from else NextEscape(s, from + 1)
  }

  /** The first-escape index is the only index with its two defining properties. */
  lemma NextEscapeUnique(s: seq<Ascii>, from: nat, m: nat)
    requires from <= m <= |s|
    requires m < |s| ==> s[m] == ESC
    requires forall j | from <= j < m :: s[j] != ESC
    ensures NextEscape(s, from) == m
  {
  }

  /** An escape group: an escape character followed by no other escape character. */
  predicate IsEscapeGroup(g: seq<Ascii>) {
    && |g| > 0
    && g[0] == ESC
    && forall j | 1 <= j < |g| :: g[j] != ESC
  }

  predicate AllEscapeGroups(gs: seq<seq<Ascii>>) {
    forall i | 0 <= i < |gs| :: IsEscapeGroup(gs[i])
  }

  /**
   * The grouping loop of `ParseEscapeSequence`: the text from an escape
   * character on is cut before every further escape character.
   */
  function EscapeGroups(s: seq<Ascii>): (gs: seq<seq<Ascii>>)
    requires |s| > 0 && s[0] == ESC
    ensures |gs| >= 1
    ensures Concat(gs) == s
    ensures AllEscapeGroups(gs)
    decreases |s|
  {
    var k := NextEscape(s, 1);
    if k == |s| then
      [s]
    else
      var rest := EscapeGroups(s[k..]);
      assert Concat([s[..k]] + rest) == s[..k] + Concat(rest) by {
        assert ([s[..k]] + rest)[1..] == rest;
      }
      assert s[..k] + s[k..] == s;
      [s[..k]] + rest
  }

  /**
   * The grouping is the only way to cut the text into escape groups: any
   * list of escape groups that concatenates to `s` is `EscapeGroups(s)`.
   */
  lemma {:induction false} EscapeGroupsUnique(s: seq<Ascii>, gs: seq<seq<Ascii>>)
    requires |s| > 0 && s[0] == ESC
    requires Concat(gs) == s && AllEscapeGroups(gs)
    ensures gs == EscapeGroups(s)
    decreases |s|
  {
    assert gs != [];
    var g := gs[0];
    assert IsEscapeGroup(g);
    var tail := Concat(gs[1..]);
    assert s == g + tail;
    forall j | 1 <= j < |g| ensures s[j] != ESC {
      assert s[j] == g[j];
    }
    if |gs| == 1 {
      assert tail == [];
      NextEscapeUnique(s, 1, |s|);
      assert EscapeGroups(s) == [s];
    } else {
      assert IsEscapeGroup(gs[1]);
      assert tail == gs[1] + Concat(gs[2..]) by {
        assert gs[1..][1..] == gs[2..];
      }
      assert s[|g|] == gs[1][0];
      NextEscapeUnique(s, 1, |g|);
      assert s[..|g|] == g;
      assert s[|g|..] == tail;
      assert AllEscapeGroups(gs[1..]) by {
        forall i | 0 <= i < |gs[1..]| ensures IsEscapeGroup(gs[1..][i]) {
          assert gs[1..][i] == gs[i + 1];
        }
      }
      EscapeGroupsUnique(tail, gs[1..]);
      assert gs == [g] + gs[1..];
    }
  }

  // ---------------------------------------------------------------------
  // Classifying one escape group

  /** The longest prefix `g[..k]` with `2 <= k <= n` that the escape table knows. */
  function LongestCsiPrefix(g: seq<Ascii>, csi: CsiMap, n: nat): (k: Option<nat>)
    requires n <= |g|
    ensures k.Some? ==>
      && 2 <= k.value <= n
      && g[..k.value] in csi
      && forall j | k.value < j <= n :: g[..j] !in csi
    ensures k.None? ==> forall j | 2 <= j <= n :: g[..j] !in csi
  {
    if n < 2 then None
    else if g[..n] in csi then Some(n)
    else LongestCsiPrefix(g, csi, n - 1)
  }

  /**
   * The events of one escape group. A group the table knows whole gives
   * its value. Otherwise a group of two or more characters whose second
   * one is printable gives `Alt-` that character, then the rest character
   * by character. Otherwise the longest proper prefix of length two or
   * more that the table knows is emitted as raw bytes (not as its table
   * value), then the rest character by character; when no prefix is known
   * the group gives nothing. A lone escape character gives `ESC`.
   */
  function ClassifyGroup(g: seq<Ascii>, keys: KeyMap, csi: CsiMap): (r: Events)
    ensures g in csi ==> r == Success([Csi(csi[g])])
    ensures g !in csi && |g| < 2 ==>
      r == (if "ESC" in keys then Success([Control(ControlCode("ESC", keys["ESC"]))])
            else Failure(MissingKeys("ESC")))
    ensures g !in csi && |g| >= 2 && 32 <= g[1] < 127 ==>
      r == Append(Success([Alt(g[1])]), SplitCharacters(g[2..], keys))
    ensures g !in csi && |g| >= 2 && !(32 <= g[1] < 127) ==>
      (r == Success([]) <==> forall j | 2 <= j < |g| :: g[..j] !in csi)
    ensures g !in csi && |g| >= 2 && !(32 <= g[1] < 127) && r != Success([]) ==>
      exists k | 2 <= k < |g| ::
        && g[..k] in csi
        && (forall j | k < j < |g| :: g[..j] !in csi)
        && r == Append(Success([Raw(g[..k])]), SplitCharacters(g[k..], keys))
  {
    if g in csi then
      Success([Csi(csi[g])])
    else if |g| >= 2 then
      if 32 <= g[1] < 127 then
        if |g| > 2 then Append(Success([Alt(g[1])]), SplitCharacters(g[2..], keys))
        else
          assert Append(Success([Alt(g[1])]), SplitCharacters(g[2..], keys)) == Success([Alt(g[1])]) by {
            assert g[2..] == [];
            assert [Alt(g[1])] + [] == [Alt(g[1])];
          }
          Success([Alt(g[1])])
      else
        match LongestCsiPrefix(g, csi, |g| - 1)
        case None => Success([])
        case Some(k) => Append(Success([Raw(g[..k])]), SplitCharacters(g[k..], keys))
    else if "ESC" in keys then
      Success([Control(NewControlCode("ESC", KeyList(keys["ESC"])))])
    else
      Failure(MissingKeys("ESC"))
  }

  /** The events of a list of groups, in order; the first failure stops. */
  function ClassifyGroups(gs: seq<seq<Ascii>>, keys: KeyMap, csi: CsiMap): (r: Events)
    ensures r.Failure? ==> r.error.MissingKeys?
  {
    if gs == [] then Success([])
    else Append(ClassifyGroup(gs[0], keys, csi), ClassifyGroups(gs[1..], keys, csi))
  }

  lemma AppendAssociative(a: Events, b: Events, c: Events)
    ensures Append(Append(a, b), c) == Append(a, Append(b, c))
  {
    if a.Success? && b.Success? && c.Success? {
      assert (a.value + b.value) + c.value == a.value + (b.value + c.value);
    }
  }

  /** Classifying two lists of groups one after the other is classifying their concatenation. */
  lemma {:induction false} ClassifyGroupsAppend(a: seq<seq<Ascii>>, b: seq<seq<Ascii>>, keys: KeyMap, csi: CsiMap)
    ensures ClassifyGroups(a + b, keys, csi) == Append(ClassifyGroups(a, keys, csi), ClassifyGroups(b, keys, csi))
    decreases |a|
  {
    if a == [] {
      assert a + b == b;
      AppendUnit(ClassifyGroups(b, keys, csi));
    } else {
      assert (a + b)[0] == a[0];
      assert (a + b)[1..] == a[1..] + b;
      ClassifyGroupsAppend(a[1..], b, keys, csi);
      AppendAssociative(ClassifyGroup(a[0], keys, csi), ClassifyGroups(a[1..], keys, csi), ClassifyGroups(b, keys, csi));
    }
  }

  // ---------------------------------------------------------------------
  // A whole window that holds an escape character

  /**
   * `ParseEscapeSequence`: the characters before the first escape
   * character are split one by one, then every escape group is
   * classified, in order. Without any escape character the scan for the
   * first one runs off the end and raises `IndexError`.
   */
  function ParseEscapeSequence(data: seq<Ascii>, keys: KeyMap, csi: CsiMap): (r: Events)
    ensures r == Failure(IndexOutOfRange) <==> ESC !in data
  {
    if ESC !in data then
      Failure(IndexOutOfRange)
    else
      var k := NextEscape(data, 0);
      assert k < |data| by {
        var i :| 0 <= i < |data| && data[i] == ESC;
      }
      var lead := if k > 0 then SplitCharacters(data[..k], keys) else Success([]);
      Append(lead, ClassifyGroups(EscapeGroups(data[k..]), keys, csi))
  }

  lemma AppendUnit(r: Events)
    ensures Append(Success([]), r) == r
    ensures Append(r, Success([])) == r
  {
    if r.Success? {
      assert [] + r.value == r.value;
      assert r.value + [] == r.value;
    }
  }

  /** Text that holds no escape character is emitted first, character by character. */
  lemma ParseLeadingText(u: seq<Ascii>, v: seq<Ascii>, keys: KeyMap, csi: CsiMap)
    requires ESC !in u
    requires |v| > 0 && v[0] == ESC
    ensures ParseEscapeSequence(u + v, keys, csi)
         == Append(SplitCharacters(u, keys), ParseEscapeSequence(v, keys, csi))
  {
    var d := u + v;
    assert d[|u|] == ESC;
    NextEscapeUnique(d, 0, |u|);
    NextEscapeUnique(v, 0, 0);
    assert d[..|u|] == u && d[|u|..] == v;
    assert v[0..] == v;
    var groups := ClassifyGroups(EscapeGroups(v), keys, csi);
    AppendUnit(groups);
    if u == [] {
      AppendUnit(ParseEscapeSequence(v, keys, csi));
      assert d == v;
    }
  }

  /** Each escape group is classified on its own, and before the groups that follow it. */
  lemma ParseGroupThenRest(g: seq<Ascii>, v: seq<Ascii>, keys: KeyMap, csi: CsiMap)
    requires IsEscapeGroup(g)
    requires |v| > 0 && v[0] == ESC
    ensures ParseEscapeSequence(g + v, keys, csi)
         == Append(ClassifyGroup(g, keys, csi), ParseEscapeSequence(v, keys, csi))
  {
    var d := g + v;
    assert d[0] == ESC;
    NextEscapeUnique(d, 0, 0);
    NextEscapeUnique(v, 0, 0);
    assert d[0..] == d && v[0..] == v;
    var gs := [g] + EscapeGroups(v);
    assert Concat(gs) == g + Concat(EscapeGroups(v)) by {
      assert gs[1..] == EscapeGroups(v);
    }
    assert AllEscapeGroups(gs) by {
      forall i | 0 <= i < |gs| ensures IsEscapeGroup(gs[i]) {
        if i > 0 {
          assert gs[i] == EscapeGroups(v)[i - 1];
        }
      }
    }
    EscapeGroupsUnique(d, gs);
    assert gs[1..] == EscapeGroups(v);
    AppendUnit(ClassifyGroups(gs, keys, csi));
    AppendUnit(ClassifyGroups(EscapeGroups(v), keys, csi));
  }

  /** A window that is one escape group is classified as that group. */
  lemma ParseSingleGroup(g: seq<Ascii>, keys: KeyMap, csi: CsiMap)
    requires IsEscapeGroup(g)
    ensures ParseEscapeSequence(g, keys, csi) == ClassifyGroup(g, keys, csi)
  {
    NextEscapeUnique(g, 0, 0);
    assert g[0..] == g;
    NextEscapeUnique(g, 1, |g|);
    assert EscapeGroups(g) == [g];
    assert ClassifyGroups([g], keys, csi) == Append(ClassifyGroup(g, keys, csi), Success([])) by {
      assert [g][1..] == [];
    }
    AppendUnit(ClassifyGroup(g, keys, csi));
    AppendUnit(ClassifyGroups([g], keys, csi));
  }

  // ---------------------------------------------------------------------
  // One poll window of the listener

  /** `ASCII_CONTROL_MAPPING.get(Name, 'Undefined')`. */
  function WindowKeys(name: string, keys: KeyMap): (r: KeysArg)
    ensures r.KeyList? <==> name in keys
    ensures NewControlCode(name, r).keys ==
      if name in keys then keys[name] else ["U", "n", "d", "e", "f", "i", "n", "e", "d"]
  {
    if name in keys then KeyList(keys[name]) else KeyText("Undefined")
  }

  /**
   * The classification of one accumulated window: nothing for an empty
   * window; one event for a single character, whose control code falls
   * back to the keys `'Undefined'`; otherwise the escape decoder when the
   * window holds an escape character and the character splitter when it
   * does not.
   */
  function ClassifyWindow(input: seq<Ascii>, keys: KeyMap, csi: CsiMap): (r: Events)
    ensures input == [] ==> r == Success([])
    ensures |input| == 1 ==> r.Success? && |r.value| == 1
    ensures |input| == 1 && input[0] in AsciiControlCodes ==>
      r.value[0].Control? && r.value[0].control.name == AsciiControlCodes[input[0]]
    ensures |input| == 1 && input[0] !in AsciiControlCodes ==> r.value == [Literal(input[0])]
    ensures |input| > 1 && ESC !in input ==> r == SplitCharacters(input, keys)
    ensures |input| > 1 && ESC in input ==> r == ParseEscapeSequence(input, keys, csi)
  {
    if input == [] then
      Success([])
    else if |input| == 1 then
      var code := input[0];
      if code in AsciiControlCodes then
        var name := AsciiControlCodes[code];
        Success([Control(NewControlCode(name, WindowKeys(name, keys)))])
      else
        Success([Literal(input[0])])
    else if ESC in input then
      ParseEscapeSequence(input, keys, csi)
    else
      SplitCharacters(input, keys)
  }

  /**
   * The single-character shortcut agrees with the general splitter
   * whenever the splitter succeeds; where the splitter would raise
   * `KeyError`, the shortcut instead gives the keys spelled out from
   * `'Undefined'`.
   */
  lemma SingleCharacterShortcut(c: Ascii, keys: KeyMap, csi: CsiMap)
    ensures Known(c, keys) ==> ClassifyWindow([c], keys, csi) == SplitCharacters([c], keys)
    ensures !Known(c, keys) ==>
      && SplitCharacters([c], keys) == Failure(MissingKeys(AsciiControlCodes[c]))
      && ClassifyWindow([c], keys, csi)
         == Success([Control(NewControlCode(AsciiControlCodes[c], KeyText("Undefined")))])
  {
    var r := SplitCharacters([c], keys);
    if r.Failure? {
      var i :| FirstUnknownAt([c], keys, i) && r.error == MissingKeys(AsciiControlCodes[[c][i]]);
      assert i == 0;
    } else {
      assert r.value == [CharEvent(c, keys)];
    }
  }

  /** The listener only decodes escapes in windows that hold one, so `IndexError` never escapes it. */
  lemma WindowNeverRunsOffTheEnd(input: seq<Ascii>, keys: KeyMap, csi: CsiMap)
    ensures ClassifyWindow(input, keys, csi) != Failure(IndexOutOfRange)
  {
    if |input| > 1 && ESC !in input {
      var r := SplitCharacters(input, keys);
      if r.Failure? {
        var i :| FirstUnknownAt(input, keys, i) && r.error == MissingKeys(AsciiControlCodes[input[i]]);
      }
    }
  }

  /** `Buffer.put` of every entry, in list order. */
  function PutAll<T>(b: InputBuffer<T>, xs: seq<T>): (b': InputBuffer<T>)
    ensures b'.isActive == b.isActive
    ensures b.isActive ==> b'.items == b.items + xs
    ensures !b.isActive ==> b' == b
    decreases |xs|
  {
    if xs == [] then b else PutAll(Put(b, xs[0]), xs[1..])
  }

  /** The events of a run of windows, each classified on its own; the first failure stops. */
  function WindowsEvents(windows: seq<seq<Ascii>>, keys: KeyMap, csi: CsiMap): Events {
    if windows == [] then Success([])
    else Append(ClassifyWindow(windows[0], keys, csi), WindowsEvents(windows[1..], keys, csi))
  }

  /** Classifying two runs of windows one after the other is classifying them together. */
  lemma {:induction false} WindowsEventsAppend(a: seq<seq<Ascii>>, b: seq<seq<Ascii>>, keys: KeyMap, csi: CsiMap)
    ensures WindowsEvents(a + b, keys, csi) == Append(WindowsEvents(a, keys, csi), WindowsEvents(b, keys, csi))
    decreases |a|
  {
    if a == [] {
      assert a + b == b;
      AppendUnit(WindowsEvents(b, keys, csi));
    } else {
      assert (a + b)[0] == a[0];
      assert (a + b)[1..] == a[1..] + b;
      WindowsEventsAppend(a[1..], b, keys, csi);
      AppendAssociative(ClassifyWindow(a[0], keys, csi), WindowsEvents(a[1..], keys, csi), WindowsEvents(b, keys, csi));
    }
  }

  /**
   * The decoding loop of `KeystrokesListener` over the windows it drains:
   * while the output queue is open, each window is classified and its
   * events are put in order; the accumulator starts empty in every
   * window. An exception ends the loop.
   */
  function RunListener(windows: seq<seq<Ascii>>, out: InputBuffer<Event>, keys: KeyMap, csi: CsiMap)
    : (r: (InputBuffer<Event>, Option<DecodeError>))
    ensures r.0.isActive == out.isActive
    ensures !out.isActive ==> r == (out, None)
    decreases |windows|
  {
    if windows == [] || !out.isActive then
      (out, None)
    else
      match ClassifyWindow(windows[0], keys, csi)
      case Failure(e) => (out, Some(e))
      case Success(events) => RunListener(windows[1..], PutAll(out, events), keys, csi)
  }

  /** The listener only ever appends to its output queue: what was queued before stays in front. */
  lemma {:induction false} ListenerOnlyAppends(windows: seq<seq<Ascii>>, out: InputBuffer<Event>, keys: KeyMap, csi: CsiMap)
    ensures var r := RunListener(windows, out, keys, csi);
      |out.items| <= |r.0.items| && r.0.items[..|out.items|] == out.items
    decreases |windows|
  {
    if windows != [] && out.isActive {
      var first := ClassifyWindow(windows[0], keys, csi);
      if first.Success? {
        var grown := PutAll(out, first.value);
        ListenerOnlyAppends(windows[1..], grown, keys, csi);
        var rest := RunListener(windows[1..], grown, keys, csi);
        assert RunListener(windows, out, keys, csi) == rest;
        assert grown.items == out.items + first.value;
        assert rest.0.items[..|out.items|] == grown.items[..|out.items|];
      }
    }
  }

  /**
   * Events reach the open output queue in the order of their windows, and
   * within a window in the order the classification gives; a window whose
   * classification fails stops the listener with that error.
   */
  lemma {:induction false} ListenerPreservesOrder(windows: seq<seq<Ascii>>, out: InputBuffer<Event>, keys: KeyMap, csi: CsiMap)
    requires out.isActive
    ensures var all := WindowsEvents(windows, keys, csi);
      && (all.Success? ==> RunListener(windows, out, keys, csi) == (PutAll(out, all.value), None))
      && (all.Failure? ==> RunListener(windows, out, keys, csi).1 == Some(all.error))
    decreases |windows|
  {
    if windows == [] {
      assert PutAll(out, []) == out;
    } else {
      var first := ClassifyWindow(windows[0], keys, csi);
      var rest := WindowsEvents(windows[1..], keys, csi);
      assert WindowsEvents(windows, keys, csi) == Append(first, rest);
      if first.Success? {
        var next := PutAll(out, first.value);
        assert RunListener(windows, out, keys, csi) == RunListener(windows[1..], next, keys, csi);
        ListenerPreservesOrder(windows[1..], next, keys, csi);
        if rest.Success? {
          PutAllAppend(out, first.value, rest.value);
        }
      } else {
        assert RunListener(windows, out, keys, csi) == (out, Some(first.error));
      }
    }
  }

  lemma PutAllAppend<T>(b: InputBuffer<T>, xs: seq<T>, ys: seq<T>)
    requires b.isActive
    ensures PutAll(PutAll(b, xs), ys) == PutAll(b, xs + ys)
  {
    var mid := PutAll(b, xs);
    PutAllOpen(b, xs);
    PutAllOpen(mid, ys);
    PutAllOpen(b, xs + ys);
    Seqs.Associate(b.items, xs, ys);
  }

  /** An open queue after `PutAll`, as a value. */
  lemma PutAllOpen<T>(b: InputBuffer<T>, xs: seq<T>)
    requires b.isActive
    ensures PutAll(b, xs) == InputBuffer(true, b.items + xs)
  {
    var r := PutAll(b, xs);
    assert r.isActive && r.items == b.items + xs;
  }

  /**
   * Draining the raw queue (`while InBuffer.IsNotEmpty: Input += InBuffer.get()`):
   * the accumulated input is everything stored, in order, and the queue is
   * left open and empty. The listener opens its raw queue before the loop
   * and closes it only after, so the queue is open throughout.
   */
  method Drain(inBuffer: InputBuffer<Ascii>) returns (drained: InputBuffer<Ascii>, input: seq<Ascii>)
    requires inBuffer.isActive
    ensures input == inBuffer.items
    ensures drained.isActive && drained.items == []
  {
    drained := inBuffer;
    input := [];
    while IsNotEmpty(drained)
      invariant drained.isActive
      invariant input + drained.items == inBuffer.items
      decreases |drained.items|
    {
      var got := Get(drained);
      drained := got.0;
      input := input + [got.1.value];
    }
  }

  // ---------------------------------------------------------------------
  // Concrete behaviour

  /** Printable characters other than space are split into themselves. */
  lemma SplitPrintable(data: seq<Ascii>, keys: KeyMap)
    requires forall i | 0 <= i < |data| :: 32 < data[i] < 127
    ensures SplitCharacters(data, keys).Success?
    ensures |SplitCharacters(data, keys).value| == |data|
    ensures forall i | 0 <= i < |data| :: SplitCharacters(data, keys).value[i] == Literal(data[i])
  {
    ControlTableKeys();
    assert forall i | 0 <= i < |data| :: Known(data[i], keys);
  }

  /** A printable character other than space gives itself; space is the control code `SPACE`. */
  lemma PrintableAndSpaceWindows(c: Ascii, keys: KeyMap, csi: CsiMap)
    requires 33 <= c <= 126
    ensures ClassifyWindow([c], keys, csi) == Success([Literal(c)])
    ensures ClassifyWindow([32], keys, csi).value[0].control.name == "SPACE"
  {
    ControlTableKeys();
  }

  /** Escape followed by a printable character the table does not know gives `Alt-` that character. */
  lemma AltWindow(c: Ascii, keys: KeyMap, csi: CsiMap)
    requires 32 <= c < 127
    requires [ESC, c] !in csi
    ensures ClassifyWindow([ESC, c], keys, csi) == Success([Alt(c)])
  {
    ParseSingleGroup([ESC, c], keys, csi);
    assert [ESC, c][2..] == [];
    assert [Alt(c)] + [] == [Alt(c)];
  }

  /** A window that is exactly a known escape sequence gives exactly its table value. */
  lemma ExactSequenceWindow(g: seq<Ascii>, keys: KeyMap, csi: CsiMap)
    requires IsEscapeGroup(g) && |g| > 1
    requires g in csi
    ensures ClassifyWindow(g, keys, csi) == Success([Csi(csi[g])])
  {
    ParseSingleGroup(g, keys, csi);
  }

  /**
   * A known CSI sequence followed by a letter in the same window: its
   * second character `[` is printable, so the code reports `Alt-[` and
   * the remaining letters; the longest-prefix search is never reached.
   */
  lemma CsiPrefixThenLetter(keys: KeyMap, csi: CsiMap)
    requires [ESC, 91, 65] in csi && [ESC, 91, 65, 120] !in csi
    ensures ClassifyWindow([ESC, 91, 65, 120], keys, csi)
         == Success([Alt(91), Literal(65), Literal(120)])
  {
    var g: seq<Ascii> := [ESC, 91, 65, 120];
    GroupWindow(g, keys, csi);
    assert g[2..] == [65, 120];
    TwoLetters(65, 120, keys);
    assert [Alt(91)] + [Literal(65), Literal(120)] == [Alt(91), Literal(65), Literal(120)];
  }

  /**
   * When the second character is a control character, the longest known
   * proper prefix is emitted as raw bytes, not as its table value, and the
   * rest follows character by character.
   */
  lemma RawPrefixWindow(keys: KeyMap, csi: CsiMap)
    requires [ESC, 127] in csi && [ESC, 127, 65] !in csi
    ensures ClassifyWindow([ESC, 127, 65], keys, csi) == Success([Raw([ESC, 127]), Literal(65)])
  {
    var g: seq<Ascii> := [ESC, 127, 65];
    GroupWindow(g, keys, csi);
    assert g[..2] == [ESC, 127] && g[2..] == [65];
    assert LongestCsiPrefix(g, csi, |g| - 1) == Some(2);
    ClassifyRawPrefix(g, keys, csi, 2);
    OneLetter(65, keys);
    assert [Raw([ESC, 127])] + [Literal(65)] == [Raw([ESC, 127]), Literal(65)];
  }

  lemma ClassifyRawPrefix(g: seq<Ascii>, keys: KeyMap, csi: CsiMap, k: nat)
    requires g !in csi && |g| >= 2 && !(32 <= g[1] < 127)
    requires LongestCsiPrefix(g, csi, |g| - 1) == Some(k)
    ensures k <= |g|
    ensures ClassifyGroup(g, keys, csi) == Append(Success([Raw(g[..k])]), SplitCharacters(g[k..], keys))
  {
  }

  /** A window made of one escape group of two or more characters is classified as that group. */
  lemma GroupWindow(g: seq<Ascii>, keys: KeyMap, csi: CsiMap)
    requires |g| > 1 && g[0] == ESC
    requires forall j | 1 <= j < |g| :: g[j] != ESC
    ensures ClassifyWindow(g, keys, csi) == ClassifyGroup(g, keys, csi)
  {
    assert IsEscapeGroup(g);
    ParseSingleGroup(g, keys, csi);
  }

  lemma OneLetter(c: Ascii, keys: KeyMap)
    requires 32 < c < 127
    ensures SplitCharacters([c], keys) == Success([Literal(c)])
  {
    var d: seq<Ascii> := [c];
    SplitPrintable(d, keys);
    var r := SplitCharacters(d, keys);
    assert |r.value| == 1 && r.value[0] == Literal(c);
    assert r.value == [Literal(c)];
  }

  lemma TwoLetters(c: Ascii, e: Ascii, keys: KeyMap)
    requires 32 < c < 127 && 32 < e < 127
    ensures SplitCharacters([c, e], keys) == Success([Literal(c), Literal(e)])
  {
    var d: seq<Ascii> := [c, e];
    SplitPrintable(d, keys);
    var r := SplitCharacters(d, keys);
    assert |r.value| == 2 && r.value[0] == Literal(c) && r.value[1] == Literal(e);
    assert r.value == [Literal(c), Literal(e)];
  }

  /** A group that matches nothing in the table gives no event at all. */
  lemma UnmatchedGroupIsDropped(keys: KeyMap, csi: CsiMap)
    requires [ESC, 1] !in csi && [ESC, 1, 65] !in csi
    ensures ClassifyWindow([ESC, 1, 65], keys, csi) == Success([])
  {
    var g: seq<Ascii> := [ESC, 1, 65];
    ParseSingleGroup(g, keys, csi);
    assert g[..2] == [ESC, 1];
  }

  /**
   * An escape sequence split across two poll windows: the lone escape is
   * reported as `ESC` in the first window and the rest as plain characters
   * in the second, because the accumulator does not carry over.
   */
  lemma SplitAcrossWindows(keys: KeyMap, csi: CsiMap)
    requires "ESC" in keys
    ensures RunListener([[ESC], [91, 65]], InputBuffer(true, []), keys, csi).0.items
         == [Control(ControlCode("ESC", keys["ESC"])), Literal(91), Literal(65)]
  {
    ControlTableKeys();
    ControlTableNames();
    var esc := Control(ControlCode("ESC", keys["ESC"]));
    var out := InputBuffer(true, []);
    assert ClassifyWindow([ESC], keys, csi) == Success([esc]);
    var mid := PutAll(out, [esc]);
    assert mid.items == [esc];
    assert RunListener([[ESC], [91, 65]], out, keys, csi) == RunListener([[91, 65]], mid, keys, csi) by {
      assert [[ESC], [91, 65]][1..] == [[91, 65]];
    }
    SplitPrintable([91, 65], keys);
    var split := SplitCharacters([91, 65], keys);
    assert split.value == [Literal(91), Literal(65)];
    assert ClassifyWindow([91, 65], keys, csi) == split;
    assert RunListener([[91, 65]], mid, keys, csi) == RunListener([], PutAll(mid, split.value), keys, csi) by {
      assert [[91, 65]][1..] == [];
    }
    assert PutAll(mid, split.value).items == [esc] + [Literal(91), Literal(65)];
  }
}
