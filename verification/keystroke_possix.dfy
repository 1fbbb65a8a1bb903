/**
 * The legacy POSIX keyboard listener. Its decoding loops are written out
 * here as methods, step for step, over the legacy helper types: control
 * codes keep their `Keys` argument verbatim. Each method is shown to
 * produce what the current listener's decoder produces, once a legacy
 * control code is read as a current one (`list(Keys)`).
 */
module KeystrokePossix {
  import opened Wrappers
  import opened KeystrokeCommon
  import A = KeystrokeAbc
  import P = KeystrokePosix
  import opened Seqs

  /** One entry of the legacy decoder's output list. */
  datatype Event =
    | Literal(code: Ascii)
    | Control(control: A.ControlCode)
    | Alt(code: Ascii)
    | Csi(name: string)
    | Raw(bytes: seq<Ascii>)

  type Events = Result<seq<Event>, P.DecodeError>

  /** A legacy event read as a current one: a control code's keys go through `list()`. */
  function UpgradeEvent(e: Event): P.Event {
    match e
    case Literal(c) => P.Literal(c)
    case Control(cc) => P.Control(NewControlCode(cc.name, cc.keys))
    case Alt(c) => P.Alt(c)
    case Csi(n) => P.Csi(n)
    case Raw(bs) => P.Raw(bs)
  }

  function UpgradeAll(es: seq<Event>): (r: seq<P.Event>)
    ensures |r| == |es|
    ensures forall i | 0 <= i < |es| :: r[i] == UpgradeEvent(es[i])
  {
    seq(|es|, i requires 0 <= i < |es| => UpgradeEvent(es[i]))
  }

  function Upgrade(r: Events): P.Events {
    match r
    case Success(es) => Success(UpgradeAll(es))
    case Failure(e) => Failure(e)
  }

  lemma UpgradeAllAppend(a: seq<Event>, b: seq<Event>)
    ensures UpgradeAll(a + b) == UpgradeAll(a) + UpgradeAll(b)
  {
  }

  /** The legacy `SplitCharacters` loop. */
  method SplitCharacters(data: seq<Ascii>, keys: P.KeyMap) returns (r: Events)
    ensures Upgrade(r) == P.SplitCharacters(data, keys)
  {
    A.SameControlTable();
    var result: seq<Event> := [];
    var i := 0;
    while i < |data|
      invariant 0 <= i <= |data|
      invariant forall j | 0 <= j < i :: P.Known(data[j], keys)
      invariant |result| == i
      invariant forall j | 0 <= j < i :: UpgradeEvent(result[j]) == P.CharEvent(data[j], keys)
    {
      var c := data[i];
      if c in A.AsciiControlCodes {
        var name := A.AsciiControlCodes[c];
        if name !in keys {
          assert P.FirstUnknownAt(data, keys, i);
          ghost var expected := P.SplitCharacters(data, keys);
          ghost var k :| P.FirstUnknownAt(data, keys, k) && expected.error == P.MissingKeys(AsciiControlCodes[data[k]]);
          assert k == i;
          return Failure(P.MissingKeys(name));
        }
        result := result + [Control(A.NewControlCode(name, KeyList(keys[name])))];
      } else {
        result := result + [Literal(c)];
      }
      i := i + 1;
    }
    r := Success(result);
    assert UpgradeAll(result) == P.SplitCharacters(data, keys).value;
  }

  /** The classification of one escape group, with the descending prefix loop. */
  method ClassifyGroup(g: seq<Ascii>, keys: P.KeyMap, csi: P.CsiMap) returns (r: Events)
    ensures Upgrade(r) == P.ClassifyGroup(g, keys, csi)
  {
    if g in csi {
      assert UpgradeAll([Csi(csi[g])]) == [P.Csi(csi[g])];
      return Success([Csi(csi[g])]);
    } else if |g| >= 2 {
      if 32 <= g[1] < 127 {
        var result := [Alt(g[1])];
        assert UpgradeAll(result) == [P.Alt(g[1])];
        if |g| > 2 {
          var temp := SplitCharacters(g[2..], keys);
          if temp.Failure? {
            return Failure(temp.error);
          }
          UpgradeAllAppend(result, temp.value);
          result := result + temp.value;
        }
        return Success(result);
      } else {
        var index := |g| - 1;
        while index > 1
          invariant 1 <= index <= |g| - 1
          invariant forall j | index < j <= |g| - 1 :: g[..j] !in csi
        {
          var clipped := g[..index];
          if clipped in csi {
            assert P.LongestCsiPrefix(g, csi, |g| - 1) == Some(index);
            var temp := SplitCharacters(g[index..], keys);
            if temp.Failure? {
              return Failure(temp.error);
            }
            UpgradeAllAppend([Raw(clipped)], temp.value);
            assert UpgradeAll([Raw(clipped)]) == [P.Raw(clipped)];
            return Success([Raw(clipped)] + temp.value);
          }
          index := index - 1;
        }
        assert P.LongestCsiPrefix(g, csi, |g| - 1) == None;
        return Success([]);
      }
    } else {
      if "ESC" !in keys {
        return Failure(P.MissingKeys("ESC"));
      }
      var e := Control(A.NewControlCode("ESC", KeyList(keys["ESC"])));
      assert UpgradeAll([e]) == [P.Control(NewControlCode("ESC", KeyList(keys["ESC"])))];
      return Success([e]);
    }
  }

  /** The grouping loop: cut the text from the first escape character on before every escape. */
  method GroupEscapes(s: seq<Ascii>) returns (groups: seq<seq<Ascii>>)
    requires |s| > 0 && s[0] == ESC
    ensures groups == P.EscapeGroups(s)
  {
    groups := [];
    var start := 0;
    var index := 1;
    while index < |s|
      invariant start < index <= |s|
      invariant s[start] == ESC
      invariant forall j | start < j < index :: s[j] != ESC
      invariant P.AllEscapeGroups(groups)
      invariant P.Concat(groups) == s[..start]
    {
      if s[index] == ESC {
        assert P.Concat(groups + [s[start..index]]) == s[..index] by {
          P.ConcatAppend(groups, [s[start..index]]);
          assert [s[start..index]][1..] == [];
          assert s[..start] + s[start..index] == s[..index];
        }
        GroupsGrow(s, groups, start, index);
        groups := groups + [s[start..index]];
        start := index;
      }
      index := index + 1;
    }
    assert P.Concat(groups + [s[start..]]) == s by {
      P.ConcatAppend(groups, [s[start..]]);
      assert [s[start..]][1..] == [];
      assert s[..start] + s[start..] == s;
    }
    GroupsGrow(s, groups, start, |s|);
    assert s[start..|s|] == s[start..];
    groups := groups + [s[start..]];
    P.EscapeGroupsUnique(s, groups);
  }

  /** A run from an escape character up to, not including, the next one is one more escape group. */
  lemma GroupsGrow(s: seq<Ascii>, groups: seq<seq<Ascii>>, start: nat, end: nat)
    requires start < end <= |s| && s[start] == ESC
    requires forall j | start < j < end :: s[j] != ESC
    requires P.AllEscapeGroups(groups)
    ensures P.AllEscapeGroups(groups + [s[start..end]])
  {
    var g := s[start..end];
    assert P.IsEscapeGroup(g) by {
      forall j | 1 <= j < |g| ensures g[j] != ESC {
        assert g[j] == s[start + j];
      }
    }
    var gs := groups + [g];
    forall i | 0 <= i < |gs| ensures P.IsEscapeGroup(gs[i]) {
      if i < |groups| {
        assert gs[i] == groups[i];
      }
    }
  }

  /**
   * The legacy `ParseEscapeSequence`: scan to the first escape character
   * (running off the end is an `IndexError`), split what precedes it, cut
   * the rest into groups and classify them in order.
   */
  method ParseEscapeSequence(data: seq<Ascii>, keys: P.KeyMap, csi: P.CsiMap) returns (r: Events)
    ensures Upgrade(r) == P.ParseEscapeSequence(data, keys, csi)
  {
    var index := 0;
    while index < |data| && data[index] != ESC
      invariant 0 <= index <= |data|
      invariant forall j | 0 <= j < index :: data[j] != ESC
    {
      index := index + 1;
    }
    if index == |data| {
      return Failure(P.IndexOutOfRange);
    }
    P.NextEscapeUnique(data, 0, index);
    var result: seq<Event> := [];
    if index > 0 {
      var temp := SplitCharacters(data[..index], keys);
      if temp.Failure? {
        return Failure(temp.error);
      }
      result := temp.value;
    }
    ghost var lead := if index > 0 then P.SplitCharacters(data[..index], keys) else Success([]);
    assert lead == Success(UpgradeAll(result));
    var groups := GroupEscapes(data[index..]);
    var rest := ClassifyGroups(groups, keys, csi);
    if rest.Failure? {
      return Failure(rest.error);
    }
    UpgradeAllAppend(result, rest.value);
    return Success(result + rest.value);
  }

  /** The classification loop over the groups, in order; the first exception stops it. */
  method ClassifyGroups(groups: seq<seq<Ascii>>, keys: P.KeyMap, csi: P.CsiMap) returns (r: Events)
    ensures Upgrade(r) == P.ClassifyGroups(groups, keys, csi)
  {
    var result: seq<Event> := [];
    var i := 0;
    assert groups[..0] == [];
    while i < |groups|
      invariant 0 <= i <= |groups|
      invariant P.ClassifyGroups(groups[..i], keys, csi) == Success(UpgradeAll(result))
    {
      var temp := ClassifyGroup(groups[i], keys, csi);
      GroupsLoopStep(groups, i, keys, csi, result, temp);
      if temp.Failure? {
        return Failure(temp.error);
      }
      result := result + temp.value;
      i := i + 1;
    }
    assert groups[..i] == groups;
    return Success(result);
  }

  /** One turn of the loop: a failing group ends the run with its error, any other extends it. */
  lemma GroupsLoopStep(groups: seq<seq<Ascii>>, i: nat, keys: P.KeyMap, csi: P.CsiMap, result: seq<Event>, temp: Events)
    requires i < |groups|
    requires P.ClassifyGroups(groups[..i], keys, csi) == Success(UpgradeAll(result))
    requires Upgrade(temp) == P.ClassifyGroup(groups[i], keys, csi)
    ensures temp.Failure? ==> P.ClassifyGroups(groups, keys, csi) == Failure(temp.error)
    ensures temp.Success? ==> P.ClassifyGroups(groups[..i + 1], keys, csi) == Success(UpgradeAll(result + temp.value))
  {
    if temp.Failure? {
      GroupsStop(groups, i, keys, csi);
    } else {
      GroupsStep(groups, i, keys, csi);
      UpgradeAllAppend(result, temp.value);
    }
  }

  /** A run whose first part fails is that failure. */
  lemma FailureLeads(whole: P.Events, front: P.Events, back: P.Events)
    requires front.Failure? && whole == P.Append(front, back)
    ensures whole == front
  {
  }

  lemma ClassifyGroupsSplit(groups: seq<seq<Ascii>>, k: nat, keys: P.KeyMap, csi: P.CsiMap)
    requires k <= |groups|
    ensures P.ClassifyGroups(groups, keys, csi) == P.Append(P.ClassifyGroups(groups[..k], keys, csi), P.ClassifyGroups(groups[k..], keys, csi))
  {
    CutRejoins(groups, k);
    P.ClassifyGroupsAppend(groups[..k], groups[k..], keys, csi);
  }

  lemma GroupsStep(groups: seq<seq<Ascii>>, i: nat, keys: P.KeyMap, csi: P.CsiMap)
    requires i < |groups|
    ensures P.ClassifyGroups(groups[..i + 1], keys, csi)
         == P.Append(P.ClassifyGroups(groups[..i], keys, csi), P.ClassifyGroup(groups[i], keys, csi))
  {
    P.ClassifyGroupsAppend(groups[..i], [groups[i]], keys, csi);
    assert groups[..i + 1] == groups[..i] + [groups[i]];
    var single: seq<seq<Ascii>> := [groups[i]];
    assert single[1..] == [];
    P.AppendUnit(P.ClassifyGroup(groups[i], keys, csi));
  }

  lemma GroupsStop(groups: seq<seq<Ascii>>, i: nat, keys: P.KeyMap, csi: P.CsiMap)
    requires i < |groups|
    requires P.ClassifyGroups(groups[..i], keys, csi).Success?
    requires P.ClassifyGroup(groups[i], keys, csi).Failure?
    ensures P.ClassifyGroups(groups, keys, csi) == P.ClassifyGroup(groups[i], keys, csi)
  {
    var front := groups[..i + 1];
    var back := groups[i + 1..];
    var bad := P.ClassifyGroup(groups[i], keys, csi);
    assert P.ClassifyGroups(front, keys, csi) == bad by {
      GroupsStep(groups, i, keys, csi);
    }
    ClassifyGroupsSplit(groups, i + 1, keys, csi);
    FailureLeads(P.ClassifyGroups(groups, keys, csi), bad, P.ClassifyGroups(back, keys, csi));
  }

  /**
   * The legacy window classification. A single character is looked up
   * when `Code <= 32 or Code == 127`; its control code keeps the keys
   * verbatim, including the bare string `'Undefined'`.
   */
  method ClassifyWindow(input: seq<Ascii>, keys: P.KeyMap, csi: P.CsiMap) returns (r: Events)
    ensures Upgrade(r) == P.ClassifyWindow(input, keys, csi)
    ensures |input| == 1 && input[0] in AsciiControlCodes && AsciiControlCodes[input[0]] !in keys ==>
      r == Success([Control(A.ControlCode(AsciiControlCodes[input[0]], KeyText("Undefined")))])
  {
    A.SameControlTable();
    A.RangeTestSelectsTableKeys();
    if input == [] {
      return Success([]);
    }
    if |input| == 1 {
      var code := input[0];
      if code <= 32 || code == 127 {
        var name := A.AsciiControlCodes[code];
        var k := if name in keys then KeyList(keys[name]) else KeyText("Undefined");
        assert k == P.WindowKeys(name, keys);
        var e := Control(A.NewControlCode(name, k));
        assert UpgradeAll([e]) == [P.Control(NewControlCode(name, P.WindowKeys(name, keys)))];
        return Success([e]);
      }
      assert UpgradeAll([Literal(code)]) == [P.Literal(code)];
      return Success([Literal(code)]);
    }
    if ESC in input {
      r := ParseEscapeSequence(input, keys, csi);
    } else {
      r := SplitCharacters(input, keys);
    }
  }

  /** `Buffer.put` of every entry, in list order; the legacy `put` ignores the flag. */
  method PutAll(b: A.InputBuffer<Event>, events: seq<Event>) returns (b': A.InputBuffer<Event>)
    ensures b'.isActive == b.isActive && b'.items == b.items + events
  {
    b' := b;
    var j := 0;
    while j < |events|
      invariant 0 <= j <= |events|
      invariant b'.isActive == b.isActive
      invariant b'.items == b.items + events[..j]
    {
      b' := A.Put(b', events[j]);
      assert events[..j + 1] == events[..j] + [events[j]];
      j := j + 1;
    }
    assert events[..j] == events;
  }

  /** Cutting a run of windows anywhere cuts its events there. */
  lemma WindowsEventsSplit(windows: seq<seq<Ascii>>, k: nat, keys: P.KeyMap, csi: P.CsiMap)
    requires k <= |windows|
    ensures P.WindowsEvents(windows, keys, csi) == P.Append(P.WindowsEvents(windows[..k], keys, csi), P.WindowsEvents(windows[k..], keys, csi))
  {
    CutRejoins(windows, k);
    P.WindowsEventsAppend(windows[..k], windows[k..], keys, csi);
  }

  /** The events of the first `i + 1` windows are those of the first `i` followed by window `i`'s. */
  lemma WindowsEventsStep(windows: seq<seq<Ascii>>, i: nat, keys: P.KeyMap, csi: P.CsiMap)
    requires i < |windows|
    ensures P.WindowsEvents(windows[..i + 1], keys, csi)
         == P.Append(P.WindowsEvents(windows[..i], keys, csi), P.ClassifyWindow(windows[i], keys, csi))
  {
    P.WindowsEventsAppend(windows[..i], [windows[i]], keys, csi);
    assert windows[..i + 1] == windows[..i] + [windows[i]];
    var single: seq<seq<Ascii>> := [windows[i]];
    assert single[1..] == [];
    P.AppendUnit(P.ClassifyWindow(windows[i], keys, csi));
  }

  /** A failing window makes the whole run fail with its error, when the windows before it succeed. */
  lemma WindowsEventsStop(windows: seq<seq<Ascii>>, i: nat, keys: P.KeyMap, csi: P.CsiMap)
    requires i < |windows|
    requires P.WindowsEvents(windows[..i], keys, csi).Success?
    requires P.ClassifyWindow(windows[i], keys, csi).Failure?
    ensures P.WindowsEvents(windows, keys, csi) == P.ClassifyWindow(windows[i], keys, csi)
  {
    var front := windows[..i + 1];
    var back := windows[i + 1..];
    var bad := P.ClassifyWindow(windows[i], keys, csi);
    assert P.WindowsEvents(front, keys, csi) == bad by {
      WindowsEventsStep(windows, i, keys, csi);
    }
    WindowsEventsSplit(windows, i + 1, keys, csi);
    FailureLeads(P.WindowsEvents(windows, keys, csi), bad, P.WindowsEvents(back, keys, csi));
  }

  /** Putting a window's events extends what has been delivered so far by their upgrade. */
  /**
   * The loop stopping at window `i`: that window's error is the error of
   * the whole run, and the queue holds the events of the windows before it.
   */
  lemma StopsAtWindow(windows: seq<seq<Ascii>>, i: nat, keys: P.KeyMap, csi: P.CsiMap,
                      initial: seq<Event>, current: seq<Event>)
    requires i < |windows|
    requires P.WindowsEvents(windows[..i], keys, csi).Success?
    requires P.ClassifyWindow(windows[i], keys, csi).Failure?
    requires UpgradeAll(current) == UpgradeAll(initial) + P.WindowsEvents(windows[..i], keys, csi).value
    ensures P.WindowsEvents(windows, keys, csi) == P.ClassifyWindow(windows[i], keys, csi)
    ensures exists k | 0 <= k < |windows| ::
      && P.WindowsEvents(windows[..k], keys, csi).Success?
      && P.ClassifyWindow(windows[k], keys, csi).Failure?
      && UpgradeAll(current) == UpgradeAll(initial) + P.WindowsEvents(windows[..k], keys, csi).value
  {
    WindowsEventsStop(windows, i, keys, csi);
  }

  lemma PutUpgraded(initial: seq<Event>, before: seq<Event>, events: seq<Event>, prior: seq<P.Event>)
    requires UpgradeAll(before) == UpgradeAll(initial) + prior
    ensures UpgradeAll(before + events) == UpgradeAll(initial) + (prior + UpgradeAll(events))
  {
    UpgradeAllAppend(before, events);
  }

  /**
   * The legacy listener's decoding loop over the windows it drains: each
   * window's events are put into the output queue in order, and the first
   * exception stops it. The queue is open while the loop runs.
   */
  method Listen(windows: seq<seq<Ascii>>, out: A.InputBuffer<Event>, keys: P.KeyMap, csi: P.CsiMap)
    returns (out': A.InputBuffer<Event>, error: Option<P.DecodeError>)
    requires out.isActive
    ensures out'.isActive
    ensures var all := P.WindowsEvents(windows, keys, csi);
      && (all.Success? ==> error == None && UpgradeAll(out'.items) == UpgradeAll(out.items) + all.value)
      && (all.Failure? ==> error == Some(all.error))
    ensures out.items <= out'.items
    ensures var all := P.WindowsEvents(windows, keys, csi);
      all.Failure? ==> exists k | 0 <= k < |windows| ::
        && P.WindowsEvents(windows[..k], keys, csi).Success?
        && P.ClassifyWindow(windows[k], keys, csi).Failure?
        && UpgradeAll(out'.items) == UpgradeAll(out.items) + P.WindowsEvents(windows[..k], keys, csi).value
  {
    out' := out;
    var i := 0;
    assert windows[..0] == [];
    while i < |windows|
      invariant 0 <= i <= |windows|
      invariant out'.isActive
      invariant P.WindowsEvents(windows[..i], keys, csi).Success?
      invariant UpgradeAll(out'.items) == UpgradeAll(out.items) + P.WindowsEvents(windows[..i], keys, csi).value
      invariant out.items <= out'.items
    {
      WindowsEventsStep(windows, i, keys, csi);
      var events := ClassifyWindow(windows[i], keys, csi);
      if events.Failure? {
        StopsAtWindow(windows, i, keys, csi, out.items, out'.items);
        return out', Some(events.error);
      }
      ghost var before := out'.items;
      out' := PutAll(out', events.value);
      PutUpgraded(out.items, before, events.value, P.WindowsEvents(windows[..i], keys, csi).value);
      i := i + 1;
    }
    assert windows[..i] == windows;
    return out', None;
  }

  /**
   * Draining the legacy raw queue: its `get` ignores the flag, so the
   * loop collects everything stored, in order, whether the queue is open
   * or not.
   */
  method Drain(inBuffer: A.InputBuffer<Ascii>) returns (drained: A.InputBuffer<Ascii>, input: seq<Ascii>)
    ensures input == inBuffer.items
    ensures drained.isActive == inBuffer.isActive && drained.items == []
  {
    drained := inBuffer;
    input := [];
    while IsNotEmpty(drained)
      invariant drained.isActive == inBuffer.isActive
      invariant input + drained.items == inBuffer.items
      decreases |drained.items|
    {
      var got := A.Get(drained);
      drained := got.0;
      input := input + [got.1.value];
    }
  }
}
