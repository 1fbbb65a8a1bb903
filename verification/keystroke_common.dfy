/**
 * Helper types shared by the keyboard listeners: the table of ASCII control
 * code names, the `ControlCode` record, and `InputBuffer`, the
 * activation-gated queue that carries characters and key events between
 * the listener threads. The lock and the threads are not modelled: every
 * operation is a pure function from one buffer state to the next.
 */
module KeystrokeCommon {
  import opened Wrappers

  /**
   * A character of terminal input. The model covers 7-bit input, for which
   * a character, its code point and its one-byte UTF-8 encoding coincide.
   */
  type Ascii = c: int | 0 <= c < 128

  /** The escape character that starts every escape sequence. */
  const ESC: Ascii := 27

  /** `ASCII_CONTROL_CODES`: code point -> symbolic name. */
  const AsciiControlCodes: map<Ascii, string> := map[
      0 := "NUL", 1 := "SOH", 2 := "STX", 3 := "ETX", 4 := "EOT", 5 := "ENQ",
      6 := "ACK", 7 := "BEL", 8 := "BS", 9 := "TAB", 10 := "LF", 11 := "VT",
      12 := "FF", 13 := "CR", 14 := "SO", 15 := "SI", 16 := "DLE", 17 := "DC1",
      18 := "DC2", 19 := "DC3", 20 := "DC4", 21 := "NAK", 22 := "SYN", 23 := "ETB",
      24 := "CAN", 25 := "EM", 26 := "SUB", 27 := "ESC", 28 := "FS", 29 := "GS",
      30 := "RS", 31 := "US", 32 := "SPACE", 127 := "DEL"
    ]

  /** The table names exactly the codes 0..32 and 127: space counts as a control code. */
  lemma ControlTableKeys()
    ensures forall c: Ascii :: c in AsciiControlCodes <==> c <= 32 || c == 127
  {
  }

  /** Distinct codes have distinct names, and 27 is `ESC`. */
  lemma ControlTableNames()
    ensures AsciiControlCodes[ESC] == "ESC"
    ensures AsciiControlCodes[32] == "SPACE"
    ensures forall a, b | a in AsciiControlCodes && b in AsciiControlCodes && a != b ::
      AsciiControlCodes[a] != AsciiControlCodes[b]
  {
  }

  /**
   * The `Keys` argument of a `ControlCode` constructor: a list of key
   * combinations, or a bare string such as the `'Undefined'` default that
   * the single-character window classification falls back to.
   */
  datatype KeysArg = KeyList(items: seq<string>) | KeyText(text: string)

  /** A named control code and the key combinations that generate it. */
  datatype ControlCode = ControlCode(name: string, keys: seq<string>)

  /** The default `Keys` of the constructor: a list holding one empty string. */
  const DefaultKeys: KeysArg := KeyList([""])

  /**
   * The constructor keeps the name and stores `list(Keys)`: a list is
   * copied as it is, a string is split into its one-character strings.
   */
  function NewControlCode(name: string, keys: KeysArg): (c: ControlCode)
    ensures c.name == name
    ensures keys.KeyList? ==> c.keys == keys.items
    ensures keys.KeyText? ==>
      |c.keys| == |keys.text| && forall i | 0 <= i < |keys.text| :: c.keys[i] == [keys.text[i]]
  {
    match keys
    case KeyList(items) => ControlCode(name, items)
    case KeyText(text) => ControlCode(name, seq(|text|, i requires 0 <= i < |text| => [text[i]]))
  }

  /** The queue state: the activity flag and the stored items, head first. */
  datatype InputBuffer<T> = InputBuffer(isActive: bool, items: seq<T>)

  /** A new buffer is closed and empty. */
  function NewBuffer<T>(): (b: InputBuffer<T>)
    ensures !b.isActive && b.items == []
  {
    InputBuffer(false, [])
  }

  /** `IsNotEmpty`: whether anything is stored, whatever the flag. */
  function IsNotEmpty<T>(b: InputBuffer<T>): (r: bool)
    ensures r <==> |b.items| > 0
  {
    if b.items != [] then true else false
  }

  function Activate<T>(b: InputBuffer<T>): (b': InputBuffer<T>)
    ensures b'.isActive && b'.items == b.items
  {
    b.(isActive := true)
  }

  /** Closing the queue keeps the stored items; they only become unreachable. */
  function Deactivate<T>(b: InputBuffer<T>): (b': InputBuffer<T>)
    ensures !b'.isActive && b'.items == b.items
  {
    b.(isActive := false)
  }

  /** An open queue appends at the tail; a closed one ignores the item. */
  function Put<T>(b: InputBuffer<T>, x: T): (b': InputBuffer<T>)
    ensures b'.isActive == b.isActive
    ensures b.isActive ==> b'.items == b.items + [x]
    ensures !b.isActive ==> b' == b
  {
    if b.isActive then b.(items := b.items + [x]) else b
  }

  /**
   * An open, non-empty queue gives up its head; otherwise the result is
   * `None` and the queue is left as it was.
   */
  function Get<T>(b: InputBuffer<T>): (r: (InputBuffer<T>, Option<T>))
    ensures r.0.isActive == b.isActive
    ensures b.isActive && |b.items| > 0 ==> r.1 == Some(b.items[0]) && r.0.items == b.items[1..]
    ensures !(b.isActive && |b.items| > 0) ==> r.1 == None && r.0 == b
  {
    if IsNotEmpty(b) then
      if b.isActive then (b.(items := b.items[1..]), Some(b.items[0])) else (b, None)
    else
      (b, None)
  }

  /** `empty` clears the contents and keeps the flag. */
  function Empty<T>(b: InputBuffer<T>): (b': InputBuffer<T>)
    ensures b'.isActive == b.isActive && b'.items == []
  {
    b.(items := [])
  }

  /** Both switches are idempotent and leave the contents alone. */
  lemma SwitchesIdempotent<T>(b: InputBuffer<T>)
    ensures Activate(Activate(b)) == Activate(b)
    ensures Deactivate(Deactivate(b)) == Deactivate(b)
    ensures Activate(Deactivate(b)).items == b.items
  {
  }

  /** One call on a queue, as its producer or consumer makes it. */
  datatype Op<T> = PutOp(item: T) | GetOp | ActivateOp | DeactivateOp | EmptyOp

  /** The items handed to `put`, in call order. */
  function Pushed<T>(ops: seq<Op<T>>): (xs: seq<T>)
    ensures |xs| <= |ops|
  {
    if ops == [] then []
    else (if ops[0].PutOp? then [ops[0].item] else []) + Pushed(ops[1..])
  }

  /** The items actually returned by `get`, in call order. */
  function Delivered<T>(outs: seq<Option<T>>): (xs: seq<T>)
    ensures |xs| <= |outs|
  {
    if outs == [] then []
    else (if outs[0].Some? then [outs[0].value] else []) + Delivered(outs[1..])
  }

  /** Only `put` and `get` calls: the flag is never switched. */
  predicate DataOps<T>(ops: seq<Op<T>>) {
    forall i | 0 <= i < |ops| :: ops[i].PutOp? || ops[i].GetOp?
  }

  /** Applies one call; `get` reports its result, the other calls report `None`. */
  function Step<T>(b: InputBuffer<T>, op: Op<T>): (InputBuffer<T>, Option<T>) {
    match op
    case PutOp(x) => (Put(b, x), None)
    case GetOp => Get(b)
    case ActivateOp => (Activate(b), None)
    case DeactivateOp => (Deactivate(b), None)
    case EmptyOp => (Empty(b), None)
  }

  /** Applies a sequence of calls, collecting one result per call. */
  function Run<T>(b: InputBuffer<T>, ops: seq<Op<T>>): (r: (InputBuffer<T>, seq<Option<T>>))
    ensures |r.1| == |ops|
    decreases |ops|
  {
    if ops == [] then (b, [])
    else
      var (b1, out) := Step(b, ops[0]);
      var (b2, outs) := Run(b1, ops[1..]);
      (b2, [out] + outs)
  }

  /** One `put` or `get` on an open queue moves items without loss or reordering. */
  lemma StepFifo<T>(b: InputBuffer<T>, op: Op<T>)
    requires b.isActive && (op.PutOp? || op.GetOp?)
    ensures Step(b, op).0.isActive
    ensures Delivered([Step(b, op).1]) + Step(b, op).0.items == b.items + Pushed([op])
  {
    assert [op][1..] == [];
    var r := Step(b, op);
    assert ([r.1])[1..] == [];
    if op.GetOp? && |b.items| > 0 {
      assert b.items == [b.items[0]] + b.items[1..];
    }
  }

  lemma DataOpsTail<T>(ops: seq<Op<T>>)
    requires ops != [] && DataOps(ops)
    ensures DataOps(ops[1..])
  {
    forall i | 0 <= i < |ops[1..]| ensures ops[1..][i].PutOp? || ops[1..][i].GetOp? {
      assert ops[1..][i] == ops[i + 1];
    }
  }

  lemma DeliveredCons<T>(out: Option<T>, outs: seq<Option<T>>)
    ensures Delivered([out] + outs) == Delivered([out]) + Delivered(outs)
  {
    assert ([out] + outs)[1..] == outs;
    assert [out][1..] == [];
  }

  lemma PushedCons<T>(ops: seq<Op<T>>)
    requires ops != []
    ensures Pushed(ops) == Pushed([ops[0]]) + Pushed(ops[1..])
  {
    assert [ops[0]][1..] == [];
  }

  /** Two FIFO stretches in a row make one: the second starts from what the first left stored. */
  lemma FifoStretches<T>(d1: seq<T>, items1: seq<T>, d2: seq<T>, items2: seq<T>, before: seq<T>, p1: seq<T>, p2: seq<T>)
    requires d1 + items1 == before + p1
    requires d2 + items2 == items1 + p2
    ensures (d1 + d2) + items2 == before + (p1 + p2)
  {
    calc {
      (d1 + d2) + items2;
      d1 + (d2 + items2);
      d1 + (items1 + p2);
      (d1 + items1) + p2;
      (before + p1) + p2;
    }
  }

  /**
   * FIFO while open: under any interleaving of `put` and `get`, what has
   * been returned followed by what is still stored is exactly what was
   * stored before followed by everything put, in order; nothing is lost,
   * duplicated or reordered.
   */
  lemma {:induction false} FifoWhileActive<T>(b: InputBuffer<T>, ops: seq<Op<T>>)
    requires b.isActive && DataOps(ops)
    ensures Run(b, ops).0.isActive
    ensures Delivered(Run(b, ops).1) + Run(b, ops).0.items == b.items + Pushed(ops)
    decreases |ops|
  {
    if ops != [] {
      var first := Step(b, ops[0]);
      var rest := Run(first.0, ops[1..]);
      DataOpsTail(ops);
      StepFifo(b, ops[0]);
      FifoWhileActive(first.0, ops[1..]);
      assert Run(b, ops) == (rest.0, [first.1] + rest.1);
      DeliveredCons(first.1, rest.1);
      PushedCons(ops);
      FifoStretches(Delivered([first.1]), first.0.items, Delivered(rest.1), rest.0.items,
        b.items, Pushed([ops[0]]), Pushed(ops[1..]));
    }
  }

  /**
   * A closed queue is frozen: `put` and `get` change nothing and every
   * `get` returns `None`, even when items are stored.
   */
  lemma {:induction false} FrozenWhileInactive<T>(b: InputBuffer<T>, ops: seq<Op<T>>)
    requires !b.isActive && DataOps(ops)
    ensures Run(b, ops).0 == b
    ensures forall i | 0 <= i < |ops| :: Run(b, ops).1[i] == None
    decreases |ops|
  {
    if ops != [] {
      DataOpsTail(ops);
      FrozenWhileInactive(b, ops[1..]);
    }
  }
}
