/**
 * The older helper module used by the legacy POSIX listener: its own copy
 * of the control code table, a `ControlCode` that stores its arguments
 * verbatim, and an `InputBuffer` whose `put` and `get` ignore the
 * activity flag.
 */
module KeystrokeAbc {
  import opened Wrappers
  import C = KeystrokeCommon

  /** The legacy `ASCII_CONTROL_CODES`, written out again. */
  const AsciiControlCodes: map<C.Ascii, string> := map[
      0 := "NUL", 1 := "SOH", 2 := "STX", 3 := "ETX", 4 := "EOT", 5 := "ENQ",
      6 := "ACK", 7 := "BEL", 8 := "BS", 9 := "TAB", 10 := "LF", 11 := "VT",
      12 := "FF", 13 := "CR", 14 := "SO", 15 := "SI", 16 := "DLE", 17 := "DC1",
      18 := "DC2", 19 := "DC3", 20 := "DC4", 21 := "NAK", 22 := "SYN", 23 := "ETB",
      24 := "CAN", 25 := "EM", 26 := "SUB", 27 := "ESC", 28 := "FS", 29 := "GS",
      30 := "RS", 31 := "US", 32 := "SPACE", 127 := "DEL"
    ]

  /** The legacy table is the same table as the current one. */
  lemma SameControlTable()
    ensures AsciiControlCodes == C.AsciiControlCodes
  {
  }

  /**
   * The legacy listener tests `Code <= 32 or Code == 127` before looking a
   * single character up; that test selects exactly the keys of the table,
   * so the lookup never fails.
   */
  lemma RangeTestSelectsTableKeys()
    ensures forall c: C.Ascii :: (c <= 32 || c == 127) <==> c in AsciiControlCodes
  {
  }

  /** A control code that keeps whatever `Keys` it was given. */
  datatype ControlCode = ControlCode(name: string, keys: C.KeysArg)

  /** The legacy default `Keys` is the bare string `'Undefined'`. */
  const DefaultKeys: C.KeysArg := C.KeyText("Undefined")

  /** The legacy constructor stores both arguments unchanged. */
  function NewControlCode(name: string, keys: C.KeysArg): (c: ControlCode)
    ensures c.name == name && c.keys == keys
  {
    ControlCode(name, keys)
  }

  /**
   * Where the two constructors differ: given a list both keep it, but the
   * current one spells the default string `'Undefined'` out as a list of
   * nine one-character strings while the legacy one keeps the string.
   */
  lemma ConstructorsCompared(name: string, ks: seq<string>)
    ensures C.NewControlCode(name, C.KeyList(ks)).keys == ks
    ensures NewControlCode(name, C.KeyList(ks)).keys == C.KeyList(ks)
    ensures C.NewControlCode(name, DefaultKeys).keys == ["U", "n", "d", "e", "f", "i", "n", "e", "d"]
    ensures NewControlCode(name, DefaultKeys).keys == C.KeyText("Undefined")
  {
    var c := C.NewControlCode(name, DefaultKeys);
    assert |c.keys| == 9;
    assert c.keys[0] == ['U'] && c.keys[1] == ['n'] && c.keys[2] == ['d'];
    assert c.keys[3] == ['e'] && c.keys[4] == ['f'] && c.keys[5] == ['i'];
    assert c.keys[6] == ['n'] && c.keys[7] == ['e'] && c.keys[8] == ['d'];
  }

  /**
   * The legacy queue has the same state as the current one, and its
   * constructor, `IsNotEmpty`, `activate`, `deactivate` and `empty` are the
   * current ones (`KeystrokeCommon.NewBuffer` and so on); only `put` and
   * `get` differ.
   */
  type InputBuffer<T> = C.InputBuffer<T>

  /** The legacy `put` appends whatever the flag says. */
  function Put<T>(b: InputBuffer<T>, x: T): (b': InputBuffer<T>)
    ensures b'.isActive == b.isActive && b'.items == b.items + [x]
  {
    b.(items := b.items + [x])
  }

  /** The legacy `get` pops the head of any non-empty queue, open or closed. */
  function Get<T>(b: InputBuffer<T>): (r: (InputBuffer<T>, Option<T>))
    ensures r.0.isActive == b.isActive
    ensures |b.items| > 0 ==> r.1 == Some(b.items[0]) && r.0.items == b.items[1..]
    ensures |b.items| == 0 ==> r.1 == None && r.0 == b
  {
    if C.IsNotEmpty(b) then (b.(items := b.items[1..]), Some(b.items[0])) else (b, None)
  }

  function Step<T>(b: InputBuffer<T>, op: C.Op<T>): (InputBuffer<T>, Option<T>) {
    match op
    case PutOp(x) => (Put(b, x), None)
    case GetOp => Get(b)
    case ActivateOp => (C.Activate(b), None)
    case DeactivateOp => (C.Deactivate(b), None)
    case EmptyOp => (C.Empty(b), None)
  }

  function Run<T>(b: InputBuffer<T>, ops: seq<C.Op<T>>): (r: (InputBuffer<T>, seq<Option<T>>))
    ensures |r.1| == |ops|
    decreases |ops|
  {
    if ops == [] then (b, [])
    else
      var first := Step(b, ops[0]);
      var rest := Run(first.0, ops[1..]);
      (rest.0, [first.1] + rest.1)
  }

  /**
   * While the flag is up, the legacy queue and the current one behave
   * identically under any sequence of `put` and `get` calls.
   */
  lemma {:induction false} AgreesWhileActive<T>(b: InputBuffer<T>, ops: seq<C.Op<T>>)
    requires b.isActive && C.DataOps(ops)
    ensures Run(b, ops) == C.Run(b, ops)
    decreases |ops|
  {
    if ops != [] {
      C.DataOpsTail(ops);
      var first := Step(b, ops[0]);
      assert first == C.Step(b, ops[0]);
      AgreesWhileActive(first.0, ops[1..]);
    }
  }

  /**
   * Where they part: on a closed queue holding an item, the legacy `get`
   * still returns it and the legacy `put` still stores, while the current
   * queue refuses both.
   */
  lemma DiffersWhileInactive<T>(x: T, y: T)
    ensures Get(C.InputBuffer(false, [x])).1 == Some(x)
    ensures C.Get(C.InputBuffer(false, [x])).1 == None
    ensures Put(C.InputBuffer(false, [x]), y).items == [x, y]
    ensures C.Put(C.InputBuffer(false, [x]), y).items == [x]
  {
  }

  /** One legacy `put` or `get` moves items without loss or reordering, open or closed. */
  lemma StepFifo<T>(b: InputBuffer<T>, op: C.Op<T>)
    requires op.PutOp? || op.GetOp?
    ensures Step(b, op).0.isActive == b.isActive
    ensures C.Delivered([Step(b, op).1]) + Step(b, op).0.items == b.items + C.Pushed([op])
  {
    assert [op][1..] == [];
    var r := Step(b, op);
    assert ([r.1])[1..] == [];
    if op.GetOp? && |b.items| > 0 {
      assert b.items == [b.items[0]] + b.items[1..];
    }
  }

  /** The legacy queue is FIFO under any interleaving of `put` and `get`, whatever the flag. */
  lemma {:induction false} FifoRegardlessOfFlag<T>(b: InputBuffer<T>, ops: seq<C.Op<T>>)
    requires C.DataOps(ops)
    ensures Run(b, ops).0.isActive == b.isActive
    ensures C.Delivered(Run(b, ops).1) + Run(b, ops).0.items == b.items + C.Pushed(ops)
    decreases |ops|
  {
    if ops != [] {
      var first := Step(b, ops[0]);
      var rest := Run(first.0, ops[1..]);
      C.DataOpsTail(ops);
      StepFifo(b, ops[0]);
      FifoRegardlessOfFlag(first.0, ops[1..]);
      assert Run(b, ops) == (rest.0, [first.1] + rest.1);
      C.DeliveredCons(first.1, rest.1);
      C.PushedCons(ops);
      C.FifoStretches(C.Delivered([first.1]), first.0.items, C.Delivered(rest.1), rest.0.items,
        b.items, C.Pushed([ops[0]]), C.Pushed(ops[1..]));
    }
  }
}
