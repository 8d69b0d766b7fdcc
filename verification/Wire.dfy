/** The grammar of transactions: every value as written, with the form of
    each CompactSize integer kept, and the format that reads it. */
module Wire {
  import opened Bytes
  import opened Types
  import opened Formats
  import opened Primitives

  const MAX_IO_COUNT := 100_000
  const MAX_WITNESS_ITEMS := 500
  const MAX_WITNESS_ITEM_SIZE := 520
  const MAX_SCRIPT_SIZE := 10_000
  const MAX_BLOCK_TXN := 1_000_000
  const HEADER_SIZE := 80

  // ---------------------------------------------------------------- inputs

  datatype RawInput = RawInput(txid: seq<Byte>, vout: nat, script: VarBytes, sequence: nat)

  function EncodeInput(v: RawInput): seq<Byte> {
    v.txid + LE(4, v.vout) + EncodeVarBytes(v.script) + LE(4, v.sequence)
  }

  predicate InputOk(v: RawInput) {
    |v.txid| == 32 && v.vout <= 0xFFFF_FFFF && VarBytesOk(MAX_SCRIPT_SIZE, v.script) && v.sequence <= 0xFFFF_FFFF
  }

  /** What the callback receives for an input written at offset `b`. */
  function InputView(b: nat, v: RawInput): TxInput {
    TxInput(
      OutPoint(Slice(b, v.txid), v.vout),
      Slice(b + 36 + |EncodeCompact(v.script.len)|, v.script.bytes),
      v.sequence)
  }

  function InputEvents(b: nat, v: RawInput): seq<Event> {
    [OnInput(InputView(b, v))]
  }

  function OutPointFormat(): Format<(seq<Byte>, nat)> {
    Pair(Raw(32), Num(4))
  }

  function ScriptFormat(w: Word): Format<VarBytes> {
    VarBytesFormat(w, MAX_SCRIPT_SIZE)
  }

  function ToInput(p: ((seq<Byte>, nat), (VarBytes, nat))): RawInput {
    RawInput(p.0.0, p.0.1, p.1.0, p.1.1)
  }

  function OfInput(v: RawInput): ((seq<Byte>, nat), (VarBytes, nat)) {
    ((v.txid, v.vout), (v.script, v.sequence))
  }

  function InputShape(w: Word): Format<RawInput> {
    Map(Pair(OutPointFormat(), Pair(ScriptFormat(w), Num(4))), ToInput, OfInput, InputEvents)
  }

  function InputFormat(w: Word): Format<RawInput> {
    Format(InputShape(w).parse, EncodeInput, InputOk, InputEvents)
  }

  lemma LawfulInput(w: Word)
    ensures Lawful(InputFormat(w))
  {
    Powers();
    LawfulRaw(32);
    LawfulNum(4);
    LawfulPair(Raw(32), Num(4));
    LawfulVarBytes(w, MAX_SCRIPT_SIZE);
    LawfulPair(ScriptFormat(w), Num(4));
    LawfulPair(OutPointFormat(), Pair(ScriptFormat(w), Num(4)));
    LawfulMap(Pair(OutPointFormat(), Pair(ScriptFormat(w), Num(4))), ToInput, OfInput, InputEvents);
    forall b: nat, v: RawInput ensures SameGrammar(InputShape(w), InputFormat(w), b, v) {
      var x, y, z, u := v.txid, LE(4, v.vout), EncodeVarBytes(v.script), LE(4, v.sequence);
      assert (x + y) + (z + u) == x + y + z + u;
    }
    LawfulRestated(InputShape(w), InputFormat(w));
  }

  // --------------------------------------------------------------- outputs

  datatype RawOutput = RawOutput(value: nat, script: VarBytes)

  function EncodeOutput(v: RawOutput): seq<Byte> {
    LE(8, v.value) + EncodeVarBytes(v.script)
  }

  predicate OutputOk(v: RawOutput) {
    v.value <= 0xFFFF_FFFF_FFFF_FFFF && VarBytesOk(MAX_SCRIPT_SIZE, v.script)
  }

  /** What the callback receives for an output written at offset `b`. */
  function OutputView(b: nat, v: RawOutput): TxOutput {
    TxOutput(v.value, Slice(b + 8 + |EncodeCompact(v.script.len)|, v.script.bytes))
  }

  function OutputEvents(b: nat, v: RawOutput): seq<Event> {
    [OnOutput(OutputView(b, v))]
  }

  function ToOutput(p: (nat, VarBytes)): RawOutput { RawOutput(p.0, p.1) }

  function OfOutput(v: RawOutput): (nat, VarBytes) { (v.value, v.script) }

  function OutputShape(w: Word): Format<RawOutput> {
    Map(Pair(Num(8), ScriptFormat(w)), ToOutput, OfOutput, OutputEvents)
  }

  function OutputFormat(w: Word): Format<RawOutput> {
    Format(OutputShape(w).parse, EncodeOutput, OutputOk, OutputEvents)
  }

  lemma LawfulOutput(w: Word)
    ensures Lawful(OutputFormat(w))
  {
    Powers();
    LawfulNum(8);
    LawfulVarBytes(w, MAX_SCRIPT_SIZE);
    LawfulPair(Num(8), ScriptFormat(w));
    LawfulMap(Pair(Num(8), ScriptFormat(w)), ToOutput, OfOutput, OutputEvents);
    assert forall b: nat, v: RawOutput :: SameGrammar(OutputShape(w), OutputFormat(w), b, v);
    LawfulRestated(OutputShape(w), OutputFormat(w));
  }

  // ------------------------------------------------------------- witnesses

  datatype RawWitness = RawWitness(count: Compact, items: seq<VarBytes>)

  function EncodeWitness(v: RawWitness): seq<Byte> {
    EncodeCompact(v.count) + EncodeAll(EncodeVarBytes, v.items)
  }

  predicate WitnessItemOk(v: VarBytes) {
    VarBytesOk(MAX_WITNESS_ITEM_SIZE, v)
  }

  predicate WitnessOk(v: RawWitness) {
    CompactOk(v.count) && v.count.value == |v.items| <= MAX_WITNESS_ITEMS && AllOk(WitnessItemOk, v.items)
  }

  function WitnessItemFormat(w: Word): Format<VarBytes> {
    VarBytesFormat(w, MAX_WITNESS_ITEM_SIZE)
  }

  function ToWitness(p: (Compact, seq<VarBytes>)): RawWitness { RawWitness(p.0, p.1) }

  function OfWitness(v: RawWitness): (Compact, seq<VarBytes>) { (v.count, v.items) }

  function CountValue(): Compact -> nat { (c: Compact) => c.value }

  function WitnessBody(w: Word): Format<(Compact, seq<VarBytes>)> {
    Listed(Capped(w, MAX_WITNESS_ITEMS), CountValue(), WitnessItemFormat(w))
  }

  function WitnessShape(w: Word): Format<RawWitness> {
    Map(WitnessBody(w), ToWitness, OfWitness, Silent())
  }

  function WitnessFormat(w: Word): Format<RawWitness> {
    Format(WitnessShape(w).parse, EncodeWitness, WitnessOk, Silent())
  }

  lemma {:induction false} NoEvents<T(!new)>(f: Format<T>, b: nat, items: seq<T>)
    requires forall b: nat, v: T :: f.events(b, v) == []
    ensures EventsOfAll(f, b, items) == []
    decreases items
  {
    if items != [] {
      NoEvents(f, b + |f.encode(items[0])|, items[1..]);
    }
  }

  lemma WitnessGrammar(w: Word, b: nat, v: RawWitness)
    ensures SameGrammar(WitnessShape(w), WitnessFormat(w), b, v)
  {
    hide EventsOfAll, EncodeAll;
    NoEvents(WitnessItemFormat(w), b + |EncodeCompact(v.count)|, v.items);
    MapGrammar(WitnessBody(w), ToWitness, OfWitness, b, v);
    ListedGrammar(Capped(w, MAX_WITNESS_ITEMS), CountValue(), WitnessItemFormat(w), b, v.count, v.items);
  }

  lemma LawfulWitness(w: Word)
    ensures Lawful(WitnessFormat(w))
  {
    hide EventsOfAll, EncodeAll;
    LawfulCapped(w, MAX_WITNESS_ITEMS);
    LawfulVarBytes(w, MAX_WITNESS_ITEM_SIZE);
    LawfulListed(Capped(w, MAX_WITNESS_ITEMS), CountValue(), WitnessItemFormat(w));
    LawfulMap(WitnessBody(w), ToWitness, OfWitness, Silent());
    forall b: nat, v: RawWitness ensures SameGrammar(WitnessShape(w), WitnessFormat(w), b, v) {
      WitnessGrammar(w, b, v);
    }
    LawfulRestated(WitnessShape(w), WitnessFormat(w));
  }

  // ---------------------------------------------------------- transactions

  /** The marker, flag and input count: BIP 144 puts 0x00 0x01 before the count of a SegWit transaction. */
  datatype TxHead = TxHead(segwit: bool, count: Compact)

  /** `try_into::<usize>`, the rejection of zero, and the cap. */
  function InputCountCheck(w: Word): Compact -> Option<ParseError> {
    (c: Compact) =>
      if c.value > w then Some(IntegerTooLarge(c.value))
      else if c.value == 0 then Some(InvalidInputCount)
      else if c.value > MAX_IO_COUNT then Some(OversizedData(c.value, MAX_IO_COUNT))
      else None
  }

  function InputCount(w: Word): Format<Compact> {
    Checked(CompactFormat(), InputCountCheck(w))
  }

  function HeadParse(w: Word, sl: Slice): Parsed<TxHead> {
    var s := sl.bytes;
    if s == [] then Bad(UnexpectedEof(1, 0), 0, [])
    else if s[0] == 0 then
      if |s| == 1 then Bad(UnexpectedEof(1, 0), 1, [])
      else if s[1] != 1 then Bad(InvalidSegwitFlag(s[1]), 2, [])
      else
        match InputCount(w).parse(After(sl, 2))
        case Bad(e, u, _) => Bad(e, 2 + u, [])
        case Good(c, u, _) => Good(TxHead(true, c), 2 + u, [])
    else
      match InputCount(w).parse(sl)
      case Bad(e, u, _) => Bad(e, u, [])
      case Good(c, u, _) => Good(TxHead(false, c), u, [])
  }

  function EncodeHead(h: TxHead): seq<Byte> {
    (if h.segwit then [0, 1] else []) + EncodeCompact(h.count)
  }

  predicate HeadOk(h: TxHead) {
    CompactOk(h.count) && 1 <= h.count.value <= MAX_IO_COUNT
  }

  function HeadFormat(w: Word): Format<TxHead> {
    Format((sl: Slice) => HeadParse(w, sl), EncodeHead, HeadOk, Silent())
  }

  lemma HeadSound(w: Word, sl: Slice)
    requires Lawful(InputCount(w))
    ensures SoundAt(HeadFormat(w), sl)
  {
    var f, s := InputCount(w), sl.bytes;
    if |s| >= 2 && s[0] == 0 && s[1] == 1 {
      var p := f.parse(After(sl, 2));
      assert SoundAt(f, After(sl, 2));
      if p.Good? {
        assert s[..2 + p.used] == [0, 1] + s[2..][..p.used];
      }
    } else if s != [] && s[0] != 0 {
      assert SoundAt(f, sl);
    }
  }

  lemma HeadComplete(w: Word, b: nat, v: TxHead, rest: seq<Byte>)
    requires Lawful(InputCount(w)) && HeadOk(v)
    ensures CompleteAt(HeadFormat(w), b, v, rest)
  {
    hide CompactParse, LE, FromLE;
    var x := EncodeCompact(v.count);
    if v.segwit {
      assert ([0, 1] + x + rest)[2..] == x + rest;
      assert CompleteAt(InputCount(w), b + 2, v.count, rest);
    } else {
      assert [] + x + rest == x + rest;
      assert CompleteAt(InputCount(w), b, v.count, rest);
    }
  }

  lemma HeadCut(w: Word, b: nat, v: TxHead, k: nat)
    requires Lawful(InputCount(w)) && HeadOk(v) && k < |EncodeHead(v)|
    ensures CutAt(HeadFormat(w), b, v, k)
  {
    hide CompactParse, LE, FromLE;
    var x := EncodeCompact(v.count);
    var s := EncodeHead(v)[..k];
    if v.segwit && k >= 2 {
      assert s[2..] == x[..k - 2];
      assert CutAt(InputCount(w), b + 2, v.count, k - 2);
    } else if !v.segwit {
      assert s == x[..k];
      assert CutAt(InputCount(w), b, v.count, k);
    }
  }

  lemma LawfulHead(w: Word)
    ensures Lawful(HeadFormat(w))
  {
    var h := HeadFormat(w);
    LawfulCompact();
    LawfulChecked(CompactFormat(), InputCountCheck(w));
    forall sl: Slice ensures SoundAt(h, sl) {
      HeadSound(w, sl);
    }
    forall b: nat, v: TxHead, rest: seq<Byte> ensures CompleteAt(h, b, v, rest) {
      if h.ok(v) {
        HeadComplete(w, b, v, rest);
      }
    }
    forall b: nat, v: TxHead, k: nat ensures CutAt(h, b, v, k) {
      if h.ok(v) && k < |EncodeHead(v)| {
        HeadCut(w, b, v, k);
      }
    }
  }

  // From the witnesses on.

  datatype TxEnd = TxEnd(witnesses: seq<RawWitness>, locktime: nat)

  function EncodeEnd(v: TxEnd): seq<Byte> {
    EncodeAll(EncodeWitness, v.witnesses) + LE(4, v.locktime)
  }

  predicate EndOk(n: nat, v: TxEnd) {
    |v.witnesses| == n && AllOk(WitnessOk, v.witnesses) && v.locktime <= 0xFFFF_FFFF
  }

  function ToEnd(p: (seq<RawWitness>, nat)): TxEnd { TxEnd(p.0, p.1) }

  function OfEnd(v: TxEnd): (seq<RawWitness>, nat) { (v.witnesses, v.locktime) }

  /** Witnesses are read through sub-cursors, one for each of `n` inputs. */
  function EndShape(w: Word, n: nat): Format<TxEnd> {
    Map(Pair(Many(Atomic(WitnessFormat(w)), n), Num(4)), ToEnd, OfEnd, Silent())
  }

  function EndFormat(w: Word, n: nat): Format<TxEnd> {
    Format(EndShape(w, n).parse, EncodeEnd, (v: TxEnd) => EndOk(n, v), Silent())
  }

  lemma LawfulEnd(w: Word, n: nat)
    ensures Lawful(EndFormat(w, n))
  {
    var wits := Many(Atomic(WitnessFormat(w)), n);
    hide EncodeAll;
    Powers();
    LawfulNum(4);
    LawfulWitness(w);
    LawfulAtomic(WitnessFormat(w));
    LawfulMany(Atomic(WitnessFormat(w)), n);
    LawfulPair(wits, Num(4));
    LawfulMap(Pair(wits, Num(4)), ToEnd, OfEnd, Silent());
    forall b: nat, v: TxEnd ensures SameGrammar(EndShape(w, n), EndFormat(w, n), b, v) {
      NoEvents(Atomic(WitnessFormat(w)), b, v.witnesses);
    }
    LawfulRestated(EndShape(w, n), EndFormat(w, n));
  }

  // From the output count on.

  datatype TxOuts = TxOuts(count: Compact, outputs: seq<RawOutput>, end: TxEnd)

  function EncodeOuts(v: TxOuts): seq<Byte> {
    EncodeCompact(v.count) + (EncodeAll(EncodeOutput, v.outputs) + EncodeEnd(v.end))
  }

  predicate OutsOk(n: nat, v: TxOuts) {
    CompactOk(v.count) && v.count.value == |v.outputs| <= MAX_IO_COUNT && AllOk(OutputOk, v.outputs) && EndOk(n, v.end)
  }

  function OutsEvents(w: Word, b: nat, v: TxOuts): seq<Event> {
    EventsOfAll(OutputFormat(w), b + |EncodeCompact(v.count)|, v.outputs)
  }

  function ToOuts(p: (Compact, (seq<RawOutput>, TxEnd))): TxOuts { TxOuts(p.0, p.1.0, p.1.1) }

  function OfOuts(v: TxOuts): (Compact, (seq<RawOutput>, TxEnd)) { (v.count, (v.outputs, v.end)) }

  function OutsBody(w: Word, n: nat): Format<(Compact, (seq<RawOutput>, TxEnd))> {
    Counted(Capped(w, MAX_IO_COUNT), CountValue(), OutputFormat(w), (_: Compact) => EndFormat(w, n))
  }

  function OutsShape(w: Word, n: nat): Format<TxOuts> {
    Map(OutsBody(w, n), ToOuts, OfOuts, Silent())
  }

  function OutsFormat(w: Word, n: nat): Format<TxOuts> {
    Format(OutsShape(w, n).parse, EncodeOuts, (v: TxOuts) => OutsOk(n, v), (b: nat, v: TxOuts) => OutsEvents(w, b, v))
  }

  lemma OutsGrammar(w: Word, n: nat, b: nat, v: TxOuts)
    ensures SameGrammar(OutsShape(w, n), OutsFormat(w, n), b, v)
  {
    hide EventsOfAll, EncodeAll, OutputShape, EndShape, EncodeCompact;
    MapGrammar(OutsBody(w, n), ToOuts, OfOuts, b, v);
    CountedGrammar(Capped(w, MAX_IO_COUNT), CountValue(), OutputFormat(w), (_: Compact) => EndFormat(w, n), b,
      v.count, v.outputs, v.end);
    assert OutsEvents(w, b, v) + [] == OutsEvents(w, b, v);
  }

  lemma LawfulOuts(w: Word, n: nat)
    ensures Lawful(OutsFormat(w, n))
  {
    hide EventsOfAll, EncodeAll;
    LawfulCapped(w, MAX_IO_COUNT);
    LawfulOutput(w);
    LawfulEnd(w, n);
    LawfulCounted(Capped(w, MAX_IO_COUNT), CountValue(), OutputFormat(w), (_: Compact) => EndFormat(w, n));
    LawfulMap(OutsBody(w, n), ToOuts, OfOuts, Silent());
    forall b: nat, v: TxOuts ensures SameGrammar(OutsShape(w, n), OutsFormat(w, n), b, v) {
      OutsGrammar(w, n, b, v);
    }
    LawfulRestated(OutsShape(w, n), OutsFormat(w, n));
  }

  // From the marker and input count on.

  datatype TxIns = TxIns(head: TxHead, inputs: seq<RawInput>, outs: TxOuts)

  function WitnessCount(h: TxHead): nat {
    if h.segwit then h.count.value else 0
  }

  function EncodeIns(v: TxIns): seq<Byte> {
    EncodeHead(v.head) + (EncodeAll(EncodeInput, v.inputs) + EncodeOuts(v.outs))
  }

  predicate InsOk(v: TxIns) {
    && HeadOk(v.head) && v.head.count.value == |v.inputs| && AllOk(InputOk, v.inputs)
    && OutsOk(WitnessCount(v.head), v.outs)
  }

  function InsEvents(w: Word, b: nat, v: TxIns): seq<Event> {
    var at := b + |EncodeHead(v.head)|;
    EventsOfAll(InputFormat(w), at, v.inputs) + OutsEvents(w, at + |EncodeAll(EncodeInput, v.inputs)|, v.outs)
  }

  function ToIns(p: (TxHead, (seq<RawInput>, TxOuts))): TxIns { TxIns(p.0, p.1.0, p.1.1) }

  function OfIns(v: TxIns): (TxHead, (seq<RawInput>, TxOuts)) { (v.head, (v.inputs, v.outs)) }

  function HeadCount(): TxHead -> nat { (h: TxHead) => h.count.value }

  function OutsAfter(w: Word): TxHead -> Format<TxOuts> { (h: TxHead) => OutsFormat(w, WitnessCount(h)) }

  function InsBody(w: Word): Format<(TxHead, (seq<RawInput>, TxOuts))> {
    Counted(HeadFormat(w), HeadCount(), InputFormat(w), OutsAfter(w))
  }

  function InsShape(w: Word): Format<TxIns> {
    Map(InsBody(w), ToIns, OfIns, Silent())
  }

  function InsFormat(w: Word): Format<TxIns> {
    Format(InsShape(w).parse, EncodeIns, InsOk, (b: nat, v: TxIns) => InsEvents(w, b, v))
  }

  lemma InsGrammar(w: Word, b: nat, v: TxIns)
    ensures SameGrammar(InsShape(w), InsFormat(w), b, v)
  {
    hide EventsOfAll, EncodeAll, InputShape, OutsShape, EncodeHead, OutsEvents;
    MapGrammar(InsBody(w), ToIns, OfIns, b, v);
    CountedGrammar(HeadFormat(w), HeadCount(), InputFormat(w), OutsAfter(w), b, v.head, v.inputs, v.outs);
  }

  lemma LawfulIns(w: Word)
    ensures Lawful(InsFormat(w))
  {
    hide EventsOfAll, EncodeAll;
    LawfulHead(w);
    LawfulInput(w);
    forall h: TxHead ensures Lawful(OutsAfter(w)(h)) {
      LawfulOuts(w, WitnessCount(h));
    }
    LawfulCounted(HeadFormat(w), HeadCount(), InputFormat(w), OutsAfter(w));
    LawfulMap(InsBody(w), ToIns, OfIns, Silent());
    forall b: nat, v: TxIns ensures SameGrammar(InsShape(w), InsFormat(w), b, v) {
      InsGrammar(w, b, v);
    }
    LawfulRestated(InsShape(w), InsFormat(w));
  }

  /** A transaction as written. */
  datatype RawTx = RawTx(version: I32, ins: TxIns) {
    function Inputs(): seq<RawInput> { ins.inputs }
    function Outputs(): seq<RawOutput> { ins.outs.outputs }
  }

  function EncodeTx(t: RawTx): seq<Byte> {
    LE(4, OfI32(t.version)) + EncodeIns(t.ins)
  }

  predicate TxOk(t: RawTx) {
    InsOk(t.ins)
  }

  function TxEvents(w: Word, b: nat, t: RawTx): seq<Event> {
    InsEvents(w, b + 4, t.ins)
  }

  function ToTx(p: (I32, TxIns)): RawTx { RawTx(p.0, p.1) }

  function OfTx(t: RawTx): (I32, TxIns) { (t.version, t.ins) }

  function TxShape(w: Word): Format<RawTx> {
    Map(Pair(Int32(), InsFormat(w)), ToTx, OfTx, Silent())
  }

  function TxFormat(w: Word): Format<RawTx> {
    Format(TxShape(w).parse, EncodeTx, TxOk, (b: nat, t: RawTx) => TxEvents(w, b, t))
  }

  lemma TxGrammar(w: Word, b: nat, t: RawTx)
    ensures SameGrammar(TxShape(w), TxFormat(w), b, t)
  {
    hide EventsOfAll, EncodeAll, InsShape, EncodeIns, InsEvents;
    MapGrammar(Pair(Int32(), InsFormat(w)), ToTx, OfTx, b, t);
    assert [] + TxEvents(w, b, t) == TxEvents(w, b, t);
  }

  /** The reader of transactions accepts exactly the grammar, reads every encoding back, and starves on every cut. */
  lemma LawfulTx(w: Word)
    ensures Lawful(TxFormat(w))
  {
    hide EventsOfAll, EncodeAll;
    LawfulInt32();
    LawfulIns(w);
    LawfulPair(Int32(), InsFormat(w));
    LawfulMap(Pair(Int32(), InsFormat(w)), ToTx, OfTx, Silent());
    forall b: nat, t: RawTx ensures SameGrammar(TxShape(w), TxFormat(w), b, t) {
      TxGrammar(w, b, t);
    }
    LawfulRestated(TxShape(w), TxFormat(w));
  }
}
