/** Abstract blocks, their serialisation with shortest CompactSize integers, and the round trips. */
module Serial {
  import opened Bytes
  import opened Types
  import opened Formats
  import opened Primitives
  import opened Wire
  import opened BlockWire

  // -------------------------------------------------------- abstract values

  datatype TxIn = TxIn(txid: seq<Byte>, vout: nat, script: seq<Byte>, sequence: nat)

  datatype TxOut = TxOut(value: nat, script: seq<Byte>)

  /** `witnesses` is one list of items for each input of a SegWit transaction, and None otherwise. */
  datatype Tx = Tx(
    version: I32, inputs: seq<TxIn>, outputs: seq<TxOut>, witnesses: Option<seq<seq<seq<Byte>>>>, locktime: nat)

  datatype Block = Block(header: seq<Byte>, txs: seq<Tx>)

  // ---------------------------------------------- shortest form and content

  function CanonBytes(s: seq<Byte>): VarBytes { VarBytes(Shortest(|s|), s) }

  function CanonIn(i: TxIn): RawInput { RawInput(i.txid, i.vout, CanonBytes(i.script), i.sequence) }

  function CanonOut(o: TxOut): RawOutput { RawOutput(o.value, CanonBytes(o.script)) }

  function CanonWitness(items: seq<seq<Byte>>): RawWitness {
    RawWitness(Shortest(|items|), MapSeq(CanonBytes, items))
  }

  function CanonTx(t: Tx): RawTx {
    RawTx(t.version, TxIns(
      TxHead(t.witnesses.Some?, Shortest(|t.inputs|)), MapSeq(CanonIn, t.inputs), TxOuts(
        Shortest(|t.outputs|), MapSeq(CanonOut, t.outputs), TxEnd(
          if t.witnesses.Some? then MapSeq(CanonWitness, t.witnesses.value) else [], t.locktime))))
  }

  function CanonBlock(b: Block): RawBlock {
    RawBlock(b.header, Shortest(|b.txs|), MapSeq(CanonTx, b.txs))
  }

  /** The serialiser. */
  function Serialise(b: Block): seq<Byte> {
    EncodeBlock(CanonBlock(b))
  }

  function MapSeq<A, B>(f: A -> B, s: seq<A>): (r: seq<B>)
    ensures |r| == |s| && forall i :: 0 <= i < |s| ==> r[i] == f(s[i])
  {
    seq(|s|, i requires 0 <= i < |s| => f(s[i]))
  }

  // What a value as written says, its forms forgotten.

  function BytesOf(v: VarBytes): seq<Byte> { v.bytes }

  function InOf(i: RawInput): TxIn { TxIn(i.txid, i.vout, i.script.bytes, i.sequence) }

  function OutOf(o: RawOutput): TxOut { TxOut(o.value, o.script.bytes) }

  function WitnessOf(v: RawWitness): seq<seq<Byte>> { MapSeq(BytesOf, v.items) }

  function TxOf(t: RawTx): Tx {
    Tx(t.version, MapSeq(InOf, t.Inputs()), MapSeq(OutOf, t.Outputs()),
       if t.ins.head.segwit then Some(MapSeq(WitnessOf, t.ins.outs.end.witnesses)) else None,
       t.ins.outs.end.locktime)
  }

  function BlockOf(v: RawBlock): Block {
    Block(v.header, MapSeq(TxOf, v.txs))
  }

  // ------------------------------------------------------- caps and minimality

  predicate ScriptFits(s: seq<Byte>) { |s| <= 10_000 }

  predicate InFits(i: TxIn) {
    |i.txid| == 32 && i.vout <= 0xFFFF_FFFF && ScriptFits(i.script) && i.sequence <= 0xFFFF_FFFF
  }

  predicate OutFits(o: TxOut) {
    o.value <= 0xFFFF_FFFF_FFFF_FFFF && ScriptFits(o.script)
  }

  predicate ItemFits(s: seq<Byte>) { |s| <= 520 }

  predicate WitnessFits(items: seq<seq<Byte>>) {
    |items| <= 500 && AllOk(ItemFits, items)
  }

  /** The caps of the parser in numerals, and values that fit their fields. */
  predicate TxFits(t: Tx) {
    && 1 <= |t.inputs| <= 100_000 && AllOk(InFits, t.inputs)
    && |t.outputs| <= 100_000 && AllOk(OutFits, t.outputs)
    && (t.witnesses.Some? ==> |t.witnesses.value| == |t.inputs| && AllOk(WitnessFits, t.witnesses.value))
    && t.locktime <= 0xFFFF_FFFF
  }

  predicate BlockFits(b: Block) {
    |b.header| == 80 && |b.txs| <= 1_000_000 && AllOk(TxFits, b.txs)
  }

  predicate MinimalBytes(v: VarBytes) { Minimal(v.len) }

  predicate MinimalIn(i: RawInput) { MinimalBytes(i.script) }

  predicate MinimalOut(o: RawOutput) { MinimalBytes(o.script) }

  predicate MinimalWitness(v: RawWitness) { Minimal(v.count) && AllOk(MinimalBytes, v.items) }

  /** Every CompactSize integer of the transaction is in its shortest form. */
  predicate MinimalTx(t: RawTx) {
    && Minimal(t.ins.head.count) && AllOk(MinimalIn, t.Inputs())
    && Minimal(t.ins.outs.count) && AllOk(MinimalOut, t.Outputs())
    && AllOk(MinimalWitness, t.ins.outs.end.witnesses)
  }

  predicate MinimalBlock(v: RawBlock) {
    Minimal(v.count) && AllOk(MinimalTx, v.txs)
  }

  // ------------------------------------------------------------- round trips

  lemma ShortestIs(n: nat)
    requires n < Pow256(8)
    ensures CompactOk(Shortest(n)) && Minimal(Shortest(n))
  {
    Powers();
  }

  lemma CanonBytesOk(s: seq<Byte>, cap: nat)
    requires |s| <= cap <= 0xFFFF_FFFF
    ensures VarBytesOk(cap, CanonBytes(s)) && MinimalBytes(CanonBytes(s))
  {
    Powers();
  }

  lemma CanonWitnessOk(items: seq<seq<Byte>>)
    requires WitnessFits(items)
    ensures WitnessOk(CanonWitness(items)) && MinimalWitness(CanonWitness(items))
    ensures WitnessOf(CanonWitness(items)) == items
  {
    var v := CanonWitness(items);
    Powers();
    forall i | 0 <= i < |items| ensures WitnessItemOk(v.items[i]) && MinimalBytes(v.items[i]) {
      assert ItemFits(items[i]);
      CanonBytesOk(items[i], MAX_WITNESS_ITEM_SIZE);
    }
  }

  lemma CanonTxOk(t: Tx)
    requires TxFits(t)
    ensures TxOk(CanonTx(t)) && MinimalTx(CanonTx(t)) && TxOf(CanonTx(t)) == t
  {
    hide MinTail, VarBytesOk, WitnessOk, MinimalWitness, CanonWitness, WitnessOf;
    var r := CanonTx(t);
    Powers();
    ShortestIs(|t.inputs|);
    ShortestIs(|t.outputs|);
    forall i | 0 <= i < |t.inputs| ensures InputOk(r.Inputs()[i]) && MinimalIn(r.Inputs()[i]) {
      assert InFits(t.inputs[i]);
      CanonBytesOk(t.inputs[i].script, MAX_SCRIPT_SIZE);
    }
    forall i | 0 <= i < |t.outputs| ensures OutputOk(r.Outputs()[i]) && MinimalOut(r.Outputs()[i]) {
      assert OutFits(t.outputs[i]);
      CanonBytesOk(t.outputs[i].script, MAX_SCRIPT_SIZE);
    }
    var wits := r.ins.outs.end.witnesses;
    if t.witnesses.Some? {
      forall i | 0 <= i < |wits|
        ensures WitnessOk(wits[i]) && MinimalWitness(wits[i]) && WitnessOf(wits[i]) == t.witnesses.value[i]
      {
        assert WitnessFits(t.witnesses.value[i]);
        CanonWitnessOk(t.witnesses.value[i]);
      }
      assert MapSeq(WitnessOf, wits) == t.witnesses.value;
    }
    assert MapSeq(InOf, r.Inputs()) == t.inputs && MapSeq(OutOf, r.Outputs()) == t.outputs;
  }

  lemma CanonBlockOk(b: Block)
    requires BlockFits(b)
    ensures BlockOk(CanonBlock(b)) && MinimalBlock(CanonBlock(b)) && BlockOf(CanonBlock(b)) == b
  {
    hide TxOk, MinimalTx, TxOf, CanonTx, TxFits, MinTail;
    Powers();
    ShortestIs(|b.txs|);
    forall i | 0 <= i < |b.txs|
      ensures var t := CanonTx(b.txs[i]); TxOk(t) && MinimalTx(t) && TxOf(t) == b.txs[i]
    {
      assert TxFits(b.txs[i]);
      CanonTxOk(b.txs[i]);
    }
    assert MapSeq(TxOf, CanonBlock(b).txs) == b.txs;
  }

  /** Reading back what was serialised gives the block, whatever follows, and consumes exactly its bytes. */
  lemma BlockRoundTrip(w: Word, b: Block, off: nat, rest: seq<Byte>)
    requires BlockFits(b)
    ensures var p := BlockFormat(w).parse(Slice(off, Serialise(b) + rest));
      p.Good? && BlockOf(p.value) == b && p.used == |Serialise(b)| && p.events == BlockEvents(w, off, CanonBlock(b))
  {
    hide BlockShape, BlockEvents, BlockOk, CanonBlock, BlockOf;
    LawfulBlock(w);
    CanonBlockOk(b);
    assert CompleteAt(BlockFormat(w), off, CanonBlock(b), rest);
  }

  lemma MinimalWitnessIs(v: RawWitness)
    requires WitnessOk(v) && MinimalWitness(v)
    ensures CanonWitness(WitnessOf(v)) == v
  {
    var items := CanonWitness(WitnessOf(v)).items;
    forall i | 0 <= i < |items| ensures items[i] == v.items[i] {
      assert WitnessItemOk(v.items[i]) && MinimalBytes(v.items[i]);
    }
  }

  lemma MinimalTxIs(t: RawTx)
    requires TxOk(t) && MinimalTx(t)
    ensures CanonTx(TxOf(t)) == t
  {
    hide MinTail, CompactOk, WitnessOk, MinimalWitness, CanonWitness, WitnessOf;
    var r := CanonTx(TxOf(t));
    forall i | 0 <= i < |t.Inputs()| ensures r.Inputs()[i] == t.Inputs()[i] {
      assert InputOk(t.Inputs()[i]) && MinimalIn(t.Inputs()[i]);
    }
    forall i | 0 <= i < |t.Outputs()| ensures r.Outputs()[i] == t.Outputs()[i] {
      assert OutputOk(t.Outputs()[i]) && MinimalOut(t.Outputs()[i]);
    }
    var x, y := r.ins.outs.end.witnesses, t.ins.outs.end.witnesses;
    if t.ins.head.segwit {
      forall i | 0 <= i < |y| ensures x[i] == y[i] {
        assert WitnessOk(y[i]) && MinimalWitness(y[i]);
        MinimalWitnessIs(y[i]);
      }
    }
    assert x == y && r.Inputs() == t.Inputs() && r.Outputs() == t.Outputs();
  }

  /** A block whose integers are all in shortest form re-serialises to the identical bytes. */
  lemma MinimalReserialises(v: RawBlock)
    requires BlockOk(v) && MinimalBlock(v)
    ensures Serialise(BlockOf(v)) == EncodeBlock(v)
  {
    hide TxOk, MinimalTx, TxOf, CanonTx, CompactOk, MinTail, EncodeBlock;
    var txs := CanonBlock(BlockOf(v)).txs;
    forall i | 0 <= i < |v.txs| ensures txs[i] == v.txs[i] {
      assert TxOk(v.txs[i]) && MinimalTx(v.txs[i]);
      MinimalTxIs(v.txs[i]);
    }
    assert txs == v.txs;
    assert CanonBlock(BlockOf(v)) == v;
  }

  /** What an accepted block's bytes are, when all its integers are in shortest form. */
  lemma AcceptedReserialises(w: Word, data: Slice)
    ensures var p := BlockFormat(w).parse(data);
      p.Good? && p.used == |data.bytes| && MinimalBlock(p.value) ==> Serialise(BlockOf(p.value)) == data.bytes
  {
    hide BlockShape, MinimalBlock, BlockOf, BlockEvents;
    LawfulBlock(w);
    assert SoundAt(BlockFormat(w), data);
    var p := BlockFormat(w).parse(data);
    if p.Good? && p.used == |data.bytes| && MinimalBlock(p.value) {
      assert data.bytes[..p.used] == data.bytes;
      MinimalReserialises(p.value);
    }
  }

  // ----------------------------------------------------- what callbacks hear

  /** What a callback can read through the slices it is given. */
  datatype Heard = HeardIn(input: TxIn) | HeardOut(output: TxOut)

  function Content(e: Event): Heard {
    match e
    case OnInput(i) => HeardIn(TxIn(i.previousOutput.txid.bytes, i.previousOutput.vout, i.scriptSig.bytes, i.sequence))
    case OnOutput(o) => HeardOut(TxOut(o.value, o.scriptPubKey.bytes))
  }

  function HearIn(i: TxIn): Heard { HeardIn(i) }

  function HearOut(o: TxOut): Heard { HeardOut(o) }

  /** A transaction's inputs in order and then its outputs in order. */
  function TxContent(t: Tx): seq<Heard> {
    MapSeq(HearIn, t.inputs) + MapSeq(HearOut, t.outputs)
  }

  function BlockContent(txs: seq<Tx>): seq<Heard> {
    if txs == [] then [] else TxContent(txs[0]) + BlockContent(txs[1..])
  }

  lemma {:induction false} InputsHeard(w: Word, b: nat, items: seq<RawInput>)
    ensures MapSeq(Content, EventsOfAll(InputFormat(w), b, items)) == MapSeq(HearIn, MapSeq(InOf, items))
    decreases items
  {
    hide InputShape, EncodeInput;
    if items != [] {
      var b' := b + |InputFormat(w).encode(items[0])|;
      var rest := EventsOfAll(InputFormat(w), b', items[1..]);
      InputsHeard(w, b', items[1..]);
      assert EventsOfAll(InputFormat(w), b, items) == [OnInput(InputView(b, items[0]))] + rest;
      HeardCons(OnInput(InputView(b, items[0])), rest);
      assert MapSeq(HearIn, MapSeq(InOf, items))
        == [HeardIn(InOf(items[0]))] + MapSeq(HearIn, MapSeq(InOf, items[1..]));
    }
  }

  lemma {:induction false} OutputsHeard(w: Word, b: nat, items: seq<RawOutput>)
    ensures MapSeq(Content, EventsOfAll(OutputFormat(w), b, items)) == MapSeq(HearOut, MapSeq(OutOf, items))
    decreases items
  {
    hide OutputShape, EncodeOutput;
    if items != [] {
      var b' := b + |OutputFormat(w).encode(items[0])|;
      var rest := EventsOfAll(OutputFormat(w), b', items[1..]);
      OutputsHeard(w, b', items[1..]);
      assert EventsOfAll(OutputFormat(w), b, items) == [OnOutput(OutputView(b, items[0]))] + rest;
      HeardCons(OnOutput(OutputView(b, items[0])), rest);
      assert MapSeq(HearOut, MapSeq(OutOf, items))
        == [HeardOut(OutOf(items[0]))] + MapSeq(HearOut, MapSeq(OutOf, items[1..]));
    }
  }

  lemma HeardCons(e: Event, rest: seq<Event>)
    ensures MapSeq(Content, [e] + rest) == [Content(e)] + MapSeq(Content, rest)
  {
  }

  lemma HeardConcat(x: seq<Event>, y: seq<Event>)
    ensures MapSeq(Content, x + y) == MapSeq(Content, x) + MapSeq(Content, y)
  {
  }

  /** The callbacks hear exactly the inputs and outputs of a transaction, in order, with their contents. */
  lemma TxHeard(w: Word, b: nat, t: RawTx)
    ensures MapSeq(Content, TxEvents(w, b, t)) == TxContent(TxOf(t))
  {
    hide EventsOfAll, InputFormat, OutputFormat, EncodeAll, EncodeHead, EncodeCompact;
    var at := b + 4 + |EncodeHead(t.ins.head)|;
    var at' := at + |EncodeAll(EncodeInput, t.Inputs())| + |EncodeCompact(t.ins.outs.count)|;
    InputsHeard(w, at, t.Inputs());
    OutputsHeard(w, at', t.Outputs());
    HeardConcat(EventsOfAll(InputFormat(w), at, t.Inputs()), EventsOfAll(OutputFormat(w), at', t.Outputs()));
  }

  lemma {:induction false} TxsHeard(w: Word, b: nat, txs: seq<RawTx>)
    ensures MapSeq(Content, EventsOfAll(TxFormat(w), b, txs)) == BlockContent(MapSeq(TxOf, txs))
    decreases txs
  {
    hide TxShape, EncodeTx, TxEvents, TxOf, TxContent;
    if txs == [] {
      assert MapSeq(TxOf, txs) == [];
    } else {
      var b' := b + |TxFormat(w).encode(txs[0])|;
      var rest := EventsOfAll(TxFormat(w), b', txs[1..]);
      TxsHeard(w, b', txs[1..]);
      TxHeard(w, b, txs[0]);
      HeardConcat(TxEvents(w, b, txs[0]), rest);
      assert MapSeq(TxOf, txs)[1..] == MapSeq(TxOf, txs[1..]);
    }
  }

  /** Serialising a block and iterating delivers exactly its inputs and outputs, transaction by transaction. */
  lemma BlockHeard(w: Word, b: Block, off: nat)
    requires BlockFits(b)
    ensures MapSeq(Content, BlockEvents(w, off, CanonBlock(b))) == BlockContent(b.txs)
  {
    hide TxFormat, CanonTx, TxOf, TxContent;
    CanonBlockOk(b);
    TxsHeard(w, off + TxsAt(CanonBlock(b)), CanonBlock(b).txs);
  }
}
