/** The grammar of whole blocks. */
module BlockWire {
  import opened Bytes
  import opened Types
  import opened Formats
  import opened Primitives
  import opened Wire

  /** A block as written: the 80 header bytes, the transaction count, and the transactions. */
  datatype RawBlock = RawBlock(header: seq<Byte>, count: Compact, txs: seq<RawTx>)

  function EncodeBlock(v: RawBlock): seq<Byte> {
    v.header + (EncodeCompact(v.count) + EncodeAll(EncodeTx, v.txs))
  }

  predicate BlockOk(v: RawBlock) {
    |v.header| == HEADER_SIZE && CompactOk(v.count) && v.count.value == |v.txs| <= MAX_BLOCK_TXN && AllOk(TxOk, v.txs)
  }

  function TxsAt(v: RawBlock): nat {
    |v.header| + |EncodeCompact(v.count)|
  }

  /** Everything the callbacks hear of a block at offset `b`. */
  function BlockEvents(w: Word, b: nat, v: RawBlock): seq<Event> {
    EventsOfAll(TxFormat(w), b + TxsAt(v), v.txs)
  }

  function ToBlock(p: (seq<Byte>, (Compact, seq<RawTx>))): RawBlock { RawBlock(p.0, p.1.0, p.1.1) }

  function OfBlock(v: RawBlock): (seq<Byte>, (Compact, seq<RawTx>)) { (v.header, (v.count, v.txs)) }

  /** The header and the transaction count. */
  function BlockHead(w: Word): Format<(seq<Byte>, Compact)> {
    Pair(Raw(HEADER_SIZE), Capped(w, MAX_BLOCK_TXN))
  }

  function BlockTxs(w: Word): Format<(Compact, seq<RawTx>)> {
    Listed(Capped(w, MAX_BLOCK_TXN), CountValue(), TxFormat(w))
  }

  function BlockShape(w: Word): Format<RawBlock> {
    Map(Pair(Raw(HEADER_SIZE), BlockTxs(w)), ToBlock, OfBlock, Silent())
  }

  function BlockFormat(w: Word): Format<RawBlock> {
    Format(BlockShape(w).parse, EncodeBlock, BlockOk, (b: nat, v: RawBlock) => BlockEvents(w, b, v))
  }

  lemma BlockGrammar(w: Word, b: nat, v: RawBlock)
    ensures SameGrammar(BlockShape(w), BlockFormat(w), b, v)
  {
    hide EventsOfAll, EncodeAll, TxShape, EncodeTx, TxOk, EncodeCompact;
    MapGrammar(Pair(Raw(HEADER_SIZE), BlockTxs(w)), ToBlock, OfBlock, b, v);
    ListedGrammar(Capped(w, MAX_BLOCK_TXN), CountValue(), TxFormat(w), b + |v.header|, v.count, v.txs);
    assert [] + BlockEvents(w, b, v) == BlockEvents(w, b, v);
  }

  /** The reader of whole blocks accepts exactly the grammar. */
  lemma LawfulBlock(w: Word)
    ensures Lawful(BlockFormat(w))
  {
    hide EventsOfAll, EncodeAll, TxShape, EncodeTx, TxOk, EncodeCompact;
    LawfulRaw(HEADER_SIZE);
    LawfulCapped(w, MAX_BLOCK_TXN);
    LawfulTx(w);
    LawfulListed(Capped(w, MAX_BLOCK_TXN), CountValue(), TxFormat(w));
    LawfulPair(Raw(HEADER_SIZE), BlockTxs(w));
    LawfulMap(Pair(Raw(HEADER_SIZE), BlockTxs(w)), ToBlock, OfBlock, Silent());
    forall b: nat, v: RawBlock ensures SameGrammar(BlockShape(w), BlockFormat(w), b, v) {
      BlockGrammar(w, b, v);
    }
    LawfulRestated(BlockShape(w), BlockFormat(w));
  }

  /** The reader of blocks is the header, the count, and then a counted loop. */
  function BlockParse(w: Word, sl: Slice): Parsed<RawBlock> {
    var h := BlockHead(w).parse(sl);
    if h.Bad? then Bad(h.error, h.used, []) else
      var l := ManyRun(TxFormat(w), h.value.1.value, After(sl, h.used));
      if l.error.Some? then Bad(l.error.value, h.used + l.used, l.events)
      else Good(RawBlock(h.value.0, h.value.1, l.items), h.used + l.used, l.events)
  }

  lemma BlockReads(w: Word, sl: Slice)
    ensures BlockFormat(w).parse(sl) == BlockParse(w, sl)
  {
    hide ManyRun, TxFormat, Capped, After;
    var raw, count, txs := Raw(HEADER_SIZE), Capped(w, MAX_BLOCK_TXN), BlockTxs(w);
    PairReads(raw, txs, sl);
    PairReads(raw, count, sl);
    assert Quiet(count) by {
      QuietCount(w);
    }
    assert BlockFormat(w).parse(sl) == MapParse(Pair(raw, txs), ToBlock, Silent(), sl);
    if raw.parse(sl).Good? {
      ListedReads(count, CountValue(), TxFormat(w), After(sl, HEADER_SIZE));
      AfterAfter(sl, HEADER_SIZE, count.parse(After(sl, HEADER_SIZE)).used);
      var p := BlockParse(w, sl);
      assert [] + p.events == p.events && p.events + [] == p.events;
    }
  }

  lemma QuietCount(w: Word)
    ensures Quiet(Capped(w, MAX_BLOCK_TXN))
  {
    forall sl: Slice ensures Capped(w, MAX_BLOCK_TXN).parse(sl).events == [] {
      assert Capped(w, MAX_BLOCK_TXN).parse(sl) == Vetted(CompactParse(sl.bytes), CapCheck(w, MAX_BLOCK_TXN));
    }
  }

  // ------------------------------------------------------------- coinbase

  /** The null outpoint. */
  predicate IsCoinbaseInput(i: RawInput) {
    (forall k :: 0 <= k < |i.txid| ==> i.txid[k] == 0) && i.vout == 0xFFFF_FFFF
  }

  /** Only the first input is looked at. */
  predicate IsCoinbaseTx(t: RawTx) {
    t.Inputs() != [] && IsCoinbaseInput(t.Inputs()[0])
  }

  /** No transaction is coinbase except number 0 of the block; `index` is the number of `txs[0]`. */
  predicate NoLateCoinbase(txs: seq<RawTx>, index: nat) {
    forall i :: 0 <= i < |txs| && index + i != 0 ==> !IsCoinbaseTx(txs[i])
  }

  /** The strict rule: transaction 0 is coinbase and no other is. */
  predicate OneCoinbase(txs: seq<RawTx>) {
    txs != [] && IsCoinbaseTx(txs[0]) && NoLateCoinbase(txs, 0)
  }

  // ---------------------------------------------------------------- sizes

  lemma {:induction false} EncodeAllAtLeast<T>(encode: T -> seq<Byte>, ok: T -> bool, items: seq<T>, k: nat)
    requires AllOk(ok, items)
    requires forall v :: ok(v) ==> |encode(v)| >= k
    ensures |EncodeAll(encode, items)| >= k * |items|
  {
    if items != [] {
      EncodeAllAtLeast(encode, ok, items[1..], k);
    }
  }

  /** A transaction costs at least 10 bytes, 41 for each input and 9 for each output. */
  lemma TxSize(t: RawTx)
    requires TxOk(t)
    ensures |EncodeTx(t)| >= 10 + 41 * |t.Inputs()| + 9 * |t.Outputs()|
  {
    EncodeAllAtLeast(EncodeInput, InputOk, t.Inputs(), 41);
    EncodeAllAtLeast(EncodeOutput, OutputOk, t.Outputs(), 9);
  }

  function InputsOf(txs: seq<RawTx>): nat {
    if txs == [] then 0 else |txs[0].Inputs()| + InputsOf(txs[1..])
  }

  function OutputsOf(txs: seq<RawTx>): nat {
    if txs == [] then 0 else |txs[0].Outputs()| + OutputsOf(txs[1..])
  }

  lemma {:induction false} TxsSize(txs: seq<RawTx>)
    requires AllOk(TxOk, txs)
    ensures |EncodeAll(EncodeTx, txs)| >= 10 * |txs| + 41 * InputsOf(txs) + 9 * OutputsOf(txs)
  {
    hide EncodeTx, TxOk;
    if txs != [] {
      TxSize(txs[0]);
      TxsSize(txs[1..]);
    }
  }
}
