/** The errors with which the readers refuse a block, and how the strict loop ends when the caller's callbacks
    accept everything. */
module Refusals {
  import opened Bytes
  import opened Types
  import opened Formats
  import opened Primitives
  import opened Wire
  import opened BlockWire
  import opened Reads
  import opened Callbacks
  import opened Streams
  import opened Strictness

  /** The errors of the readers themselves. */
  predicate IsRefusal(e: ParseError) {
    e.UnexpectedEof? || e.IntegerTooLarge? || e.OversizedData? || e.InvalidSegwitFlag? || e.InvalidInputCount?
  }

  predicate RefusesAt<T>(f: Format<T>, sl: Slice) {
    var p := f.parse(sl);
    p.Bad? ==> IsRefusal(p.error)
  }

  ghost predicate Refuses<T>(f: Format<T>) {
    forall sl: Slice :: RefusesAt(f, sl)
  }

  lemma {:induction false} RefusesRun<T>(f: Format<T>, n: nat, sl: Slice)
    requires Refuses(f)
    ensures var r := ManyRun(f, n, sl); r.error.Some? ==> IsRefusal(r.error.value)
  {
    if n > 0 {
      assert RefusesAt(f, sl);
      if f.parse(sl).Good? {
        RefusesRun(f, n - 1, After(sl, f.parse(sl).used));
      }
    }
  }

  lemma RefusesCapped(w: Word, cap: nat)
    ensures Refuses(Capped(w, cap))
  {
    hide CompactParse;
    forall sl: Slice ensures RefusesAt(Capped(w, cap), sl) {
      CappedReads(w, cap, sl);
      CompactUsed(sl.bytes);
    }
  }

  lemma RefusesVarBytes(w: Word, cap: nat)
    ensures Refuses(VarBytesFormat(w, cap))
  {
    hide VarBytesFormat, CompactParse, After;
    forall sl: Slice ensures RefusesAt(VarBytesFormat(w, cap), sl) {
      VarBytesReads(w, cap, sl);
      CompactUsed(sl.bytes);
    }
  }

  lemma RefusesInput(w: Word)
    ensures Refuses(InputFormat(w))
  {
    hide InputFormat, OutPointFormat, VarBytesFormat, After;
    RefusesVarBytes(w, MAX_SCRIPT_SIZE);
    forall sl: Slice ensures RefusesAt(InputFormat(w), sl) {
      InputReads(w, sl);
      RefusesOutPoint(sl);
      assert RefusesAt(ScriptFormat(w), After(sl, 36));
    }
  }

  lemma RefusesOutPoint(sl: Slice)
    ensures RefusesAt(OutPointFormat(), sl)
  {
    PairReads(Raw(32), Num(4), sl);
  }

  lemma RefusesOutput(w: Word)
    ensures Refuses(OutputFormat(w))
  {
    hide OutputFormat, VarBytesFormat, After;
    RefusesVarBytes(w, MAX_SCRIPT_SIZE);
    forall sl: Slice ensures RefusesAt(OutputFormat(w), sl) {
      OutputReads(w, sl);
      assert RefusesAt(ScriptFormat(w), After(sl, Num(8).parse(sl).used));
    }
  }

  lemma RefusesWitness(w: Word)
    ensures Refuses(Atomic(WitnessFormat(w)))
  {
    hide WitnessFormat, VarBytesFormat, Capped, ManyRun, After;
    RefusesCapped(w, MAX_WITNESS_ITEMS);
    RefusesVarBytes(w, MAX_WITNESS_ITEM_SIZE);
    forall sl: Slice ensures RefusesAt(Atomic(WitnessFormat(w)), sl) {
      WitnessReads(w, sl);
      var h := Capped(w, MAX_WITNESS_ITEMS).parse(sl);
      assert RefusesAt(Capped(w, MAX_WITNESS_ITEMS), sl);
      if h.Good? {
        RefusesRun(WitnessItemFormat(w), h.value.value, After(sl, h.used));
      }
    }
  }

  lemma RefusesEnd(w: Word, n: nat)
    ensures Refuses(EndFormat(w, n))
  {
    hide EndFormat, WitnessFormat, ManyRun, After;
    RefusesWitness(w);
    forall sl: Slice ensures RefusesAt(EndFormat(w, n), sl) {
      EndReads(w, n, sl);
      RefusesRun(Atomic(WitnessFormat(w)), n, sl);
    }
  }

  lemma RefusesOuts(w: Word, n: nat)
    ensures Refuses(OutsFormat(w, n))
  {
    hide OutsFormat, OutputFormat, EndFormat, Capped, ManyRun, After;
    RefusesCapped(w, MAX_IO_COUNT);
    RefusesOutput(w);
    RefusesEnd(w, n);
    forall sl: Slice ensures RefusesAt(OutsFormat(w, n), sl) {
      OutsReads(w, n, sl);
      var h := Capped(w, MAX_IO_COUNT).parse(sl);
      assert RefusesAt(Capped(w, MAX_IO_COUNT), sl);
      if h.Good? {
        RefusesRun(OutputFormat(w), h.value.value, After(sl, h.used));
        var l := ManyRun(OutputFormat(w), h.value.value, After(sl, h.used));
        assert RefusesAt(EndFormat(w, n), After(After(sl, h.used), l.used));
      }
    }
  }

  lemma RefusesHead(w: Word)
    ensures Refuses(HeadFormat(w))
  {
    hide CompactParse;
    forall sl: Slice ensures RefusesAt(HeadFormat(w), sl) {
      var at := if sl.bytes != [] && sl.bytes[0] == 0 then After(sl, 2) else sl;
      assert InputCount(w).parse(at) == Vetted(CompactParse(at.bytes), InputCountCheck(w));
      CompactUsed(at.bytes);
    }
  }

  lemma RefusesIns(w: Word)
    ensures Refuses(InsFormat(w))
  {
    hide InsFormat, InputFormat, OutsFormat, HeadFormat, ManyRun, After;
    RefusesHead(w);
    RefusesInput(w);
    forall sl: Slice ensures RefusesAt(InsFormat(w), sl) {
      InsReads(w, sl);
      var h := HeadFormat(w).parse(sl);
      assert RefusesAt(HeadFormat(w), sl);
      if h.Good? {
        RefusesRun(InputFormat(w), h.value.count.value, After(sl, h.used));
        var l := ManyRun(InputFormat(w), h.value.count.value, After(sl, h.used));
        RefusesOuts(w, WitnessCount(h.value));
        assert RefusesAt(OutsFormat(w, WitnessCount(h.value)), After(After(sl, h.used), l.used));
      }
    }
  }

  /** A transaction is refused for missing input, for a count or size, or for its marker. */
  lemma RefusesTx(w: Word)
    ensures Refuses(TxFormat(w))
  {
    hide TxFormat, InsFormat, After;
    RefusesIns(w);
    forall sl: Slice ensures RefusesAt(TxFormat(w), sl) {
      TxReads(w, sl);
      assert RefusesAt(InsFormat(w), After(sl, Int32().parse(sl).used));
    }
  }

  lemma RefusesBlockHead(w: Word, data: Slice)
    ensures RefusesAt(BlockHead(w), data)
  {
    hide Capped, After;
    PairReads(Raw(HEADER_SIZE), Capped(w, MAX_BLOCK_TXN), data);
    RefusesCapped(w, MAX_BLOCK_TXN);
    assert RefusesAt(Capped(w, MAX_BLOCK_TXN), After(data, HEADER_SIZE));
  }

  // ------------------------------------------------------------ strict errors

  /** A block with a late coinbase, complete or at the head of a transaction that does not parse. */
  ghost predicate LateBlock(w: Word, data: Slice) {
    var h := BlockHead(w).parse(data);
    h.Good? &&
      var sl := After(data, h.used);
      HasLate(TxFormat(w), sl, 0, ManyRun(Atomic(TxFormat(w)), h.value.1.value, sl))
  }

  /** Strict parsing of a block without a late coinbase is the flat reader of blocks: the callbacks hear its events
      until they refuse one, whose error comes back unchanged, or else the reader's own error does, or else
      `Finish` says what follows the block. With a late coinbase, callbacks that accept everything get a count of 1
      or 2. */
  lemma StrictBlockOutcome<S>(w: Word, data: Slice, step: Step<S>, st: S)
    ensures var p, s := BlockFormat(w).parse(data), StrictBlock(w, data, step, st);
      var fed := Feed(step, st, p.events);
      && (if p.Good? then p.used <= |data.bytes| && (LateBlock(w, data) <==> !NoLateCoinbase(p.value.txs, 0))
          else IsRefusal(p.error))
      && (!LateBlock(w, data) ==>
            && s.0 == fed.state
            && s.1 == Verdict(fed,
                 if p.Bad? then Err(p.error) else Finish(After(data, p.used), Count(0, 0, p.value.txs))))
      && (LateBlock(w, data) && fed.error.None? ==>
            s.1 == Err(InvalidCoinbaseCount(1)) || s.1 == Err(InvalidCoinbaseCount(2)))
  {
    hide TxFormat, Telling, ManyRun, NoLateCoinbase, IsCoinbaseTx, FirstIsCoinbase, StrictRun, Feed, BlockHead;
    hide BlockShape, After;
    var h := BlockHead(w).parse(data);
    BlockReads(w, data);
    RefusesBlockHead(w, data);
    FeedNothing(step, st);
    if h.Good? {
      var f, n, sl := TxFormat(w), h.value.1.value, After(data, h.used);
      var run := ManyRun(Atomic(f), n, sl);
      TellingTx(w);
      LawfulTx(w);
      RefusesTx(w);
      RefusesRun(f, n, sl);
      NestedIsFlat(f, n, sl);
      StrictOutcome(f, sl, 0, n, 0, step, st);
      AfterAfter(data, h.used, run.used);
      UsedWithin(w, data);
    }
  }

  /** Block `v` is at the front of the input, `k` bytes from its end. */
  ghost predicate Leads(v: RawBlock, data: Slice, k: nat) {
    BlockOk(v) && EncodeBlock(v) <= data.bytes && |data.bytes| == |EncodeBlock(v)| + k
  }

  predicate NoCoinbase(txs: seq<RawTx>) {
    forall i :: 0 <= i < |txs| ==> !IsCoinbaseTx(txs[i])
  }

  /** The errors of strict parsing for callbacks that never fail: TrailingBytes exactly for a block without a late
      coinbase and bytes after it, a count of 0 exactly for a block without any coinbase that fills the input, and
      never IncompleteTransactions. */
  lemma StrictErrors<S(!new)>(w: Word, data: Slice, step: Step<S>, st: S)
    requires forall s: S, e: Event :: step(s, e).1.None?
    ensures var r := StrictBlock(w, data, step, st).1;
      && (forall k: nat ::
            r == Err(TrailingBytes(k)) <==> k > 0 && exists v :: Leads(v, data, k) && NoLateCoinbase(v.txs, 0))
      && (r == Err(InvalidCoinbaseCount(0)) <==> exists v :: Leads(v, data, 0) && NoCoinbase(v.txs))
      && (r.Err? ==>
            || IsRefusal(r.error) || r.error.TrailingBytes?
            || (r.error.InvalidCoinbaseCount? && r.error.count <= 2))
  {
    hide BlockFormat, BlockOk, EncodeBlock, StrictBlock, NoLateCoinbase, IsCoinbaseTx, NoCoinbase, Leads, Feed, After;
    forall events ensures Feed(step, st, events).error.None? {
      FeedAgreeable(step, st, events);
    }
    StrictBlockOutcome(w, data, step, st);
    var p, r := BlockFormat(w).parse(data), StrictBlock(w, data, step, st).1;
    if p.Good? {
      LeadsRead(w, data);
      AfterAfter(data, p.used, 0);
      CountIsZero(p.value.txs);
    }
    forall v, k: nat | Leads(v, data, k) ensures p.Good? && p.value == v && p.used == |data.bytes| - k {
      LeadsOnly(w, data, v, k);
    }
    forall v: RawBlock | NoCoinbase(v.txs) ensures NoLateCoinbase(v.txs, 0) {
      CountIsZero(v.txs);
    }
  }

  lemma LeadsRead(w: Word, data: Slice)
    ensures var p := BlockFormat(w).parse(data);
      p.Good? ==> p.used <= |data.bytes| && Leads(p.value, data, |data.bytes| - p.used)
  {
    hide BlockShape, BlockOk, EncodeBlock;
    LawfulBlock(w);
    assert SoundAt(BlockFormat(w), data);
  }

  lemma LeadsOnly(w: Word, data: Slice, v: RawBlock, k: nat)
    requires Leads(v, data, k)
    ensures var p := BlockFormat(w).parse(data); p.Good? && p.value == v && p.used == |data.bytes| - k
  {
    hide BlockShape, BlockOk, EncodeBlock;
    LawfulBlock(w);
    var rest := data.bytes[|EncodeBlock(v)|..];
    assert data == Slice(data.off, EncodeBlock(v) + rest);
    assert CompleteAt(BlockFormat(w), data.off, v, rest);
  }

  lemma CountIsZero(txs: seq<RawTx>)
    ensures NoLateCoinbase(txs, 0) && Count(0, 0, txs) == 0 <==> NoCoinbase(txs)
    ensures Count(0, 0, txs) <= 1
  {
    hide IsCoinbaseTx;
  }
}
