/** The block header, and the iterator over a block's transactions. */
module Blocks {
  import opened Bytes
  import opened Types
  import opened Formats
  import opened Primitives
  import opened Wire
  import opened BlockWire
  import opened Callbacks
  import opened Cursors
  import opened Streams
  import opened Strictness
  import opened Transactions

  // ---------------------------------------------------------------- header

  datatype BlockHeader = BlockHeader(
    version: I32, prevBlock: Slice, merkleRoot: Slice, timestamp: nat, bits: nat, nonce: nat, raw: Slice)

  function Field(s: seq<Byte>, i: nat, n: nat): seq<Byte> {
    if i + n <= |s| then s[i..i + n] else []
  }

  /** The header written as `raw` at offset `b`. */
  function HeaderView(b: nat, raw: seq<Byte>): BlockHeader {
    BlockHeader(
      AsI32(FromLE(Field(raw, 0, 4))), Slice(b + 4, Field(raw, 4, 32)), Slice(b + 36, Field(raw, 36, 32)),
      FromLE(Field(raw, 68, 4)), FromLE(Field(raw, 72, 4)), FromLE(Field(raw, 76, 4)), Slice(b, raw))
  }

  /** The six fields, written back in order. */
  function EncodeHeader(h: BlockHeader): seq<Byte> {
    LE(4, OfI32(h.version)) + h.prevBlock.bytes + h.merkleRoot.bytes
    + LE(4, h.timestamp) + LE(4, h.bits) + LE(4, h.nonce)
  }

  /** The fields of a header determine its 80 bytes. */
  lemma HeaderRoundTrip(b: nat, raw: seq<Byte>)
    requires |raw| == HEADER_SIZE
    ensures EncodeHeader(HeaderView(b, raw)) == raw
  {
    hide LE, FromLE, Pow256;
    Powers();
    LEOfFromLE(raw[0..4]);
    LEOfFromLE(raw[68..72]);
    LEOfFromLE(raw[72..76]);
    LEOfFromLE(raw[76..80]);
    var h := HeaderView(b, raw);
    assert LE(4, OfI32(h.version)) == raw[0..4];
    assert raw == raw[0..4] + raw[4..36] + raw[36..68] + raw[68..72] + raw[72..76] + raw[76..80];
  }

  /** `BlockHeader::parse`: 80 bytes, and then the fields through a sub-cursor that cannot fail. */
  method ParseHeader(c: Cursor) returns (r: Result<BlockHeader>)
    requires c.Valid()
    modifies c
    ensures var b, p := old(c.Here()).off, Raw(HEADER_SIZE).parse(old(c.Here()));
      c.Moved(p.used) && r == Reply(p, (raw: seq<Byte>) => HeaderView(b, raw))
    ensures var sl := old(c.Here());
      if |sl.bytes| < 80 then r == Err(UnexpectedEof(80, |sl.bytes|)) && c.Moved(0) else
        && r.Ok? && c.Moved(80) && r.value.raw == Slice(sl.off, sl.bytes[..80])
        && EncodeHeader(r.value) == r.value.raw.bytes
        && r.value.prevBlock == Slice(sl.off + 4, sl.bytes[..80][4..36])
        && r.value.merkleRoot == Slice(sl.off + 36, sl.bytes[..80][36..68])
  {
    hide After, FromLE, LE, Field, HeaderView, EncodeHeader;
    var raw := c.ReadBytes(HEADER_SIZE);
    if raw.Err? {
      return Err(raw.error);
    }
    var header := ParseHeaderFields(raw.value, c.word);
    return Ok(header);
  }

  method ParseHeaderFields(raw: Slice, word: Word) returns (h: BlockHeader)
    requires |raw.bytes| == HEADER_SIZE
    ensures h == HeaderView(raw.off, raw.bytes)
    ensures h.raw == raw && EncodeHeader(h) == raw.bytes
    ensures h.version == AsI32(FromLE(raw.bytes[0..4]))
    ensures h.prevBlock == Slice(raw.off + 4, raw.bytes[4..36])
    ensures h.merkleRoot == Slice(raw.off + 36, raw.bytes[36..68])
    ensures h.timestamp == FromLE(raw.bytes[68..72])
    ensures h.bits == FromLE(raw.bytes[72..76])
    ensures h.nonce == FromLE(raw.bytes[76..80])
  {
    hide After, FromLE, EncodeHeader;
    HeaderRoundTrip(raw.off, raw.bytes);
    AfterZero(raw);
    var sub := new Cursor(raw, word);
    var version, prevBlock, merkleRoot := ParseHeaderFront(sub, raw);
    var timestamp, bits, nonce := ParseHeaderBack(sub, raw);
    h := BlockHeader(version, prevBlock, merkleRoot, timestamp, bits, nonce, raw);
  }

  method ParseHeaderFront(sub: Cursor, ghost raw: Slice) returns (version: I32, prevBlock: Slice, merkleRoot: Slice)
    requires sub.Valid() && sub.Here() == raw && |raw.bytes| == HEADER_SIZE
    modifies sub
    ensures sub.Valid() && sub.Here() == After(raw, 68)
    ensures version == AsI32(FromLE(Field(raw.bytes, 0, 4)))
    ensures prevBlock == Slice(raw.off + 4, Field(raw.bytes, 4, 32))
    ensures merkleRoot == Slice(raw.off + 36, Field(raw.bytes, 36, 32))
  {
    hide After, FromLE, Field, Num, Int32, Raw;
    FieldAt(raw, 0, 4);
    FieldAt(raw, 4, 32);
    FieldAt(raw, 36, 32);
    AfterZero(raw);
    var r0 := sub.ReadI32();
    assert r0 == Ok(AsI32(FromLE(Field(raw.bytes, 0, 4)))) && sub.Here() == After(raw, 4);
    var r1 := sub.ReadBytes(32);
    assert r1 == Ok(Slice(raw.off + 4, Field(raw.bytes, 4, 32))) && sub.Here() == After(raw, 36);
    var r2 := sub.ReadBytes(32);
    return r0.value, r1.value, r2.value;
  }

  method ParseHeaderBack(sub: Cursor, ghost raw: Slice) returns (timestamp: nat, bits: nat, nonce: nat)
    requires sub.Valid() && sub.Here() == After(raw, 68) && |raw.bytes| == HEADER_SIZE
    modifies sub
    ensures timestamp == FromLE(Field(raw.bytes, 68, 4))
    ensures bits == FromLE(Field(raw.bytes, 72, 4))
    ensures nonce == FromLE(Field(raw.bytes, 76, 4))
  {
    hide After, FromLE, Field, Num;
    FieldAt(raw, 68, 4);
    FieldAt(raw, 72, 4);
    FieldAt(raw, 76, 4);
    var r0 := sub.ReadLE(4);
    assert r0 == Ok(FromLE(Field(raw.bytes, 68, 4))) && sub.Here() == After(raw, 72);
    var r1 := sub.ReadLE(4);
    assert r1 == Ok(FromLE(Field(raw.bytes, 72, 4))) && sub.Here() == After(raw, 76);
    var r2 := sub.ReadLE(4);
    return r0.value, r1.value, r2.value;
  }

  lemma FieldAt(sl: Slice, k: nat, n: nat)
    requires k + n <= |sl.bytes|
    ensures var s := After(sl, k);
      s.off == sl.off + k && |s.bytes| == |sl.bytes| - k && s.bytes[..n] == Field(sl.bytes, k, n)
    ensures After(After(sl, k), n) == After(sl, k + n)
    ensures Raw(n).parse(After(sl, k)) == Good(Field(sl.bytes, k, n), n, [])
    ensures Num(n).parse(After(sl, k)) == Good(FromLE(Field(sl.bytes, k, n)), n, [])
    ensures n == 4 ==> Int32().parse(After(sl, k)) == Good(AsI32(FromLE(Field(sl.bytes, k, n))), n, [])
  {
    hide FromLE;
    AfterAfter(sl, k, n);
  }

  // -------------------------------------------------------- block iterator

  /** `BlockTxIter::new`. */
  method NewBlockTxIter(data: Slice, word: Word) returns (r: Result<(BlockHeader, BlockTxIter)>)
    requires |data.bytes| <= word
    ensures var p := BlockHead(word).parse(data);
      if p.Bad? then r == Err(p.error) else
        && r.Ok? && r.value.0 == HeaderView(data.off, p.value.0)
        && |data.bytes| >= 80 && r.value.0.raw == Slice(data.off, data.bytes[..80])
        && EncodeHeader(r.value.0) == data.bytes[..80]
        && var it := r.value.1;
        && fresh(it) && fresh(it.cursor) && it.Valid() && it.cursor.word == word && it.cursor.data == data
        && it.total == p.value.1.value && it.consumed == 0 && it.start == p.used
        && it.cursor.Here() == After(data, p.used)
  {
    hide CompactParse, Capped, After, HeaderView, EncodeHeader;
    AfterZero(data);
    PairReads(Raw(HEADER_SIZE), Capped(word, MAX_BLOCK_TXN), data);
    var c := new Cursor(data, word);
    var header := ParseHeader(c);
    if header.Err? {
      return Err(header.error);
    }
    CappedReads(word, MAX_BLOCK_TXN, After(data, HEADER_SIZE));
    AfterAfter(data, HEADER_SIZE, Capped(word, MAX_BLOCK_TXN).parse(After(data, HEADER_SIZE)).used);
    var total := ReadCount(c, MAX_BLOCK_TXN);
    if total.Err? {
      return Err(total.error);
    }
    var it := new BlockTxIter(c, total.value);
    return Ok((header.value, it));
  }

  class BlockTxIter {
    const cursor: Cursor
    const total: nat
    var consumed: nat
    /** Where the first transaction starts, and the transactions parsed so far. */
    ghost const start: nat
    ghost var parsed: seq<RawTx>

    /** The bytes before the cursor are exactly the transactions parsed so far. */
    ghost predicate Valid()
      reads this, cursor
    {
      && cursor.Valid() && consumed == |parsed| <= total <= MAX_BLOCK_TXN
      && HEADER_SIZE < start <= cursor.pos
      && AllOk(TxOk, parsed)
      && cursor.data.bytes[start..cursor.pos] == EncodeAll(EncodeTx, parsed)
    }

    constructor (c: Cursor, total: nat)
      requires c.Valid() && total <= MAX_BLOCK_TXN && c.pos > HEADER_SIZE
      ensures Valid() && cursor == c && this.total == total && consumed == 0 && parsed == [] && start == c.pos
    {
      cursor := c;
      this.total := total;
      consumed := 0;
      parsed := [];
      start := c.pos;
    }

    method BytesRemaining() returns (n: nat)
      requires Valid()
      ensures n == |cursor.Here().bytes|
    {
      n := cursor.Remaining();
    }

    method BytesConsumed() returns (n: nat)
      requires Valid()
      ensures n == cursor.pos && HEADER_SIZE < n && n + |cursor.Here().bytes| == |cursor.data.bytes|
    {
      n := cursor.pos;
    }

    /** In every reachable state the bytes consumed bound what was parsed, whatever the declared counts are. */
    lemma LinearBound()
      requires Valid()
      ensures 81 + 10 * consumed + 41 * InputsOf(parsed) + 9 * OutputsOf(parsed) <= cursor.pos
      ensures cursor.pos + |cursor.Here().bytes| == |cursor.data.bytes|
    {
      TxsSize(parsed);
    }

    /** One transaction: atomic, whatever fails. */
    method NextTx<S>(cb: Listener<S>) returns (r: Result<bool>)
      requires Valid()
      modifies this, cursor, cb
      ensures Valid()
      ensures old(consumed) == total ==>
        && r == Ok(false) && cursor.Moved(0) && consumed == old(consumed) && parsed == old(parsed)
        && cb.state == old(cb.state)
      ensures old(consumed) < total ==>
        var p := TxFormat(cursor.word).parse(old(cursor.Here()));
        var fed := Feed(cb.step, old(cb.state), p.events);
        && cb.state == fed.state
        && r == Verdict(fed, Reply(p, (_: RawTx) => true))
        && (if r.Ok? then
              && cursor.Moved(p.used) && consumed == old(consumed) + 1
              && p.Good? && parsed == old(parsed) + [p.value]
            else cursor.Moved(0) && consumed == old(consumed) && parsed == old(parsed))
    {
      hide TxFormat, Feed, EncodeTx, TxOk, After, EncodeAll;
      if consumed >= total {
        AfterZero(cursor.Here());
        return Ok(false);
      }
      ghost var sl := cursor.Here();
      AfterZero(sl);
      ghost var p := TxFormat(cursor.word).parse(sl);
      TxFront(cursor.word, sl);
      var remaining := cursor.AsSlice();
      var parser := new TransactionParser(remaining, cursor.word);
      var outcome := parser.ParseWith(cb);
      if outcome.Err? {
        return Err(outcome.error);
      }
      assert p.Good? && p.used <= |sl.bytes|;
      var txLen := parser.BytesConsumed();
      var skipped := cursor.Skip(txLen);
      assert skipped.Ok?;
      consumed := consumed + 1;
      SnocTx(cursor.data, start, old(cursor.pos), p.used, parsed, p.value);
      parsed := parsed + [p.value];
      return Ok(true);
    }

    /** `skip_remaining`: the pure run over the transactions that are left. */
    method SkipRemaining() returns (r: Result<()>)
      requires Valid()
      modifies this, cursor
      ensures Valid()
      ensures var run := ManyRun(Atomic(TxFormat(cursor.word)), total - old(consumed), old(cursor.Here()));
        && cursor.Moved(run.used) && consumed == old(consumed) + |run.items| && parsed == old(parsed) + run.items
        && r == Done(run) && (r.Ok? ==> consumed == total)
    {
      hide TxFormat, Feed, After, ManyRun, EncodeTx, TxOk, EncodeAll;
      ghost var f, n, sl := Atomic(TxFormat(cursor.word)), total - consumed, cursor.Here();
      ghost var past: Run<RawTx> := Run([], 0, [], None);
      MidwayStart(f, n, sl);
      AfterZero(sl);
      assert parsed == old(parsed) + past.items;
      while consumed < total
        invariant Valid() && Midway(f, n, sl, past) && consumed == old(consumed) + |past.items|
        invariant cursor.Moved(past.used) && parsed == old(parsed) + past.items
        decreases total - consumed
      {
        ghost var p := f.parse(After(sl, past.used));
        MidwayStep(f, n, sl, past);
        AfterAfter(sl, past.used, p.used);
        FeedMute(p.events);
        var ignore := new Listener<()>(Mute(), ());
        var tx := NextTx(ignore);
        if tx.Err? {
          assert p.Bad?;
          return Err(tx.error);
        }
        assert parsed == old(parsed) + (past.items + [p.value]);
        past := Join(past, Turn(p));
      }
      MidwayEnd(f, n, sl, past);
      return Ok(());
    }

    /** `finish_strict`. */
    method FinishStrict() returns (r: Result<()>)
      requires Valid()
      ensures consumed != total ==> r == Err(IncompleteTransactions(total, consumed))
      ensures consumed == total ==>
        r == if cursor.Here().bytes == [] then Ok(()) else Err(TrailingBytes(|cursor.Here().bytes|))
    {
      if consumed != total {
        return Err(IncompleteTransactions(total, consumed));
      }
      var rem := cursor.Remaining();
      if rem != 0 {
        return Err(TrailingBytes(rem));
      }
      return Ok(());
    }

    /** `consume_all_strict`: the wrapped callbacks count coinbase transactions as they stream past. */
    method ConsumeAllStrict<S>(cb: Listener<S>) returns (r: Result<()>)
      requires Valid()
      modifies this, cursor, cb
      ensures Valid()
      ensures (cb.state, r)
        == StrictRun(TxFormat(cursor.word), old(cursor.Here()), old(consumed), total, 0, cb.step, old(cb.state))
      ensures r.Ok? ==> consumed == total && cursor.Here().bytes == []
      ensures var f, sl := TxFormat(cursor.word), old(cursor.Here());
        Ends(f, sl, old(consumed), total, cb.step, old(cb.state), cb.state, r)
    {
      hide TxFormat, Telling, Feed, After, EncodeTx, TxOk, EncodeAll, WatchStep, IsCoinbaseTx;
      hide Ends;
      var coinbaseTxs := 0;
      var step := cb.step;
      ghost var f := TxFormat(cursor.word);
      ghost var all := StrictRun(f, cursor.Here(), consumed, total, 0, step, cb.state);
      TellingTx(cursor.word);
      StrictEnds(f, cursor.Here(), consumed, total, step, cb.state);
      ghost var done: seq<RawTx> := [];
      assert parsed == old(parsed) + done;
      while consumed < total
        invariant Valid() && consumed == old(consumed) + |done| && parsed == old(parsed) + done
        invariant coinbaseTxs <= 1
        invariant coinbaseTxs == 1 <==> old(consumed) == 0 && done != [] && IsCoinbaseTx(done[0])
        invariant all == StrictRun(f, cursor.Here(), consumed, total, coinbaseTxs, step, cb.state)
        decreases total - consumed
      {
        var txIndex := consumed;
        ghost var p := f.parse(cursor.Here());
        CountTurn(f, cursor.Here(), old(consumed), done, coinbaseTxs, step, cb.state);
        var wrapped := new Listener<Watch<S>>(Watched(step, txIndex), Watch(cb.state, false, false, coinbaseTxs));
        var tx := NextTx(wrapped);
        cb.state := wrapped.state.user;
        coinbaseTxs := wrapped.state.coinbaseTxs;
        if tx.Err? {
          return Err(tx.error);
        }
        assert parsed == old(parsed) + (done + [p.value]);
        done := done + [p.value];
      }
      var finished := FinishStrict();
      if finished.Err? {
        return finished;
      }
      if coinbaseTxs != 1 {
        return Err(InvalidCoinbaseCount(coinbaseTxs));
      }
      return Ok(());
    }
  }

  /** `while iter.next_tx(..)? {}`, the client loop. */
  method ForEachTx<S>(it: BlockTxIter, cb: Listener<S>) returns (r: Result<()>)
    requires it.Valid()
    modifies it, it.cursor, cb
    ensures it.Valid()
    ensures var f, left := TxFormat(it.cursor.word), it.total - old(it.consumed);
      var run := StreamRun(f, left, old(it.cursor.Here()), cb.step, old(cb.state));
      && cb.state == run.state && it.cursor.Moved(run.used) && it.parsed == old(it.parsed) + run.txs
      && r == if run.error.Some? then Err(run.error.value) else Ok(())
  {
    hide TxFormat, Feed, After, StreamRun, EncodeTx, TxOk, EncodeAll;
    ghost var f, sl := TxFormat(it.cursor.word), it.cursor.Here();
    ghost var all := StreamRun(f, it.total - it.consumed, sl, cb.step, cb.state);
    ghost var txs: seq<RawTx>, used: nat := [], 0;
    AfterZero(sl);
    assert [] + all.txs == all.txs && it.parsed + [] == it.parsed;
    while true
      invariant it.Valid() && it.cursor.Moved(used) && it.parsed == old(it.parsed) + txs
      invariant all == Extend(txs, used, StreamRun(f, it.total - it.consumed, After(sl, used), cb.step, cb.state))
      decreases it.total - it.consumed
    {
      ghost var here, n, p := After(sl, used), it.total - it.consumed, f.parse(After(sl, used));
      StreamTurn(f, n, here, cb.step, cb.state);
      AfterAfter(sl, used, p.used);
      assert txs + [] == txs;
      var more := it.NextTx(cb);
      if more.Err? {
        return Err(more.error);
      }
      if !more.value {
        return Ok(());
      }
      ExtendExtend(txs, used, [p.value], p.used, StreamRun(f, n - 1, After(here, p.used), cb.step, cb.state));
      assert it.parsed == old(it.parsed) + (txs + [p.value]);
      txs, used := txs + [p.value], used + p.used;
    }
  }

  /** A transaction that parses is an encoding at the front of the slice. */
  lemma TxFront(w: Word, sl: Slice)
    ensures var p := TxFormat(w).parse(sl);
      p.Good? ==> p.used <= |sl.bytes| && TxOk(p.value) && EncodeTx(p.value) == sl.bytes[..p.used]
  {
    hide EncodeTx, TxOk;
    LawfulTx(w);
    assert SoundAt(TxFormat(w), sl);
  }

  lemma SnocTx(data: Slice, start: nat, pos: nat, n: nat, txs: seq<RawTx>, t: RawTx)
    requires start <= pos && pos + n <= |data.bytes| && AllOk(TxOk, txs) && TxOk(t)
    requires n <= |After(data, pos).bytes| && After(data, pos).bytes[..n] == EncodeTx(t)
    requires data.bytes[start..pos] == EncodeAll(EncodeTx, txs)
    ensures data.bytes[start..pos + n] == EncodeAll(EncodeTx, txs + [t]) && AllOk(TxOk, txs + [t])
  {
    hide EncodeTx, TxOk;
    EncodeSnoc(EncodeTx, txs, t);
    assert data.bytes[start..pos + n] == data.bytes[start..pos] + After(data, pos).bytes[..n];
  }
}
