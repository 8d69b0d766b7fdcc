/** The transaction parser: parse methods advancing one cursor, the streaming parser with
    its callbacks, and witnesses. */
module Transactions {
  import opened Bytes
  import opened Types
  import opened Formats
  import opened Primitives
  import opened Wire
  import opened Reads
  import opened Callbacks
  import opened Cursors
  import opened Tallies

  // --------------------------------------------- inputs, outputs and scripts

  function OutPointView(b: nat, v: (seq<Byte>, nat)): OutPoint {
    OutPoint(Slice(b, v.0), v.1)
  }

  method ParseOutPoint(c: Cursor) returns (r: Result<OutPoint>)
    requires c.Valid()
    modifies c
    ensures var b, p := old(c.Here()).off, OutPointFormat().parse(old(c.Here()));
      c.Moved(p.used) && r == Reply(p, (v: (seq<Byte>, nat)) => OutPointView(b, v))
  {
    PairReads(Raw(32), Num(4), c.Here());
    var txid := c.ReadBytes(32);
    if txid.Err? {
      return Err(txid.error);
    }
    var vout := c.ReadLE(4);
    if vout.Err? {
      return Err(vout.error);
    }
    return Ok(OutPoint(txid.value, vout.value));
  }

  function ScriptView(b: nat, v: VarBytes): Slice {
    Slice(b + |EncodeCompact(v.len)|, v.bytes)
  }

  method ParseScript(c: Cursor) returns (r: Result<Slice>)
    requires c.Valid()
    modifies c
    ensures var b, p := old(c.Here()).off, ScriptFormat(c.word).parse(old(c.Here()));
      c.Moved(p.used) && r == Reply(p, (v: VarBytes) => ScriptView(b, v))
  {
    r := c.ReadVarBytes(MAX_SCRIPT_SIZE);
  }

  method ParseInput(c: Cursor) returns (r: Result<TxInput>)
    requires c.Valid()
    modifies c
    ensures var b, p := old(c.Here()).off, InputFormat(c.word).parse(old(c.Here()));
      c.Moved(p.used) && r == Reply(p, (v: RawInput) => InputView(b, v))
  {
    hide InputFormat, OutPointFormat, VarBytesFormat, EncodeCompact, After, Num;
    ghost var sl, x := c.Here(), OutPointFormat().parse(c.Here());
    ghost var y := ScriptFormat(c.word).parse(After(sl, 36));
    ghost var z := Num(4).parse(After(sl, 36 + y.used));
    InputReads(c.word, sl);
    AfterAfter(sl, 36, y.used);
    AfterAfter(sl, 36 + y.used, z.used);
    var previousOutput := ParseOutPoint(c);
    if previousOutput.Err? {
      return Err(previousOutput.error);
    }
    assert x.Good? && previousOutput.value == OutPointView(sl.off, x.value) && c.Here() == After(sl, 36);
    var scriptSig := ParseScript(c);
    if scriptSig.Err? {
      return Err(scriptSig.error);
    }
    assert y.Good? && scriptSig.value == ScriptView(sl.off + 36, y.value) && c.Here() == After(sl, 36 + y.used);
    var sequence := c.ReadLE(4);
    if sequence.Err? {
      return Err(sequence.error);
    }
    assert z.Good? && sequence.value == z.value;
    return Ok(TxInput(previousOutput.value, scriptSig.value, sequence.value));
  }

  method ParseOutput(c: Cursor) returns (r: Result<TxOutput>)
    requires c.Valid()
    modifies c
    ensures var b, p := old(c.Here()).off, OutputFormat(c.word).parse(old(c.Here()));
      c.Moved(p.used) && r == Reply(p, (v: RawOutput) => OutputView(b, v))
  {
    hide OutputFormat, ScriptFormat, EncodeCompact, After;
    ghost var sl, x := c.Here(), Num(8).parse(c.Here());
    OutputReads(c.word, sl);
    var value := c.ReadLE(8);
    if value.Err? {
      return Err(value.error);
    }
    assert x.Good? && value.value == x.value && x.used == 8;
    ghost var y := ScriptFormat(c.word).parse(After(sl, x.used));
    AfterAfter(sl, x.used, y.used);
    var scriptPubKey := ParseScript(c);
    if scriptPubKey.Err? {
      return Err(scriptPubKey.error);
    }
    assert y.Good? && scriptPubKey.value == ScriptView(sl.off + 8, y.value);
    return Ok(TxOutput(value.value, scriptPubKey.value));
  }

  // ------------------------------------------------------- marker and counts

  /** The rest of a CompactSize integer whose first byte has been read: together, one `read_varint`. */
  method VarintFromFirst(c: Cursor, first: Byte) returns (r: Result<nat>)
    requires c.Valid()
    modifies c
    ensures var p := CompactParse([first] + old(c.Here()).bytes);
      p.used >= 1 && c.Moved(p.used - 1) && r == Reply(p, (v: Compact) => v.value)
  {
    if first <= 0xFC {
      return Ok(first);
    }
    var k := if first == 0xFD then 2 else if first == 0xFE then 4 else 8;
    ghost var tail := c.Here().bytes;
    assert k <= |tail| ==> tail[..k] == ([first] + tail)[1..1 + k];
    r := c.ReadLE(k);
  }

  /** The first byte, and the flag after a zero. */
  method ReadMarker(c: Cursor) returns (r: Result<Byte>)
    requires c.Valid()
    modifies c
    ensures var s := old(c.Here()).bytes;
      if s == [] then c.Moved(0) && r == Err(UnexpectedEof(1, 0))
      else if s[0] != 0 then c.Moved(1) && r == Ok(s[0])
      else if |s| == 1 then c.Moved(1) && r == Err(UnexpectedEof(1, 0))
      else c.Moved(2) && r == if s[1] == 1 then Ok(0) else Err(InvalidSegwitFlag(s[1]))
  {
    var firstByte := c.ReadU8();
    if firstByte.Err? || firstByte.value != 0 {
      return firstByte;
    }
    var flag := c.ReadU8();
    if flag.Err? {
      return Err(flag.error);
    }
    return if flag.value != 1 then Err(InvalidSegwitFlag(flag.value)) else Ok(firstByte.value);
  }

  /** The input count, of which a legacy transaction has already read the first byte. */
  method ReadInputVarint(c: Cursor, first: Byte) returns (r: Result<nat>)
    requires c.Valid()
    modifies c
    ensures var seen := if first == 0 then [] else [first];
      var p := CompactParse(seen + old(c.Here()).bytes);
      p.used >= |seen| && c.Moved(p.used - |seen|) && r == Reply(p, (v: Compact) => v.value)
  {
    if first == 0 {
      assert [] + c.Here().bytes == c.Here().bytes;
      r := c.ReadVarint();
    } else {
      r := VarintFromFirst(c, first);
    }
  }

  /** The input count, with its checks; `sl` is where the marker byte was read. */
  method ReadInputCount(c: Cursor, first: Byte, ghost sl: Slice) returns (r: Result<nat>)
    requires c.Valid() && sl.bytes != [] && sl.bytes[0] == first
    requires first == 0 ==> |sl.bytes| >= 2 && sl.bytes[1] == 1
    requires c.Here() == After(sl, if first == 0 then 2 else 1)
    modifies c
    ensures var p, k := HeadFormat(c.word).parse(sl), if first == 0 then 2 else 1;
      && p.used >= k && c.Moved(p.used - k) && (p.Good? ==> p.value.segwit == (first == 0))
      && r == Reply(p, (h: TxHead) => h.count.value)
  {
    hide CompactParse, HeadFormat, After;
    HeadReads(c.word, sl, first == 0);
    FirstSeen(sl);
    ghost var x := CompactParse(After(sl, if first == 0 then 2 else 0).bytes);
    var count := ReadInputVarint(c, first);
    if count.Err? {
      return Err(count.error);
    }
    assert x.Good? && count.value == x.value.value;
    if count.value > c.word {
      return Err(IntegerTooLarge(count.value));
    }
    if count.value == 0 {
      return Err(InvalidInputCount);
    }
    if count.value > MAX_IO_COUNT {
      return Err(OversizedData(count.value, MAX_IO_COUNT));
    }
    return Ok(count.value);
  }

  /** A nonzero first byte belongs to the count. */
  lemma FirstSeen(sl: Slice)
    requires sl.bytes != [] && (sl.bytes[0] == 0 ==> |sl.bytes| >= 2)
    ensures sl.bytes[0] == 0 ==> [] + After(sl, 2).bytes == After(sl, 2).bytes
    ensures sl.bytes[0] != 0 ==> [sl.bytes[0]] + After(sl, 1).bytes == After(sl, 0).bytes
  {
  }

  /** Is the transaction SegWit, and how many inputs has it? */
  method ReadHead(c: Cursor) returns (r: Result<(bool, nat)>)
    requires c.Valid()
    modifies c
    ensures var p := HeadFormat(c.word).parse(old(c.Here()));
      c.Moved(p.used) && r == Reply(p, (h: TxHead) => (h.segwit, h.count.value))
  {
    ghost var sl := c.Here();
    var marker := ReadMarker(c);
    if marker.Err? {
      return Err(marker.error);
    }
    ghost var k := if marker.value == 0 then 2 else 1;
    var count := ReadInputCount(c, marker.value, sl);
    ghost var p := HeadFormat(c.word).parse(sl);
    assert p.Bad? <==> count.Err?;
    AfterAfter(sl, k, p.used - k);
    if count.Err? {
      assert p.error == count.error;
      return Err(count.error);
    }
    return Ok((marker.value == 0, count.value));
  }

  /** A count with a cap: `read_varint`, `try_into::<usize>` and the comparison. */
  method ReadCount(c: Cursor, cap: nat) returns (r: Result<nat>)
    requires c.Valid()
    modifies c
    ensures var p := Capped(c.word, cap).parse(old(c.Here()));
      c.Moved(p.used) && r == Reply(p, (v: Compact) => v.value)
  {
    hide CompactParse;
    ghost var x := CompactParse(c.Here().bytes);
    assert Capped(c.word, cap).parse(c.Here()) == Vetted(x, CapCheck(c.word, cap));
    var count := c.ReadVarint();
    if count.Err? {
      return Err(count.error);
    }
    assert x.Good? && count.value == x.value.value;
    if count.value > c.word {
      return Err(IntegerTooLarge(count.value));
    }
    if count.value > cap {
      return Err(OversizedData(count.value, cap));
    }
    return Ok(count.value);
  }

  // -------------------------------------------------------- streaming loops

  function Done<T>(run: Run<T>): Result<()> {
    if run.error.Some? then Err(run.error.value) else Ok(())
  }

  /** Where the cursor ends: after what was read, or just past the input or output that a callback refused. */
  twostate predicate Landed<S>(c: Cursor, events: seq<Event>, fed: Fed<S>, used: nat)
    reads c
  {
    if fed.error.None? then c.Moved(used) else
      && old(c.Valid()) && c.Valid() && 0 < fed.heard <= |events| && c.Here().off == events[fed.heard - 1].End()
  }

  method ReadInputs<S>(c: Cursor, n: nat, cb: Listener<S>) returns (r: Result<()>)
    requires c.Valid()
    modifies c, cb
    ensures var run := ManyRun(InputFormat(c.word), n, old(c.Here()));
      var fed := Feed(cb.step, old(cb.state), run.events);
      cb.state == fed.state && Landed(c, run.events, fed, run.used) && r == Verdict(fed, Done(run))
  {
    hide InputFormat, InputView, ManyRun, After, Feed, Streaming;
    ghost var f, sl := InputFormat(c.word), c.Here();
    ghost var past: Run<RawInput> := Run([], 0, [], None);
    StreamingStart(f, n, sl, cb.step, cb.state);
    AfterZero(sl);
    for i := 0 to n
      invariant |past.items| == i && Streaming(f, n, sl, past, cb.step, old(cb.state), cb.state)
      invariant c.Moved(past.used)
    {
      ghost var p := f.parse(After(sl, past.used));
      InputEventsRead(c.word, After(sl, past.used));
      StreamingStep(f, n, sl, past, cb.step, old(cb.state), cb.state);
      AfterAfter(sl, past.used, p.used);
      var input := ParseInput(c);
      if input.Err? {
        return Err(input.error);
      }
      assert p.events == [OnInput(input.value)] && c.Here().off == p.events[0].End();
      var heard := cb.Hear(OnInput(input.value));
      if heard.Err? {
        return heard;
      }
      past := Join(past, Turn(p));
    }
    StreamingEnd(f, n, sl, past, cb.step, old(cb.state), cb.state);
    return Ok(());
  }

  method ReadOutputs<S>(c: Cursor, n: nat, cb: Listener<S>) returns (r: Result<()>)
    requires c.Valid()
    modifies c, cb
    ensures var run := ManyRun(OutputFormat(c.word), n, old(c.Here()));
      var fed := Feed(cb.step, old(cb.state), run.events);
      cb.state == fed.state && Landed(c, run.events, fed, run.used) && r == Verdict(fed, Done(run))
  {
    hide OutputFormat, OutputView, ManyRun, After, Feed, Streaming;
    ghost var f, sl := OutputFormat(c.word), c.Here();
    ghost var past: Run<RawOutput> := Run([], 0, [], None);
    StreamingStart(f, n, sl, cb.step, cb.state);
    AfterZero(sl);
    for i := 0 to n
      invariant |past.items| == i && Streaming(f, n, sl, past, cb.step, old(cb.state), cb.state)
      invariant c.Moved(past.used)
    {
      ghost var p := f.parse(After(sl, past.used));
      OutputEventsRead(c.word, After(sl, past.used));
      StreamingStep(f, n, sl, past, cb.step, old(cb.state), cb.state);
      AfterAfter(sl, past.used, p.used);
      var output := ParseOutput(c);
      if output.Err? {
        return Err(output.error);
      }
      assert p.events == [OnOutput(output.value)] && c.Here().off == p.events[0].End();
      var heard := cb.Hear(OnOutput(output.value));
      if heard.Err? {
        return heard;
      }
      past := Join(past, Turn(p));
    }
    StreamingEnd(f, n, sl, past, cb.step, old(cb.state), cb.state);
    return Ok(());
  }

  // ------------------------------------------------------------- witnesses

  /** The whole witness field, and its declared number of items. */
  datatype Witness = Witness(raw: Slice, itemCount: nat) {

    /** `Witness::items`: the count is skipped, and a failure to read it is ignored. */
    method Items(word: Word) returns (it: WitnessIter)
      requires |raw.bytes| <= word
      ensures fresh(it) && fresh(it.cursor) && it.Valid() && it.cursor.word == word
      ensures it.remaining == itemCount && it.cursor.Here() == After(raw, CompactParse(raw.bytes).used)
    {
      hide CompactParse;
      CompactUsed(raw.bytes);
      AfterZero(raw);
      var skipCursor := new Cursor(raw, word);
      var _ := skipCursor.ReadVarint();
      var tail := Slice(raw.off + skipCursor.pos, raw.bytes[skipCursor.pos..]);
      it := new WitnessIter(tail, word, itemCount);
    }
  }

  /** `Witness::parse`, over a sub-cursor of its own. */
  method ParseWitness(data: Slice, word: Word) returns (r: Result<(Witness, nat)>)
    requires |data.bytes| <= word
    ensures match WitnessFormat(word).parse(data)
      case Bad(e, _, _) => r == Err(e)
      case Good(v, n, _) => n <= |data.bytes| && r == Ok((Witness(Slice(data.off, data.bytes[..n]), |v.items|), n))
  {
    hide VarBytesFormat, WitnessFormat, EncodeCompact, ManyRun, Midway, After, Capped;
    ghost var f := WitnessItemFormat(word);
    WitnessReads(word, data);
    AfterZero(data);
    var c := new Cursor(data, word);
    var count := ReadCount(c, MAX_WITNESS_ITEMS);
    if count.Err? {
      return Err(count.error);
    }
    ghost var h := Capped(word, MAX_WITNESS_ITEMS).parse(data);
    assert h.Good? && count.value == h.value.value;
    ghost var sl := c.Here();
    ghost var past: Run<VarBytes> := Run([], 0, [], None);
    MidwayStart(f, count.value, sl);
    AfterZero(sl);
    for i := 0 to count.value
      invariant |past.items| == i && Midway(f, count.value, sl, past)
      invariant c.Valid() && c.word == word && c.pos == h.used + past.used && c.Here() == After(sl, past.used)
    {
      ghost var p := f.parse(After(sl, past.used));
      MidwayStep(f, count.value, sl, past);
      AfterAfter(sl, past.used, p.used);
      var item := c.ReadVarBytes(MAX_WITNESS_ITEM_SIZE);
      if item.Err? {
        return Err(item.error);
      }
      past := Join(past, Turn(p));
    }
    MidwayEnd(f, count.value, sl, past);
    return Ok((Witness(Slice(data.off, data.bytes[..c.pos]), count.value), c.pos));
  }

  /** `WitnessIter`. */
  class WitnessIter {
    const cursor: Cursor
    var remaining: nat

    ghost predicate Valid()
      reads this, cursor
    {
      cursor.Valid()
    }

    constructor (data: Slice, word: Word, remaining: nat)
      requires |data.bytes| <= word
      ensures Valid() && fresh(cursor) && cursor.word == word && cursor.Here() == data && this.remaining == remaining
    {
      AfterZero(data);
      cursor := new Cursor(data, word);
      this.remaining := remaining;
    }

    method Next() returns (r: Option<Result<Slice>>)
      requires Valid()
      modifies this, cursor
      ensures Valid()
      ensures old(remaining) == 0 ==> r == None && remaining == 0 && cursor.Moved(0)
      ensures old(remaining) > 0 ==>
        var b, p := old(cursor.Here()).off, WitnessItemFormat(cursor.word).parse(old(cursor.Here()));
        && remaining == old(remaining) - 1 && cursor.Moved(p.used)
        && r == Some(Reply(p, (v: VarBytes) => ScriptView(b, v)))
    {
      hide VarBytesFormat, After, EncodeCompact;
      AfterZero(cursor.Here());
      if remaining == 0 {
        return None;
      }
      remaining := remaining - 1;
      var item := cursor.ReadVarBytes(MAX_WITNESS_ITEM_SIZE);
      return Some(item);
    }
  }

  // ------------------------------------------------------ the whole parser

  /** One witness for each of `n` inputs, parsed over `as_slice` and skipped: the skip never fails. */
  method ReadWitnesses(c: Cursor, n: nat) returns (r: Result<()>)
    requires c.Valid()
    modifies c
    ensures var run := ManyRun(Atomic(WitnessFormat(c.word)), n, old(c.Here()));
      c.Moved(run.used) && r == Done(run)
  {
    hide WitnessFormat, ManyRun, After;
    ghost var f, sl := Atomic(WitnessFormat(c.word)), c.Here();
    ghost var past: Run<RawWitness> := Run([], 0, [], None);
    MidwayStart(f, n, sl);
    AfterZero(sl);
    for i := 0 to n
      invariant |past.items| == i && Midway(f, n, sl, past)
      invariant c.Moved(past.used)
    {
      ghost var p := f.parse(After(sl, past.used));
      MidwayStep(f, n, sl, past);
      AfterAfter(sl, past.used, p.used);
      var data := c.AsSlice();
      var parsed := ParseWitness(data, c.word);
      if parsed.Err? {
        return Err(parsed.error);
      }
      ghost var w := WitnessFormat(c.word).parse(data);
      assert w.Good? && parsed.value.1 == w.used <= |data.bytes|;
      var skipped := c.Skip(parsed.value.1);
      assert skipped.Ok?;
      past := Join(past, Turn(p));
    }
    MidwayEnd(f, n, sl, past);
    return Ok(());
  }

  /** From the witnesses on: the lock time. */
  method ReadEnd(c: Cursor, n: nat) returns (r: Result<nat>)
    requires c.Valid()
    modifies c
    ensures var p := EndFormat(c.word, n).parse(old(c.Here()));
      c.Moved(p.used) && r == Reply(p, (v: TxEnd) => v.locktime)
  {
    hide EndFormat, ManyRun, WitnessFormat, After, Num;
    ghost var sl := c.Here();
    ghost var l := ManyRun(Atomic(WitnessFormat(c.word)), n, sl);
    EndReads(c.word, n, sl);
    var witnesses := ReadWitnesses(c, n);
    if witnesses.Err? {
      return Err(witnesses.error);
    }
    assert l.error.None?;
    AfterAfter(sl, l.used, Num(4).parse(After(sl, l.used)).used);
    r := c.ReadLE(4);
  }

  /** From the output count on: the number of outputs and the lock time. */
  method ReadOuts<S>(c: Cursor, n: nat, cb: Listener<S>) returns (r: Result<(nat, nat)>)
    requires c.Valid()
    modifies c, cb
    ensures var p := OutsFormat(c.word, n).parse(old(c.Here()));
      var fed := Feed(cb.step, old(cb.state), p.events);
      && cb.state == fed.state && Landed(c, p.events, fed, p.used)
      && r == Verdict(fed, Reply(p, (v: TxOuts) => (|v.outputs|, v.end.locktime)))
  {
    hide OutsFormat, OutputFormat, EndFormat, ManyRun, Capped, After, Feed;
    ghost var sl, h := c.Here(), Capped(c.word, MAX_IO_COUNT).parse(c.Here());
    OutsReads(c.word, n, sl);
    FeedNothing(cb.step, cb.state);
    var count := ReadCount(c, MAX_IO_COUNT);
    if count.Err? {
      return Err(count.error);
    }
    assert h.Good? && count.value == h.value.value;
    ghost var l := ManyRun(OutputFormat(c.word), count.value, After(sl, h.used));
    AfterAfter(sl, h.used, l.used);
    var outputs := ReadOutputs(c, count.value, cb);
    if outputs.Err? {
      return Err(outputs.error);
    }
    assert l.error.None? && Feed(cb.step, old(cb.state), l.events).error.None?;
    FullRun(OutputFormat(c.word), count.value, After(sl, h.used));
    AfterAfter(sl, h.used + l.used, EndFormat(c.word, n).parse(After(After(sl, h.used), l.used)).used);
    var locktime := ReadEnd(c, n);
    if locktime.Err? {
      return Err(locktime.error);
    }
    return Ok((count.value, locktime.value));
  }

  /** What `parse_with` returns: version, lock time, input count and output count. */
  function Summary(t: RawTx): (I32, nat, nat, nat) {
    (t.version, t.ins.outs.end.locktime, |t.Inputs()|, |t.Outputs()|)
  }

  /** From the marker on: the lock time, the number of inputs and the number of outputs. */
  method ReadIns<S>(c: Cursor, cb: Listener<S>) returns (r: Result<(nat, nat, nat)>)
    requires c.Valid()
    modifies c, cb
    ensures var p := InsFormat(c.word).parse(old(c.Here()));
      var fed := Feed(cb.step, old(cb.state), p.events);
      && cb.state == fed.state && Landed(c, p.events, fed, p.used)
      && r == Verdict(fed, Reply(p, (v: TxIns) => (v.outs.end.locktime, |v.inputs|, |v.outs.outputs|)))
  {
    hide InsFormat, InputFormat, OutsFormat, HeadFormat, ManyRun, After, Feed;
    ghost var sl, h := c.Here(), HeadFormat(c.word).parse(c.Here());
    InsReads(c.word, sl);
    FeedNothing(cb.step, cb.state);
    var head := ReadHead(c);
    if head.Err? {
      return Err(head.error);
    }
    assert h.Good? && head.value == (h.value.segwit, h.value.count.value);
    var (isSegwit, count) := head.value;
    ghost var l := ManyRun(InputFormat(c.word), count, After(sl, h.used));
    AfterAfter(sl, h.used, l.used);
    var inputs := ReadInputs(c, count, cb);
    ghost var fed := Feed(cb.step, old(cb.state), l.events);
    var witnessCount := if isSegwit then count else 0;
    ghost var e := OutsFormat(c.word, witnessCount).parse(After(After(sl, h.used), l.used));
    FeedConcat(cb.step, old(cb.state), l.events, e.events);
    if inputs.Err? {
      return Err(inputs.error);
    }
    assert l.error.None? && fed.error.None?;
    FullRun(InputFormat(c.word), count, After(sl, h.used));
    AfterAfter(sl, h.used + l.used, e.used);
    var rest := ReadOuts(c, witnessCount, cb);
    if rest.Err? {
      return Err(rest.error);
    }
    return Ok((rest.value.1, count, rest.value.0));
  }

  class TransactionParser {
    const cursor: Cursor

    ghost predicate Valid()
      reads cursor
    {
      cursor.Valid()
    }

    constructor (data: Slice, word: Word)
      requires |data.bytes| <= word
      ensures Valid() && fresh(cursor) && cursor.word == word && cursor.pos == 0 && cursor.Here() == data
    {
      AfterZero(data);
      cursor := new Cursor(data, word);
    }

    method BytesConsumed() returns (n: nat)
      requires Valid()
      ensures n == cursor.pos && n + |cursor.Here().bytes| == |cursor.data.bytes|
    {
      n := cursor.pos;
    }

    /** The pure run of the transaction format, cut short where a callback fails. */
    method ParseWith<S>(cb: Listener<S>) returns (r: Result<(I32, nat, nat, nat)>)
      requires Valid()
      modifies cursor, cb
      ensures Valid()
      ensures var p := TxFormat(cursor.word).parse(old(cursor.Here()));
        var fed := Feed(cb.step, old(cb.state), p.events);
        && cb.state == fed.state && Landed(cursor, p.events, fed, p.used)
        && r == Verdict(fed, Reply(p, (t: RawTx) => Summary(t)))
      ensures var p, s := TxFormat(cursor.word).parse(old(cursor.Here())), old(cursor.Here()).bytes;
        r.Ok? ==>
          && p.Good? && 8 <= p.used <= |s|
          && LE(4, OfI32(r.value.0)) == s[..4] && LE(4, r.value.1) == s[p.used - 4..p.used]
          && r.value.2 == InputCalls(p.events) && r.value.3 == OutputCalls(p.events)
    {
      hide TxFormat, InsFormat, After, Feed, LE, OfI32, InputCalls, OutputCalls;
      TxTold(cursor.word, cursor.Here());
      var c := cursor;
      ghost var sl, v := c.Here(), Int32().parse(c.Here());
      TxReads(c.word, sl);
      FeedNothing(cb.step, cb.state);
      var version := c.ReadI32();
      if version.Err? {
        return Err(version.error);
      }
      assert v.Good? && version.value == v.value;
      AfterAfter(sl, v.used, InsFormat(c.word).parse(After(sl, v.used)).used);
      var rest := ReadIns(c, cb);
      if rest.Err? {
        return Err(rest.error);
      }
      return Ok((version.value, rest.value.0, rest.value.1, rest.value.2));
    }
  }
}
