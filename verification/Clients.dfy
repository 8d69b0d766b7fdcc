/** Whole programs over the public interface, from the bytes of a block to the caller's result. */
module Clients {
  import opened Bytes
  import opened Types
  import opened Formats
  import opened Primitives
  import opened Wire
  import opened BlockWire
  import opened Callbacks
  import opened Cursors
  import opened Streams
  import opened Strictness
  import opened Refusals
  import opened Transactions
  import opened TxProofs
  import opened Blocks
  import opened Serial
  import opened Views
  import opened Platform

  // --------------------------------------------------------------- streaming

  /** What a caller gets from iterating over all transactions: the bytes left over, or the first error. */
  function StreamBlock<S>(w: Word, data: Slice, step: Step<S>, st: S): (S, Result<nat>) {
    var h := BlockHead(w).parse(data);
    if h.Bad? then (st, Err(h.error)) else
      var run := StreamRun(TxFormat(w), h.value.1.value, After(data, h.used), step, st);
      (run.state,
       if run.error.Some? then Err(run.error.value) else Ok(|After(After(data, h.used), run.used).bytes|))
  }

  method IterateBlock<S>(data: Slice, word: Word, cb: Listener<S>) returns (r: Result<nat>)
    requires |data.bytes| <= word
    modifies cb
    ensures (cb.state, r) == StreamBlock(word, data, cb.step, old(cb.state))
  {
    hide BlockHead, TxFormat, StreamRun, After, EncodeTx, TxOk, EncodeAll, HeaderView;
    var made := NewBlockTxIter(data, word);
    if made.Err? {
      return Err(made.error);
    }
    var it := made.value.1;
    var done := ForEachTx(it, cb);
    if done.Err? {
      return Err(done.error);
    }
    var left := it.BytesRemaining();
    return Ok(left);
  }

  /** The stack of nested cursors and parsers over sub-slices is one flat reader of whole blocks: the callbacks hear its
      events until they refuse one, and then the caller gets that error, or else the reader's own. */
  lemma StreamBlockIsFlat<S>(w: Word, data: Slice, step: Step<S>, st: S)
    ensures var p := BlockFormat(w).parse(data);
      var fed := Feed(step, st, p.events);
      && (p.Good? ==> p.used <= |data.bytes|)
      && StreamBlock(w, data, step, st) ==
         (fed.state, Verdict(fed, if p.Bad? then Err(p.error) else Ok(|data.bytes| - p.used)))
  {
    hide BlockHead, BlockShape, TxFormat, StreamRun, ManyRun, Feed;
    BlockReads(w, data);
    UsedWithin(w, data);
    FeedNothing(step, st);
    var h := BlockHead(w).parse(data);
    if h.Good? {
      var n, sl := h.value.1.value, After(data, h.used);
      LawfulTx(w);
      NestedIsFlat(TxFormat(w), n, sl);
      StreamDecomposes(TxFormat(w), n, sl, step, st);
      AfterAfter(data, h.used, ManyRun(TxFormat(w), n, sl).used);
    }
  }

  /** Callbacks that write down what they can read through the slices they are given. */
  function Recorder(): Step<seq<Heard>> {
    (st: seq<Heard>, e: Event) => (st + [Content(e)], None)
  }

  lemma {:induction false} FeedRecorder(st: seq<Heard>, events: seq<Event>)
    ensures Feed(Recorder(), st, events) == Fed(st + MapSeq(Content, events), |events|, None)
    decreases |events|
  {
    if events == [] {
      assert st + MapSeq(Content, events) == st;
    } else {
      FeedRecorder(st + [Content(events[0])], events[1..]);
      assert st + MapSeq(Content, events) == (st + [Content(events[0])]) + MapSeq(Content, events[1..]);
    }
  }

  /** What a transaction makes a recorder write down. */
  function Group(t: RawTx): seq<Heard> {
    TxContent(TxOf(t))
  }

  lemma GroupHeard(w: Word, sl: Slice)
    ensures var p := TxFormat(w).parse(sl);
      Feed(Recorder(), [], p.events).error.None? && (p.Good? ==> Feed(Recorder(), [], p.events).state == Group(p.value))
  {
    hide TxShape, EncodeTx, TxOk, TxEvents, TxContent, TxOf;
    var p := TxFormat(w).parse(sl);
    LawfulTx(w);
    assert SoundAt(TxFormat(w), sl);
    FeedRecorder([], p.events);
    assert [] + MapSeq(Content, p.events) == MapSeq(Content, p.events);
    if p.Good? {
      TxHeard(w, sl.off, p.value);
    }
  }

  /** The `next_tx` loop with a recorder of its own for each transaction: the groups are the completed transactions. */
  method GroupTxs(it: BlockTxIter) returns (groups: seq<seq<Heard>>, r: Result<()>)
    requires it.Valid()
    modifies it, it.cursor
    ensures it.Valid()
    ensures var run := ManyRun(Atomic(TxFormat(it.cursor.word)), it.total - old(it.consumed), old(it.cursor.Here()));
      it.cursor.Moved(run.used) && groups == MapSeq(Group, run.items) && r == Done(run)
  {
    hide TxFormat, Feed, After, ManyRun, EncodeTx, TxOk, EncodeAll, Group;
    ghost var f, n, sl := Atomic(TxFormat(it.cursor.word)), it.total - it.consumed, it.cursor.Here();
    ghost var past: Run<RawTx> := Run([], 0, [], None);
    MidwayStart(f, n, sl);
    AfterZero(sl);
    groups := [];
    while it.consumed < it.total
      invariant it.Valid() && Midway(f, n, sl, past) && it.consumed == old(it.consumed) + |past.items|
      invariant it.cursor.Moved(past.used) && groups == MapSeq(Group, past.items)
      decreases it.total - it.consumed
    {
      ghost var p := f.parse(After(sl, past.used));
      MidwayStep(f, n, sl, past);
      AfterAfter(sl, past.used, p.used);
      GroupHeard(it.cursor.word, After(sl, past.used));
      assert past.items + [] == past.items;
      var recorder := new Listener(Recorder(), []);
      var tx := it.NextTx(recorder);
      if tx.Err? {
        assert p.Bad?;
        return groups, Err(tx.error);
      }
      groups := groups + [recorder.state];
      past := Join(past, Turn(p));
    }
    MidwayEnd(f, n, sl, past);
    return groups, Ok(());
  }

  /** All of a block, transaction by transaction. */
  method IterateGrouped(data: Slice, word: Word) returns (groups: seq<seq<Heard>>, left: Result<nat>)
    requires |data.bytes| <= word
    ensures var p := BlockFormat(word).parse(data);
      if p.Bad? then left == Err(p.error) else
        p.used <= |data.bytes| && groups == MapSeq(Group, p.value.txs) && left == Ok(|data.bytes| - p.used)
  {
    hide BlockHead, BlockShape, TxFormat, ManyRun, After, EncodeTx, TxOk, EncodeAll, HeaderView, Group;
    BlockReads(word, data);
    UsedWithin(word, data);
    groups := [];
    var made := NewBlockTxIter(data, word);
    if made.Err? {
      return [], Err(made.error);
    }
    var it := made.value.1;
    ghost var f, n, sl := TxFormat(word), it.total, it.cursor.Here();
    LawfulTx(word);
    NestedIsFlat(f, n, sl);
    AfterAfter(data, BlockHead(word).parse(data).used, ManyRun(f, n, sl).used);
    AfterAfter(data, BlockHead(word).parse(data).used + ManyRun(f, n, sl).used, 0);
    var r: Result<()>;
    groups, r := GroupTxs(it);
    if r.Err? {
      return groups, Err(r.error);
    }
    var rest := it.BytesRemaining();
    return groups, Ok(rest);
  }

  /** Round trip of one transaction: parsing what was serialised, whatever follows, returns its version, its lock time
      and the numbers of its inputs and outputs, delivers those, and consumes exactly its bytes. */
  method ReadTxBack(t: Tx, off: nat, rest: seq<Byte>, word: Word)
    returns (r: Result<(I32, nat, nat, nat)>, heard: seq<Heard>, used: nat)
    requires TxFits(t) && |EncodeTx(CanonTx(t))| + |rest| <= word
    ensures r == Ok((t.version, t.locktime, |t.inputs|, |t.outputs|))
    ensures heard == TxContent(t) && used == |EncodeTx(CanonTx(t))|
  {
    hide TxShape, TxOk, TxFits, EncodeTx, TxEvents, TxContent, MinimalTx, Feed;
    var raw := CanonTx(t);
    var data := Slice(off, EncodeTx(raw) + rest);
    CanonTxOk(t);
    TxReadBack(word, off, raw, rest);
    FeedRecorder([], TxEvents(word, off, raw));
    TxHeard(word, off, raw);
    var recorder := new Listener(Recorder(), []);
    var parser := new TransactionParser(data, word);
    r := parser.ParseWith(recorder);
    used := parser.BytesConsumed();
    heard := recorder.state;
    assert [] + heard == heard;
  }

  /** Round trip: iterating over a serialised block delivers exactly its transactions, each with its inputs and then its
      outputs, and leaves no byte unread. */
  method ReadBack(b: Block, off: nat, word: Word) returns (groups: seq<seq<Heard>>, left: Result<nat>)
    requires BlockFits(b) && |Serialise(b)| <= word
    ensures groups == MapSeq(TxContent, b.txs) && left == Ok(0)
  {
    hide BlockFormat, BlockFits, TxContent, TxOf, BlockEvents, Serialise, CanonBlock;
    var data := Slice(off, Serialise(b));
    BlockRoundTrip(word, b, off, []);
    assert Serialise(b) + [] == Serialise(b);
    groups, left := IterateGrouped(data, word);
    ghost var txs := BlockFormat(word).parse(data).value.txs;
    assert MapSeq(TxOf, txs) == b.txs;
    assert groups == MapSeq(TxContent, b.txs);
  }

  // ------------------------------------------------------------------- views

  /** The user's callbacks, and a log of every event they were called with. */
  function Logged<S>(step: Step<S>): Step<(S, seq<Event>)> {
    (st: (S, seq<Event>), e: Event) => var (s, o) := step(st.0, e); ((s, st.1 + [e]), o)
  }

  lemma {:induction false} FeedLogged<S>(step: Step<S>, st: S, log: seq<Event>, events: seq<Event>)
    ensures var x, y := Feed(Logged(step), (st, log), events), Feed(step, st, events);
      x == Fed((y.state, log + events[..y.heard]), y.heard, y.error)
    decreases |events|
  {
    if events == [] {
      assert log + [] == log;
    } else {
      var (s, o) := step(st, events[0]);
      var y := Feed(step, st, events);
      if o.Some? {
        assert events[..1] == [events[0]];
      } else {
        FeedLogged(step, s, log + [events[0]], events[1..]);
        assert log + events[..y.heard] == (log + [events[0]]) + events[1..][..y.heard - 1];
      }
    }
  }

  /** Whatever the callbacks do, the slices that they are called with over a block are pieces of it with its bytes, in
      order and without overlap; and the log changes nothing for them. */
  method IterateLogged<S>(data: Slice, word: Word, step: Step<S>, st: S)
    returns (user: S, log: seq<Event>, left: Result<nat>)
    requires |data.bytes| <= word
    ensures (user, left) == StreamBlock(word, data, step, st)
    ensures log <= BlockFormat(word).parse(data).events
    ensures InOrder(AllViews(log), data, data.off, data.off + |data.bytes|)
  {
    hide BlockFormat, StreamBlock, Feed, AllViews, InOrder;
    var cb := new Listener(Logged(step), (st, []));
    left := IterateBlock(data, word, cb);
    user, log := cb.state.0, cb.state.1;
    ghost var events := BlockFormat(word).parse(data).events;
    StreamBlockIsFlat(word, data, Logged(step), (st, []));
    StreamBlockIsFlat(word, data, step, st);
    FeedLogged(step, st, [], events);
    assert log == events[..Feed(step, st, events).heard];
    TidyBlock(word, data);
    InOrderPrefix(events, log, data, data.off, data.off + |data.bytes|);
  }

  // ------------------------------------------------------------------ strict

  /** `BlockTxIter::new(data)?.1.consume_all_strict(..)`: Ok exactly for the valid blocks. */
  method ParseStrict<S>(data: Slice, word: Word, cb: Listener<S>) returns (r: Result<()>)
    requires |data.bytes| <= word
    modifies cb
    ensures (cb.state, r) == StrictBlock(word, data, cb.step, old(cb.state))
    ensures r.Ok? <==> exists v :: StrictlyValid(word, data, v, cb.step, old(cb.state))
    ensures var p := BlockFormat(word).parse(data);
      var fed := Feed(cb.step, old(cb.state), p.events);
      !LateBlock(word, data) ==>
        && cb.state == fed.state
        && r == Verdict(fed, if p.Bad? then Err(p.error) else Finish(After(data, p.used), Count(0, 0, p.value.txs)))
  {
    hide BlockHead, BlockShape, TxFormat, StrictRun, After, StrictlyValid, LateBlock, Feed;
    StrictBlockOutcome(word, data, cb.step, cb.state);
    StrictAcceptance(word, data, cb.step, cb.state);
    var made := NewBlockTxIter(data, word);
    if made.Err? {
      return Err(made.error);
    }
    var it := made.value.1;
    r := it.ConsumeAllStrict(cb);
  }

  // --------------------------------------------------------------- platforms

  /** Streaming over a block leaves any callbacks in the same state on both platforms, with the same bytes left or
      errors that differ in kind only. */
  lemma StreamBlockAgrees<S>(w: Word, w': Word, data: Slice, step: Step<S>, st: S)
    ensures var r, r' := StreamBlock(w, data, step, st), StreamBlock(w', data, step, st);
      r'.0 == r.0 && SameResult(r.1, r'.1)
  {
    hide BlockHead, TxFormat, StreamRun, After;
    BlockHeadAgrees(w, w');
    assert AgreeAt(BlockHead(w), BlockHead(w'), data);
    var h := BlockHead(w).parse(data);
    if h.Good? {
      StreamingAgrees(w, w', h.value.1.value, After(data, h.used), step, st);
    }
  }

  // ------------------------------------------------------- retries and skips

  /** A call that fails can be repeated: the second call replays the same events to the callbacks as the first left
      them. */
  method Retry<S>(it: BlockTxIter, cb: Listener<S>) returns (first: Result<bool>, second: Result<bool>)
    requires it.Valid() && it.consumed < it.total
    modifies it, it.cursor, cb
    ensures it.Valid()
    ensures first.Err? ==>
      var p := TxFormat(it.cursor.word).parse(old(it.cursor.Here()));
      var fed := Feed(cb.step, Feed(cb.step, old(cb.state), p.events).state, p.events);
      cb.state == fed.state && second == Verdict(fed, Reply(p, (_: RawTx) => true))
  {
    hide TxFormat, Feed, After, EncodeTx, TxOk, EncodeAll;
    AfterZero(it.cursor.Here());
    first := it.NextTx(cb);
    second := it.NextTx(cb);
  }

  /** After a success, `skip_remaining` has nothing left to do. */
  method SkipTwice(it: BlockTxIter) returns (first: Result<()>, second: Result<()>)
    requires it.Valid()
    modifies it, it.cursor
    ensures it.Valid()
    ensures first.Ok? ==>
      var run := ManyRun(Atomic(TxFormat(it.cursor.word)), it.total - old(it.consumed), old(it.cursor.Here()));
      && second.Ok? && it.consumed == it.total && it.cursor.Moved(run.used) && it.parsed == old(it.parsed) + run.items
  {
    hide TxFormat, After, EncodeTx, TxOk, EncodeAll;
    first := it.SkipRemaining();
    AfterZero(it.cursor.Here());
    assert it.parsed + [] == it.parsed;
    second := it.SkipRemaining();
  }
}
