/** Whole runs over the transactions of a block: what `next_tx` loops and the strict loop compute. */
module Streams {
  import opened Bytes
  import opened Types
  import opened Formats
  import opened Wire
  import opened Callbacks

  // ----------------------------------------------------------- plain loops

  /** A run of `next_tx`: the callbacks' final state, the transactions completed, the bytes passed, the error if any. */
  datatype Streamed<+S> = Streamed(state: S, txs: seq<RawTx>, used: nat, error: Option<ParseError>)

  /** `while iter.next_tx(..)? {}` over at most `n` transactions. */
  function StreamRun<S>(f: Format<RawTx>, n: nat, sl: Slice, step: Step<S>, st: S): Streamed<S> {
    if n == 0 then Streamed(st, [], 0, None) else
      var p := f.parse(sl);
      var fed := Feed(step, st, p.events);
      if fed.error.Some? then Streamed(fed.state, [], 0, fed.error)
      else if p.Bad? then Streamed(fed.state, [], 0, Some(p.error))
      else
        Extend([p.value], p.used, StreamRun(f, n - 1, After(sl, p.used), step, fed.state))
  }

  /** A run that follows the transactions `txs`, `used` bytes long. */
  function Extend<S>(txs: seq<RawTx>, used: nat, r: Streamed<S>): Streamed<S> {
    r.(txs := txs + r.txs, used := used + r.used)
  }

  lemma ExtendExtend<S>(txs: seq<RawTx>, used: nat, txs': seq<RawTx>, used': nat, r: Streamed<S>)
    ensures Extend(txs, used, Extend(txs', used', r)) == Extend(txs + txs', used + used', r)
  {
    assert txs + (txs' + r.txs) == (txs + txs') + r.txs;
  }

  /** One turn of the loop. */
  lemma StreamTurn<S>(f: Format<RawTx>, n: nat, sl: Slice, step: Step<S>, st: S)
    ensures var p, r := f.parse(sl), StreamRun(f, n, sl, step, st);
      var fed := Feed(step, st, p.events);
      if n == 0 then r == Streamed(st, [], 0, None)
      else if fed.error.Some? then r == Streamed(fed.state, [], 0, fed.error)
      else if p.Bad? then r == Streamed(fed.state, [], 0, Some(p.error))
      else r == Extend([p.value], p.used, StreamRun(f, n - 1, After(sl, p.used), step, fed.state))
  {
  }

  /** Callbacks that always return Ok. */
  function Mute(): Step<()> {
    (st: (), _: Event) => (st, None)
  }

  lemma {:induction false} FeedMute(events: seq<Event>)
    ensures Feed(Mute(), (), events) == Fed((), |events|, None)
    decreases |events|
  {
    if events != [] {
      FeedMute(events[1..]);
    }
  }

  /** A streaming run is the pure run of the format, cut where a callback fails.
      The callbacks hear every event of the completed transactions and then a prefix of the failing one's. */
  lemma {:induction false} StreamDecomposes<S>(f: Format<RawTx>, n: nat, sl: Slice, step: Step<S>, st: S)
    ensures var r, run := StreamRun(f, n, sl, step, st), ManyRun(Atomic(f), n, sl);
      var fed := Feed(step, st, run.events);
      && r.state == fed.state
      && r.error == (if fed.error.Some? then fed.error else run.error)
      && r.txs <= run.items
      && (fed.error.None? ==> r.txs == run.items && r.used == run.used)
  {
    hide Feed, After;
    FeedNothing(step, st);
    if n > 0 {
      var p := f.parse(sl);
      var fed := Feed(step, st, p.events);
      if p.Good? {
        var rest := ManyRun(Atomic(f), n - 1, After(sl, p.used));
        FeedConcat(step, st, p.events, rest.events);
        if fed.error.None? {
          StreamDecomposes(f, n - 1, After(sl, p.used), step, fed.state);
        }
      }
    }
  }

  ghost predicate Stopped<S>(f: Format<RawTx>, n: nat, sl: Slice, step: Step<S>, st: S, r: Streamed<S>) {
    var done := EventsOfAll(f, sl.off, r.txs);
    && AllOk(f.ok, r.txs) && r.used == |EncodeAll(f.encode, r.txs)| && EncodeAll(f.encode, r.txs) <= sl.bytes
    && (r.error.None? ==> |r.txs| == n && Feed(step, st, done) == Fed(r.state, |done|, None))
    && (r.error.Some? ==>
          |r.txs| < n && exists k :: HeardUpTo(step, st, done, f.parse(After(sl, r.used)).events, k, r.state))
  }

  /** Failure atomicity over a run: the offset is the end of the completed transactions, all of whose events
      were heard, and nothing was heard beyond the events of the next one. */
  lemma {:induction false} StreamStops<S>(f: Format<RawTx>, n: nat, sl: Slice, step: Step<S>, st: S)
    requires Lawful(f)
    ensures Stopped(f, n, sl, step, st, StreamRun(f, n, sl, step, st))
  {
    hide Feed, After, EncodeAll, EventsOfAll;
    NothingToRead(f, sl.off);
    FeedNothing(step, st);
    if n > 0 {
      var p := f.parse(sl);
      var fed := Feed(step, st, p.events);
      assert SoundAt(f, sl);
      if p.Good? && fed.error.None? {
        StreamStops(f, n - 1, After(sl, p.used), step, fed.state);
        StoppedCons(f, n, sl, step, st, StreamRun(f, n - 1, After(sl, p.used), step, fed.state));
      } else {
        var r := StreamRun(f, n, sl, step, st);
        FeedHears(step, st, p.events);
        AfterZero(sl);
        assert [] + p.events[..fed.heard] == p.events[..fed.heard];
        assert HeardUpTo(step, st, [], f.parse(After(sl, r.used)).events, fed.heard, r.state);
      }
    }
  }

  lemma StoppedCons<S>(f: Format<RawTx>, n: nat, sl: Slice, step: Step<S>, st: S, r: Streamed<S>)
    requires n > 0 && SoundAt(f, sl) && f.parse(sl).Good?
    requires Feed(step, st, f.parse(sl).events).error.None?
    requires var p := f.parse(sl); Stopped(f, n - 1, After(sl, p.used), step, Feed(step, st, p.events).state, r)
    ensures var p := f.parse(sl); Stopped(f, n, sl, step, st, r.(txs := [p.value] + r.txs, used := p.used + r.used))
  {
    hide EncodeAll, EventsOfAll, Feed;
    var p, st' := f.parse(sl), Feed(step, st, f.parse(sl).events).state;
    var sl' := After(sl, p.used);
    var done := EventsOfAll(f, sl'.off, r.txs);
    ConsAll(f, sl.off, p.value, r.txs);
    PrependPrefix(sl.bytes, p.used, EncodeAll(f.encode, r.txs));
    AfterAfter(sl, p.used, r.used);
    FeedConcat(step, st, p.events, done);
    if r.error.Some? {
      var next := f.parse(After(sl', r.used)).events;
      var k :| HeardUpTo(step, st', done, next, k, r.state);
      HeardCons(step, st, p.events, done, next, k, r.state);
    }
  }

  lemma HeardCons<S>(step: Step<S>, st: S, first: seq<Event>, done: seq<Event>, next: seq<Event>, k: int, st': S)
    requires Feed(step, st, first).error.None?
    requires HeardUpTo(step, Feed(step, st, first).state, done, next, k, st')
    ensures HeardUpTo(step, st, first + done, next, k, st')
  {
    assert (first + done) + next[..k] == first + (done + next[..k]);
    FeedConcat(step, st, first, done);
    FeedConcat(step, st, first, done + next[..k]);
  }

  /** The callbacks heard all of `done` and then `k` events of `next`, which took them from `st` to `st'`. */
  ghost predicate HeardUpTo<S>(step: Step<S>, st: S, done: seq<Event>, next: seq<Event>, k: int, st': S) {
    && 0 <= k <= |next|
    && Feed(step, st, done).error.None?
    && Feed(step, st, done + next[..k]).state == st'
    && Feed(step, st, done + next[..k]).heard == |done| + k
  }

  lemma {:induction false} FeedAgreeable<S(!new)>(step: Step<S>, st: S, events: seq<Event>)
    requires forall s: S, e: Event :: step(s, e).1.None?
    ensures Feed(step, st, events).error.None?
    decreases |events|
  {
    if events != [] {
      FeedAgreeable(step, step(st, events[0]).0, events[1..]);
    }
  }

  /** Iterating with callbacks that never fail reaches the offset, the transactions and the parse error that
      skipping reaches. */
  lemma SkippingEqualsIterating<S(!new)>(f: Format<RawTx>, n: nat, sl: Slice, step: Step<S>, st: S)
    requires forall s: S, e: Event :: step(s, e).1.None?
    ensures var r, run := StreamRun(f, n, sl, step, st), ManyRun(Atomic(f), n, sl);
      r.txs == run.items && r.used == run.used && r.error == run.error
  {
    StreamDecomposes(f, n, sl, step, st);
    FeedAgreeable(step, st, ManyRun(Atomic(f), n, sl).events);
  }

  /** Parsing each item over a sub-slice and then skipping what it consumed is one flat parse: the same items,
      events and error, and the same offset whenever there is no error; with one, the outer cursor stays at the end
      of the complete items. */
  lemma {:induction false} NestedIsFlat<T(!new)>(f: Format<T>, n: nat, sl: Slice)
    requires Lawful(f)
    ensures var nested, flat := ManyRun(Atomic(f), n, sl), ManyRun(f, n, sl);
      && nested.items == flat.items && nested.events == flat.events && nested.error == flat.error
      && nested.used == |EncodeAll(f.encode, flat.items)| <= flat.used
      && (flat.error.None? ==> nested.used == flat.used)
  {
    if n > 0 {
      var p := f.parse(sl);
      assert SoundAt(f, sl);
      if p.Good? {
        var sl' := After(sl, p.used);
        NestedIsFlat(f, n - 1, sl');
        ConsAll(f, sl.off, p.value, ManyRun(f, n - 1, sl').items);
      }
    }
  }

  // ----------------------------------------------------------- strict loop

  /** What `wrapped_on_input` captures: the user's callbacks, the two flags of the current
      transaction, and the count of coinbase transactions. */
  datatype Watch<+S> = Watch(user: S, sawFirstInput: bool, isCoinbaseTx: bool, coinbaseTxs: nat)

  /** One call of the wrapped callbacks while transaction `txIndex` is parsed. */
  function WatchStep<S>(step: Step<S>, txIndex: nat, ws: Watch<S>, e: Event): (Watch<S>, Option<ParseError>) {
    if e.OnInput? && !ws.sawFirstInput then
      var isCoinbase := e.input.previousOutput.IsCoinbase();
      var ws' := Watch(ws.user, true, isCoinbase, if isCoinbase then ws.coinbaseTxs + 1 else ws.coinbaseTxs);
      if isCoinbase && txIndex != 0 then (ws', Some(InvalidCoinbaseCount(ws'.coinbaseTxs))) else Forward(step, ws', e)
    else Forward(step, ws, e)
  }

  function Forward<S>(step: Step<S>, ws: Watch<S>, e: Event): (Watch<S>, Option<ParseError>) {
    var (st, o) := step(ws.user, e);
    (ws.(user := st), o)
  }

  function Watched<S>(step: Step<S>, txIndex: nat): Step<Watch<S>> {
    (ws: Watch<S>, e: Event) => WatchStep(step, txIndex, ws, e)
  }

  /** `finish_strict` after all transactions, and then the count of coinbase transactions. */
  function Finish(sl: Slice, coinbaseTxs: nat): Result<()> {
    if sl.bytes != [] then Err(TrailingBytes(|sl.bytes|))
    else if coinbaseTxs != 1 then Err(InvalidCoinbaseCount(coinbaseTxs))
    else Ok(())
  }

  /** `consume_all_strict` from transaction `index` of `total` on: the user's final state and the result. */
  function StrictRun<S>(
    f: Format<RawTx>, sl: Slice, index: nat, total: nat, coinbaseTxs: nat, step: Step<S>, st: S): (S, Result<()>)
    decreases total - index
  {
    if index >= total then (st, Finish(sl, coinbaseTxs)) else
      var p := f.parse(sl);
      var fed := Feed(Watched(step, index), Watch(st, false, false, coinbaseTxs), p.events);
      if fed.error.Some? then (fed.state.user, Err(fed.error.value))
      else if p.Bad? then (fed.state.user, Err(p.error))
      else StrictRun(f, After(sl, p.used), index + 1, total, fed.state.coinbaseTxs, step, fed.state.user)
  }

  /** The variables of the strict loop between two transactions. */
  datatype LoopState<+S> = LoopState(at: Slice, index: nat, coinbaseTxs: nat, user: S)

  /** One turn of the loop; None when it returns an error. */
  function StrictTurn<S>(f: Format<RawTx>, step: Step<S>, x: LoopState<S>): Option<LoopState<S>> {
    var p := f.parse(x.at);
    var fed := Feed(Watched(step, x.index), Watch(x.user, false, false, x.coinbaseTxs), p.events);
    if fed.error.Some? || p.Bad? then None
    else Some(LoopState(After(x.at, p.used), x.index + 1, fed.state.coinbaseTxs, fed.state.user))
  }

  /** The loop's variables after `k` turns. */
  function StrictTurns<S>(f: Format<RawTx>, k: nat, step: Step<S>, x: LoopState<S>): Option<LoopState<S>> {
    if k == 0 then Some(x) else
      var y := StrictTurn(f, step, x);
      if y.None? then None else StrictTurns(f, k - 1, step, y.value)
  }

  /** What is left of the strict loop is determined by its variables. */
  lemma {:induction false} TurnsRun<S>(f: Format<RawTx>, k: nat, total: nat, step: Step<S>, x: LoopState<S>)
    requires x.index + k <= total
    ensures var y, run := StrictTurns(f, k, step, x), StrictRun(f, x.at, x.index, total, x.coinbaseTxs, step, x.user);
      if y.None? then run.1.Err? else
        && y.value.index == x.index + k
        && run == StrictRun(f, y.value.at, y.value.index, total, y.value.coinbaseTxs, step, y.value.user)
    decreases k
  {
    hide Feed, WatchStep, After;
    if k > 0 {
      var y := StrictTurn(f, step, x);
      if y.Some? {
        TurnsRun(f, k - 1, total, step, y.value);
      }
    }
  }
}
