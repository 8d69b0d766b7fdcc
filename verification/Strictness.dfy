/** The strict loop accepts exactly the well-formed blocks whose only coinbase transaction is the first. */
module Strictness {
  import opened Bytes
  import opened Types
  import opened Formats
  import opened Primitives
  import opened Wire
  import opened Reads
  import opened BlockWire
  import opened Callbacks
  import opened Streams

  // ------------------------------------------------- one watched transaction

  /** Once the first input has been seen, the wrapper forwards every event. */
  lemma {:induction false} WatchForwards<S>(step: Step<S>, index: nat, ws: Watch<S>, events: seq<Event>)
    requires ws.sawFirstInput
    ensures var x, y := Feed(Watched(step, index), ws, events), Feed(step, ws.user, events);
      x == Fed(ws.(user := y.state), y.heard, y.error)
    decreases |events|
  {
    if events != [] {
      var (st, o) := step(ws.user, events[0]);
      if o.None? {
        WatchForwards(step, index, ws.(user := st), events[1..]);
      }
    }
  }

  /** A first input that is a late coinbase is refused before the user hears of it, with the count so far plus one. */
  lemma LateCoinbaseRefused<S>(step: Step<S>, index: nat, seen: nat, st: S, events: seq<Event>)
    requires index != 0 && events != [] && events[0].OnInput? && events[0].input.previousOutput.IsCoinbase()
    ensures Feed(Watched(step, index), Watch(st, false, false, seen), events)
         == Fed(Watch(st, true, true, seen + 1), 1, Some(InvalidCoinbaseCount(seen + 1)))
  {
  }

  /** Any other transaction passes through the wrapper, and counts if it is coinbase. */
  lemma WatchCounts<S>(step: Step<S>, index: nat, seen: nat, st: S, events: seq<Event>)
    requires events != [] && events[0].OnInput?
    requires index == 0 || !events[0].input.previousOutput.IsCoinbase()
    ensures var coinbase := events[0].input.previousOutput.IsCoinbase();
      var y := Feed(step, st, events);
      Feed(Watched(step, index), Watch(st, false, false, seen), events)
      == Fed(Watch(y.state, true, coinbase, if coinbase then seen + 1 else seen), y.heard, y.error)
  {
    var coinbase := events[0].input.previousOutput.IsCoinbase();
    var ws := Watch(st, true, coinbase, if coinbase then seen + 1 else seen);
    var (st', o) := step(st, events[0]);
    if o.None? {
      WatchForwards(step, index, ws.(user := st'), events[1..]);
    }
  }

  /** What a well-formed transaction makes the callbacks hear first. */
  lemma FirstEvent(w: Word, b: nat, t: RawTx)
    requires TxOk(t)
    ensures var ev := TxEvents(w, b, t);
      ev != [] && ev[0].OnInput? && ev[0].input.previousOutput.IsCoinbase() == IsCoinbaseTx(t)
  {
    hide EncodeHead, EncodeInput, EncodeAll;
    var at := b + 4 + |EncodeHead(t.ins.head)|;
    var i := t.Inputs()[0];
    assert InputFormat(w).events(at, i) == [OnInput(InputView(at, i))];
    assert EventsOfAll(InputFormat(w), at, t.Inputs())[0] == OnInput(InputView(at, i));
  }

  ghost predicate TellsAt(f: Format<RawTx>, sl: Slice) {
    var p := f.parse(sl);
    && (p.Good? ==> p.events != [] && FirstIsCoinbase(p.events) == IsCoinbaseTx(p.value))
    && (p.events != [] ==> p.events[0].OnInput?)
  }

  /** The first event is an input, and spends the null outpoint. */
  predicate FirstIsCoinbase(events: seq<Event>) {
    events != [] && events[0].OnInput? && events[0].input.previousOutput.IsCoinbase()
  }

  /** A reader of transactions that raises an input first, which tells whether the transaction is coinbase. */
  ghost predicate Telling(f: Format<RawTx>) {
    forall sl: Slice :: TellsAt(f, sl)
  }

  /** The reader of transactions is such a reader. */
  lemma TellingTx(w: Word)
    ensures Telling(TxFormat(w))
  {
    hide TxShape, TxEvents, TxOk, EncodeTx, IsCoinbaseTx;
    LawfulTx(w);
    forall sl: Slice ensures TellsAt(TxFormat(w), sl) {
      assert SoundAt(TxFormat(w), sl);
      InputsFirst(w, sl);
      var p := TxFormat(w).parse(sl);
      if p.Good? {
        FirstEvent(w, sl.off, p.value);
      }
    }
  }

  /** Even a transaction that fails to parse raises an input first. */
  lemma InputsFirst(w: Word, sl: Slice)
    ensures var ev := TxFormat(w).parse(sl).events; ev != [] ==> ev[0].OnInput?
  {
    hide TxFormat, InsFormat, InputFormat, OutsFormat, HeadFormat, After;
    TxReads(w, sl);
    var sl' := After(sl, Int32().parse(sl).used);
    InsReads(w, sl');
    var h := HeadFormat(w).parse(sl');
    if h.Good? {
      HeadAtLeastOne(w, sl');
      InputEventsRead(w, After(sl', h.used));
    }
  }

  lemma HeadAtLeastOne(w: Word, sl: Slice)
    ensures var h := HeadFormat(w).parse(sl); h.Good? ==> h.value.count.value >= 1
  {
    LawfulHead(w);
    assert SoundAt(HeadFormat(w), sl);
  }

  // -------------------------------------------------------------- whole loop

  /** How many coinbase transactions the loop has counted after one more transaction. */
  function Count(index: nat, seen: nat, txs: seq<RawTx>): nat {
    if index == 0 && txs != [] && IsCoinbaseTx(txs[0]) then seen + 1 else seen
  }

  lemma NoLateCons(t: RawTx, txs: seq<RawTx>, index: nat)
    ensures NoLateCoinbase([t] + txs, index) <==> (index == 0 || !IsCoinbaseTx(t)) && NoLateCoinbase(txs, index + 1)
  {
    hide IsCoinbaseTx;
    var all := [t] + txs;
    if NoLateCoinbase(all, index) {
      assert all[0] == t;
      forall i | 0 <= i < |txs| ensures !IsCoinbaseTx(txs[i]) {
        assert all[i + 1] == txs[i];
      }
    }
  }

  // ------------------------------------------------------ counting over runs

  /** The loop's variables after `k` transactions. It gets that far exactly when they parse, none is a late coinbase and
      the user's callbacks accept their events; the count then moved only at transaction 0, if that was parsed in this
      call and is coinbase, so a loop that began at 0 has counted at most one. */
  lemma {:induction false} CountingInvariant<S>(f: Format<RawTx>, k: nat, step: Step<S>, x: LoopState<S>)
    requires Telling(f)
    ensures var y, run := StrictTurns(f, k, step, x), ManyRun(f, k, x.at);
      var fed := Feed(step, x.user, run.events);
      && (y.Some? <==> run.error.None? && NoLateCoinbase(run.items, x.index) && fed.error.None?)
      && (y.Some? ==>
            y.value ==
              LoopState(After(x.at, run.used), x.index + k, Count(x.index, x.coinbaseTxs, run.items), fed.state))
      && (y.Some? && x.coinbaseTxs == 0 ==>
            && y.value.coinbaseTxs <= 1
            && (y.value.coinbaseTxs == 1 <==> x.index == 0 && run.items != [] && IsCoinbaseTx(run.items[0])))
    decreases k
  {
    hide IsCoinbaseTx, NoLateCoinbase, After, WatchStep, Feed;
    var run := ManyRun(f, k, x.at);
    if k == 0 {
      AfterZero(x.at);
      FeedNothing(step, x.user);
      NoLateNil(x.index);
    } else {
      var p := f.parse(x.at);
      assert TellsAt(f, x.at);
      if p.Good? {
        var sl' := After(x.at, p.used);
        var rest := ManyRun(f, k - 1, sl');
        NoLateCons(p.value, rest.items, x.index);
        FeedConcat(step, x.user, p.events, rest.events);
        AfterAfter(x.at, p.used, rest.used);
        if x.index != 0 && IsCoinbaseTx(p.value) {
          LateCoinbaseRefused(step, x.index, x.coinbaseTxs, x.user, p.events);
        } else {
          WatchCounts(step, x.index, x.coinbaseTxs, x.user, p.events);
          var y := StrictTurn(f, step, x);
          if y.Some? {
            CountingInvariant(f, k - 1, step, y.value);
          }
        }
      }
    }
  }

  lemma NoLateNil(index: nat)
    ensures NoLateCoinbase([], index)
  {
  }

  /** One turn of the loop from a count that is right. */
  lemma CountTurn<S>(
    f: Format<RawTx>, sl: Slice, start: nat, done: seq<RawTx>, seen: nat, step: Step<S>, st: S)
    requires Telling(f) && seen == Count(start, 0, done)
    ensures var p, index := f.parse(sl), start + |done|;
      var fed := Feed(Watched(step, index), Watch(st, false, false, seen), p.events);
      p.Good? && fed.error.None? ==>
        && fed.state.coinbaseTxs == Count(start, 0, done + [p.value]) <= 1
        && (index == 0 || !IsCoinbaseTx(p.value))
  {
    hide IsCoinbaseTx, WatchStep, Feed;
    var p, index := f.parse(sl), start + |done|;
    assert TellsAt(f, sl);
    if p.Good? {
      if index != 0 && IsCoinbaseTx(p.value) {
        LateCoinbaseRefused(step, index, seen, st, p.events);
      } else {
        WatchCounts(step, index, seen, st, p.events);
      }
    }
  }

  /** The loop succeeds exactly when the remaining transactions fill the input, none is a late coinbase,
      the count comes to one, and the user's callbacks accept every event. */
  ghost predicate StrictlyGood<S>(f: Format<RawTx>, sl: Slice, index: nat, total: nat, seen: nat, step: Step<S>, st: S)
    requires index <= total
  {
    var run := ManyRun(f, total - index, sl);
    && run.error.None? && After(sl, run.used).bytes == []
    && NoLateCoinbase(run.items, index) && Count(index, seen, run.items) == 1
    && Feed(step, st, run.events).error.None?
  }
  lemma StrictRunGood<S>(
    f: Format<RawTx>, sl: Slice, index: nat, total: nat, seen: nat, step: Step<S>, st: S)
    requires Telling(f) && index <= total
    ensures var (st', r) := StrictRun(f, sl, index, total, seen, step, st);
      && (r.Ok? <==> StrictlyGood(f, sl, index, total, seen, step, st))
      && (r.Ok? ==> st' == Feed(step, st, ManyRun(f, total - index, sl).events).state)
  {
    hide Telling, NoLateCoinbase, ManyRun, StrictTurns, Count, After, Feed;
    var x := LoopState(sl, index, seen, st);
    CountingInvariant(f, total - index, step, x);
    TurnsRun(f, total - index, total, step, x);
  }

  /** After `k` transactions without a late coinbase, the next one begins with one. */
  ghost predicate LateAfter(f: Format<RawTx>, sl: Slice, index: nat, k: nat) {
    var run := ManyRun(f, k, sl);
    && index + k > 0 && run.error.None? && NoLateCoinbase(run.items, index)
    && FirstIsCoinbase(f.parse(After(sl, run.used)).events)
  }

  /** A late coinbase ends the loop with its count, 2 after a coinbase transaction 0 parsed in this call and 1
      otherwise when the loop began at 0, unless the user's callbacks refused an event earlier, whose error comes back
      unchanged. They hear all of the transactions before it and none of that one, even when it does not parse to its
      end. */
  lemma {:induction false} LateCoinbase<S>(
    f: Format<RawTx>, sl: Slice, index: nat, total: nat, k: nat, seen: nat, step: Step<S>, st: S)
    requires Telling(f) && index + k < total && LateAfter(f, sl, index, k)
    ensures var run := ManyRun(f, k, sl);
      var fed := Feed(step, st, run.events);
      StrictRun(f, sl, index, total, seen, step, st)
      == (fed.state, Verdict(fed, Err(InvalidCoinbaseCount(Count(index, seen, run.items) + 1))))
    decreases k
  {
    hide IsCoinbaseTx, FirstIsCoinbase, NoLateCoinbase, After, WatchStep, Feed;
    var run := ManyRun(f, k, sl);
    if k == 0 {
      AfterZero(sl);
      FeedNothing(step, st);
      LateTurn(f, sl, index, total, seen, step, st);
    } else {
      var p := f.parse(sl);
      assert TellsAt(f, sl);
      var sl' := After(sl, p.used);
      var rest := ManyRun(f, k - 1, sl');
      NoLateCons(p.value, rest.items, index);
      FeedConcat(step, st, p.events, rest.events);
      AfterAfter(sl, p.used, rest.used);
      PlainTurn(f, sl, index, seen, step, st);
      var next := Feed(step, st, p.events).state;
      LateCoinbase(f, sl', index + 1, total, k - 1, Count(index, seen, [p.value]), step, next);
    }
  }

  /** How the loop ends, whatever the user's callbacks do. Without a late coinbase it is the pure run: they have heard
      its events until they refused one, whose error comes back unchanged, or else the reader's own error does, or else
      `Finish` says what follows the transactions. With one, callbacks that accept everything get its count. */
  lemma {:induction false} StrictOutcome<S>(
    f: Format<RawTx>, sl: Slice, index: nat, total: nat, seen: nat, step: Step<S>, st: S)
    requires Telling(f) && index <= total
    ensures var run := ManyRun(Atomic(f), total - index, sl);
      var fed, count := Feed(step, st, run.events), Count(index, seen, run.items);
      var (st', r) := StrictRun(f, sl, index, total, seen, step, st);
      if HasLate(f, sl, index, run) then fed.error.None? ==> r == Err(InvalidCoinbaseCount(count + 1))
      else
        && st' == fed.state
        && r == Verdict(fed, if run.error.Some? then Err(run.error.value) else Finish(After(sl, run.used), count))
    decreases total - index
  {
    hide IsCoinbaseTx, NoLateCoinbase, FirstIsCoinbase, After, WatchStep, Feed;
    AfterZero(sl);
    NoLateNil(index);
    FeedNothing(step, st);
    if index < total {
      var p := f.parse(sl);
      assert TellsAt(f, sl);
      if index != 0 && FirstIsCoinbase(p.events) {
        LateTurn(f, sl, index, total, seen, step, st);
      } else {
        PlainTurn(f, sl, index, seen, step, st);
      }
      if p.Good? {
        var sl' := After(sl, p.used);
        var rest := ManyRun(Atomic(f), total - index - 1, sl');
        NoLateCons(p.value, rest.items, index);
        FeedConcat(step, st, p.events, rest.events);
        AfterAfter(sl, p.used, rest.used);
        if index == 0 || !FirstIsCoinbase(p.events) {
          StrictOutcome(f, sl', index + 1, total, Count(index, seen, [p.value]), step, Feed(step, st, p.events).state);
        }
      }
    }
  }

  /** A late coinbase among the transactions of a run, or at the head of the one that failed. */
  ghost predicate HasLate(f: Format<RawTx>, sl: Slice, index: nat, run: Run<RawTx>) {
    var next := index + |run.items|;
    || !NoLateCoinbase(run.items, index)
    || (run.error.Some? && next != 0 && FirstIsCoinbase(f.parse(After(sl, run.used)).events))
  }

  /** If a run has a late coinbase at all, it has a first one. */
  lemma {:induction false} FirstLate(f: Format<RawTx>, sl: Slice, index: nat, n: nat)
    requires Telling(f)
    ensures HasLate(f, sl, index, ManyRun(Atomic(f), n, sl)) <==> exists k: nat :: k < n && LateAfter(f, sl, index, k)
    decreases n
  {
    hide IsCoinbaseTx, NoLateCoinbase, FirstIsCoinbase, After, HasLate, LateAfter;
    if n == 0 {
      NoneLate(f, sl, index);
    } else {
      var p := f.parse(sl);
      assert TellsAt(f, sl);
      LateNow(f, sl, index);
      if p.Bad? {
        LateBad(f, sl, index, n);
      } else {
        var sl' := After(sl, p.used);
        FirstLate(f, sl', index + 1, n - 1);
        HasLateCons(f, sl, index, n);
        var next := index + 1;
        if k: nat :| k < n - 1 && LateAfter(f, sl', next, k) {
          LateAfterCons(f, sl, index, k);
        }
        if k: nat :| k < n && LateAfter(f, sl, index, k) && k > 0 {
          LateAfterCons(f, sl, index, k - 1);
        }
      }
    }
  }

  lemma NoneLate(f: Format<RawTx>, sl: Slice, index: nat)
    ensures !HasLate(f, sl, index, ManyRun(Atomic(f), 0, sl))
  {
  }

  lemma LateNow(f: Format<RawTx>, sl: Slice, index: nat)
    ensures LateAfter(f, sl, index, 0) <==> index > 0 && FirstIsCoinbase(f.parse(sl).events)
  {
    AfterZero(sl);
  }

  lemma LateBad(f: Format<RawTx>, sl: Slice, index: nat, n: nat)
    requires n > 0 && f.parse(sl).Bad?
    ensures HasLate(f, sl, index, ManyRun(Atomic(f), n, sl)) <==> LateAfter(f, sl, index, 0)
    ensures forall k: nat :: LateAfter(f, sl, index, k) ==> k == 0
  {
    hide FirstIsCoinbase, After;
    AfterZero(sl);
  }

  lemma HasLateCons(f: Format<RawTx>, sl: Slice, index: nat, n: nat)
    requires n > 0 && f.parse(sl).Good?
    ensures var p := f.parse(sl);
      HasLate(f, sl, index, ManyRun(Atomic(f), n, sl)) <==>
        || (index != 0 && IsCoinbaseTx(p.value))
        || HasLate(f, After(sl, p.used), index + 1, ManyRun(Atomic(f), n - 1, After(sl, p.used)))
  {
    hide IsCoinbaseTx, NoLateCoinbase, FirstIsCoinbase, After;
    var p := f.parse(sl);
    var rest := ManyRun(Atomic(f), n - 1, After(sl, p.used));
    NoLateCons(p.value, rest.items, index);
    AfterAfter(sl, p.used, rest.used);
  }

  lemma LateAfterCons(f: Format<RawTx>, sl: Slice, index: nat, k: nat)
    requires f.parse(sl).Good?
    ensures var p := f.parse(sl);
      LateAfter(f, sl, index, k + 1) <==>
        (index == 0 || !IsCoinbaseTx(p.value)) && LateAfter(f, After(sl, p.used), index + 1, k)
  {
    hide IsCoinbaseTx, NoLateCoinbase, FirstIsCoinbase, After;
    var p := f.parse(sl);
    var rest := ManyRun(f, k, After(sl, p.used));
    NoLateCons(p.value, rest.items, index);
    AfterAfter(sl, p.used, rest.used);
  }

  /** How a loop that begins at transaction `first` leaves the user's callbacks, and what it returns. Without a late
      coinbase it is the pure run of all transactions, cut where a callback refuses an event; with one, it is the pure
      run of those before the first such transaction, and then the count. */
  ghost predicate Ends<S>(
    f: Format<RawTx>, sl: Slice, first: nat, total: nat, step: Step<S>, st: S, user: S, r: Result<()>)
    requires first <= total
  {
    var run := ManyRun(Atomic(f), total - first, sl);
    var fed := Feed(step, st, run.events);
    && (!HasLate(f, sl, first, run) ==>
          && user == fed.state
          && r == Verdict(fed,
               if run.error.Some? then Err(run.error.value)
               else Finish(After(sl, run.used), Count(first, 0, run.items))))
    && (forall k: nat :: k < total - first && LateAfter(f, sl, first, k) ==>
          var before := ManyRun(f, k, sl);
          var heard := Feed(step, st, before.events);
          && user == heard.state
          && r == Verdict(heard, Err(InvalidCoinbaseCount(Count(first, 0, before.items) + 1))))
  }

  lemma StrictEnds<S>(f: Format<RawTx>, sl: Slice, first: nat, total: nat, step: Step<S>, st: S)
    requires Telling(f) && first <= total
    ensures var (user, r) := StrictRun(f, sl, first, total, 0, step, st);
      Ends(f, sl, first, total, step, st, user, r)
  {
    hide Telling, HasLate, LateAfter, StrictRun, ManyRun, Feed, After, Count;
    StrictOutcome(f, sl, first, total, 0, step, st);
    forall k: nat | k < total - first && LateAfter(f, sl, first, k)
      ensures var before := ManyRun(f, k, sl);
        var heard := Feed(step, st, before.events);
        StrictRun(f, sl, first, total, 0, step, st)
        == (heard.state, Verdict(heard, Err(InvalidCoinbaseCount(Count(first, 0, before.items) + 1))))
    {
      LateCoinbase(f, sl, first, total, k, 0, step, st);
    }
  }

  lemma LateTurn<S>(f: Format<RawTx>, sl: Slice, index: nat, total: nat, seen: nat, step: Step<S>, st: S)
    requires 0 < index < total && FirstIsCoinbase(f.parse(sl).events)
    ensures StrictRun(f, sl, index, total, seen, step, st) == (st, Err(InvalidCoinbaseCount(seen + 1)))
  {
    hide WatchStep, Feed, After;
    LateCoinbaseRefused(step, index, seen, st, f.parse(sl).events);
  }

  lemma PlainTurn<S>(f: Format<RawTx>, sl: Slice, index: nat, seen: nat, step: Step<S>, st: S)
    requires TellsAt(f, sl) && (index == 0 || !FirstIsCoinbase(f.parse(sl).events))
    ensures var p := f.parse(sl);
      var x, y := Feed(Watched(step, index), Watch(st, false, false, seen), p.events), Feed(step, st, p.events);
      && x.error == y.error && x.state.user == y.state
      && (p.Good? ==> x.state.coinbaseTxs == Count(index, seen, [p.value]))
  {
    hide IsCoinbaseTx, WatchStep, Feed;
    var p := f.parse(sl);
    if p.events == [] {
      FeedNothing(step, st);
      FeedNothing(Watched(step, index), Watch(st, false, false, seen));
    } else {
      WatchCounts(step, index, seen, st, p.events);
    }
  }

  /** Resumed after a transaction was consumed, the strict loop never succeeds: it cannot have counted transaction 0. */
  lemma ResumedNeverOk<S>(f: Format<RawTx>, sl: Slice, index: nat, total: nat, step: Step<S>, st: S)
    requires Telling(f) && 0 < index <= total
    ensures StrictRun(f, sl, index, total, 0, step, st).1.Err?
  {
    StrictRunGood(f, sl, index, total, 0, step, st);
  }

  // ---------------------------------------------------------- whole blocks

  /** `BlockTxIter::new` and then `consume_all_strict`. */
  function StrictBlock<S>(w: Word, data: Slice, step: Step<S>, st: S): (S, Result<()>) {
    var h := BlockHead(w).parse(data);
    if h.Bad? then (st, Err(h.error)) else
      StrictRun(TxFormat(w), After(data, h.used), 0, h.value.1.value, 0, step, st)
  }

  /** A block that strict parsing must accept from callbacks that start in `st`. */
  ghost predicate StrictlyValid<S>(w: Word, data: Slice, v: RawBlock, step: Step<S>, st: S) {
    && BlockOk(v) && EncodeBlock(v) == data.bytes && OneCoinbase(v.txs)
    && Feed(step, st, BlockEvents(w, data.off, v)).error.None?
  }

  /** A buffer is the encoding of a block exactly when the reader of blocks returns that block and reads it all. */
  lemma BlockExactly(w: Word, data: Slice, v: RawBlock)
    ensures BlockOk(v) && EncodeBlock(v) == data.bytes
      <==> BlockFormat(w).parse(data) == Good(v, |data.bytes|, BlockEvents(w, data.off, v))
  {
    hide BlockShape, BlockEvents, EncodeAll, TxOk, EncodeCompact;
    var f := BlockFormat(w);
    LawfulBlock(w);
    assert SoundAt(f, data) && CompleteAt(f, data.off, v, []);
    assert data.bytes[..|data.bytes|] == data.bytes && EncodeBlock(v) + [] == EncodeBlock(v);
    assert data == Slice(data.off, data.bytes);
  }

  /** Strict acceptance is exact: Ok if and only if the buffer is the encoding of a block within the caps, with
      nothing after it, whose first transaction and no other is coinbase, and the user's callbacks accept its
      events in order. */
  lemma StrictAcceptance<S>(w: Word, data: Slice, step: Step<S>, st: S)
    ensures StrictBlock(w, data, step, st).1.Ok? <==> exists v :: StrictlyValid(w, data, v, step, st)
    ensures forall v :: StrictlyValid(w, data, v, step, st) ==>
      StrictBlock(w, data, step, st) == (Feed(step, st, BlockEvents(w, data.off, v)).state, Ok(()))
  {
    hide BlockFormat, BlockEvents, BlockOk, EncodeBlock, OneCoinbase, StrictBlock, Feed;
    var p := BlockFormat(w).parse(data);
    StrictBlockGood(w, data, step, st);
    if StrictBlock(w, data, step, st).1.Ok? {
      BlockEventsAre(w, data);
      BlockExactly(w, data, p.value);
      assert StrictlyValid(w, data, p.value, step, st);
    }
    forall v | StrictlyValid(w, data, v, step, st)
      ensures StrictBlock(w, data, step, st) == (Feed(step, st, BlockEvents(w, data.off, v)).state, Ok(()))
    {
      BlockExactly(w, data, v);
      var r := StrictBlock(w, data, step, st);
      assert r.1.Ok? && r.1.value == ();
    }
  }

  lemma BlockEventsAre(w: Word, data: Slice)
    ensures var p := BlockFormat(w).parse(data); p.Good? ==> p.events == BlockEvents(w, data.off, p.value)
  {
    hide BlockShape, BlockEvents, EncodeBlock, BlockOk;
    LawfulBlock(w);
    assert SoundAt(BlockFormat(w), data);
  }

  lemma StrictBlockGood<S>(w: Word, data: Slice, step: Step<S>, st: S)
    ensures var p, s := BlockFormat(w).parse(data), StrictBlock(w, data, step, st);
      && (s.1.Ok? <==>
            p.Good? && p.used == |data.bytes| && OneCoinbase(p.value.txs) && Feed(step, st, p.events).error.None?)
      && (s.1.Ok? ==> s.0 == Feed(step, st, p.events).state)
  {
    hide TxFormat, Telling, ManyRun, IsCoinbaseTx, StrictRun, Feed, BlockHead, BlockShape;
    var h := BlockHead(w).parse(data);
    BlockReads(w, data);
    if h.Good? {
      var n, sl := h.value.1.value, After(data, h.used);
      TellingTx(w);
      StrictRunGood(TxFormat(w), sl, 0, n, 0, step, st);
      var run := ManyRun(TxFormat(w), n, sl);
      AfterAfter(data, h.used, run.used);
      UsedWithin(w, data);
    }
  }

  lemma UsedWithin(w: Word, data: Slice)
    ensures BlockFormat(w).parse(data).Good? ==> BlockFormat(w).parse(data).used <= |data.bytes|
  {
    LawfulBlock(w);
    assert SoundAt(BlockFormat(w), data);
  }
}
