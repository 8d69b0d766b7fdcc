/** Word-size independence: on any two platforms of at least 32 bits the same inputs are accepted, with the same
    values, offsets and events; a refused count may only be reported as IntegerTooLarge on one and OversizedData on
    the other. */
module Platform {
  import opened Bytes
  import opened Types
  import opened Formats
  import opened Primitives
  import opened Wire
  import opened BlockWire
  import opened Callbacks
  import opened Streams
  import opened Strictness

  /** The same error, or one platform cannot represent a size that the other finds above its cap. */
  ghost predicate SameButKind(e: ParseError, e': ParseError) {
    || e == e'
    || (e.IntegerTooLarge? && e'.OversizedData? && e.value == e'.size)
    || (e.OversizedData? && e'.IntegerTooLarge? && e.size == e'.value)
  }

  ghost predicate Alike<T>(p: Parsed<T>, p': Parsed<T>) {
    match p
    case Good(_, _, _) => p' == p
    case Bad(e, u, ev) => p'.Bad? && SameButKind(e, p'.error) && p'.used == u && p'.events == ev
  }

  ghost predicate Agree<T>(f: Format<T>, f': Format<T>) {
    forall sl: Slice :: AgreeAt(f, f', sl)
  }

  ghost predicate AgreeAt<T>(f: Format<T>, f': Format<T>, sl: Slice) {
    Alike(f.parse(sl), f'.parse(sl))
  }

  // ------------------------------------------------------------ combinators

  lemma AgreeSelf<T>(f: Format<T>)
    ensures Agree(f, f)
  {
  }

  lemma AgreeBind<A(!new), B>(f: Format<A>, f': Format<A>, g: A -> Format<B>, g': A -> Format<B>)
    requires Agree(f, f') && forall a :: Agree(g(a), g'(a))
    ensures Agree(Bind(f, g), Bind(f', g'))
  {
    forall sl: Slice ensures AgreeAt(Bind(f, g), Bind(f', g'), sl) {
      assert AgreeAt(f, f', sl);
      var p := f.parse(sl);
      if p.Good? {
        assert AgreeAt(g(p.value), g'(p.value), After(sl, p.used));
      }
    }
  }

  lemma AgreePair<A(!new), B>(f: Format<A>, f': Format<A>, g: Format<B>, g': Format<B>)
    requires Agree(f, f') && Agree(g, g')
    ensures Agree(Pair(f, g), Pair(f', g'))
  {
    AgreeBind(f, f', (_: A) => g, (_: A) => g');
  }

  lemma AgreeMap<A, B>(f: Format<A>, f': Format<A>, to: A -> B, from: B -> A, note: (nat, B) -> seq<Event>)
    requires Agree(f, f')
    ensures Agree(Map(f, to, from, note), Map(f', to, from, note))
  {
    forall sl: Slice ensures AgreeAt(Map(f, to, from, note), Map(f', to, from, note), sl) {
      assert AgreeAt(f, f', sl);
    }
  }

  lemma AgreeAtomic<T>(f: Format<T>, f': Format<T>)
    requires Agree(f, f')
    ensures Agree(Atomic(f), Atomic(f'))
  {
    forall sl: Slice ensures AgreeAt(Atomic(f), Atomic(f'), sl) {
      assert AgreeAt(f, f', sl);
    }
  }

  lemma {:induction false} AgreeRun<T>(f: Format<T>, f': Format<T>, n: nat, sl: Slice)
    requires Agree(f, f')
    ensures var r, r' := ManyRun(f, n, sl), ManyRun(f', n, sl);
      && r'.items == r.items && r'.used == r.used && r'.events == r.events && r'.error.None? == r.error.None?
      && (r.error.Some? ==> SameButKind(r.error.value, r'.error.value))
  {
    if n > 0 {
      assert AgreeAt(f, f', sl);
      if f.parse(sl).Good? {
        AgreeRun(f, f', n - 1, After(sl, f.parse(sl).used));
      }
    }
  }

  lemma AgreeMany<T>(f: Format<T>, f': Format<T>, n: nat)
    requires Agree(f, f')
    ensures Agree(Many(f, n), Many(f', n))
  {
    forall sl: Slice ensures AgreeAt(Many(f, n), Many(f', n), sl) {
      AgreeRun(f, f', n, sl);
    }
  }

  lemma AgreeListed<H(!new), A>(head: Format<H>, head': Format<H>, count: H -> nat, item: Format<A>, item': Format<A>)
    requires Agree(head, head') && Agree(item, item')
    ensures Agree(Listed(head, count, item), Listed(head', count, item'))
  {
    var g, g' := (h: H) => Many(item, count(h)), (h: H) => Many(item', count(h));
    forall h ensures Agree(g(h), g'(h)) {
      AgreeMany(item, item', count(h));
    }
    AgreeBind(head, head', g, g');
  }

  lemma AgreeCounted<H(!new), A(!new), B>(
    head: Format<H>, head': Format<H>, count: H -> nat, item: Format<A>, item': Format<A>,
    end: H -> Format<B>, end': H -> Format<B>)
    requires Agree(head, head') && Agree(item, item') && forall h :: Agree(end(h), end'(h))
    ensures Agree(Counted(head, count, item, end), Counted(head', count, item', end'))
  {
    var g, g' := CountedBody(count, item, end), CountedBody(count, item', end');
    forall h ensures Agree(g(h), g'(h)) {
      AgreeMany(item, item', count(h));
      AgreePair(Many(item, count(h)), Many(item', count(h)), end(h), end'(h));
    }
    AgreeBind(head, head', g, g');
  }

  lemma AgreeRestated<T>(f: Format<T>, f': Format<T>, g: Format<T>, g': Format<T>)
    requires Agree(f, f') && g.parse == f.parse && g'.parse == f'.parse
    ensures Agree(g, g')
  {
    forall sl: Slice ensures AgreeAt(g, g', sl) {
      assert AgreeAt(f, f', sl);
    }
  }

  // ----------------------------------------------------------- wire formats

  /** Every cap lies below 2^32, so a value that fits one word and not the other is above the cap. */
  lemma AgreeCapped(w: Word, w': Word, cap: nat)
    requires cap <= 0xFFFF_FFFF
    ensures Agree(Capped(w, cap), Capped(w', cap))
  {
    hide CompactParse;
    forall sl: Slice ensures AgreeAt(Capped(w, cap), Capped(w', cap), sl) {
      assert Capped(w, cap).parse(sl) == Vetted(CompactParse(sl.bytes), CapCheck(w, cap));
      assert Capped(w', cap).parse(sl) == Vetted(CompactParse(sl.bytes), CapCheck(w', cap));
    }
  }

  lemma AgreeVarBytes(w: Word, w': Word, cap: nat)
    requires cap <= 0xFFFF_FFFF
    ensures Agree(VarBytesFormat(w, cap), VarBytesFormat(w', cap))
  {
    hide CompactParse, Capped;
    var f, f', body := Capped(w, cap), Capped(w', cap), (c: Compact) => Raw(c.value);
    AgreeCapped(w, w', cap);
    forall c: Compact ensures Agree(body(c), body(c)) {
      AgreeSelf(body(c));
    }
    AgreeBind(f, f', body, body);
    AgreeMap(Bind(f, body), Bind(f', body), ToVarBytes, OfVarBytes, Silent());
    AgreeRestated(VarBytesShape(w, cap), VarBytesShape(w', cap), VarBytesFormat(w, cap), VarBytesFormat(w', cap));
  }

  lemma AgreeInput(w: Word, w': Word)
    ensures Agree(InputFormat(w), InputFormat(w'))
  {
    hide VarBytesFormat, OutPointFormat;
    AgreeVarBytes(w, w', MAX_SCRIPT_SIZE);
    AgreeSelf(Num(4));
    AgreeSelf(OutPointFormat());
    AgreePair(ScriptFormat(w), ScriptFormat(w'), Num(4), Num(4));
    AgreePair(OutPointFormat(), OutPointFormat(), Pair(ScriptFormat(w), Num(4)), Pair(ScriptFormat(w'), Num(4)));
    AgreeMap(
      Pair(OutPointFormat(), Pair(ScriptFormat(w), Num(4))), Pair(OutPointFormat(), Pair(ScriptFormat(w'), Num(4))),
      ToInput, OfInput, InputEvents);
    AgreeRestated(InputShape(w), InputShape(w'), InputFormat(w), InputFormat(w'));
  }

  lemma AgreeOutput(w: Word, w': Word)
    ensures Agree(OutputFormat(w), OutputFormat(w'))
  {
    hide VarBytesFormat;
    AgreeVarBytes(w, w', MAX_SCRIPT_SIZE);
    AgreeSelf(Num(8));
    AgreePair(Num(8), Num(8), ScriptFormat(w), ScriptFormat(w'));
    AgreeMap(Pair(Num(8), ScriptFormat(w)), Pair(Num(8), ScriptFormat(w')), ToOutput, OfOutput, OutputEvents);
    AgreeRestated(OutputShape(w), OutputShape(w'), OutputFormat(w), OutputFormat(w'));
  }

  lemma AgreeWitness(w: Word, w': Word)
    ensures Agree(WitnessFormat(w), WitnessFormat(w'))
  {
    hide VarBytesFormat, Capped;
    AgreeCapped(w, w', MAX_WITNESS_ITEMS);
    AgreeVarBytes(w, w', MAX_WITNESS_ITEM_SIZE);
    AgreeListed(Capped(w, MAX_WITNESS_ITEMS), Capped(w', MAX_WITNESS_ITEMS), CountValue(),
      WitnessItemFormat(w), WitnessItemFormat(w'));
    AgreeMap(WitnessBody(w), WitnessBody(w'), ToWitness, OfWitness, Silent());
    AgreeRestated(WitnessShape(w), WitnessShape(w'), WitnessFormat(w), WitnessFormat(w'));
  }

  lemma AgreeEnd(w: Word, w': Word, n: nat)
    ensures Agree(EndFormat(w, n), EndFormat(w', n))
  {
    hide WitnessFormat;
    var f, f' := Atomic(WitnessFormat(w)), Atomic(WitnessFormat(w'));
    AgreeWitness(w, w');
    AgreeAtomic(WitnessFormat(w), WitnessFormat(w'));
    AgreeMany(f, f', n);
    AgreeSelf(Num(4));
    AgreePair(Many(f, n), Many(f', n), Num(4), Num(4));
    AgreeMap(Pair(Many(f, n), Num(4)), Pair(Many(f', n), Num(4)), ToEnd, OfEnd, Silent());
    AgreeRestated(EndShape(w, n), EndShape(w', n), EndFormat(w, n), EndFormat(w', n));
  }

  lemma AgreeOuts(w: Word, w': Word, n: nat)
    ensures Agree(OutsFormat(w, n), OutsFormat(w', n))
  {
    hide OutputFormat, EndFormat, Capped;
    AgreeCapped(w, w', MAX_IO_COUNT);
    AgreeOutput(w, w');
    AgreeEnd(w, w', n);
    AgreeCounted(Capped(w, MAX_IO_COUNT), Capped(w', MAX_IO_COUNT), CountValue(), OutputFormat(w), OutputFormat(w'),
      (_: Compact) => EndFormat(w, n), (_: Compact) => EndFormat(w', n));
    AgreeMap(OutsBody(w, n), OutsBody(w', n), ToOuts, OfOuts, Silent());
    AgreeRestated(OutsShape(w, n), OutsShape(w', n), OutsFormat(w, n), OutsFormat(w', n));
  }

  lemma AgreeHead(w: Word, w': Word)
    ensures Agree(HeadFormat(w), HeadFormat(w'))
  {
    hide CompactParse;
    forall sl: Slice ensures AgreeAt(HeadFormat(w), HeadFormat(w'), sl) {
      var at := if sl.bytes != [] && sl.bytes[0] == 0 then After(sl, 2) else sl;
      assert InputCount(w).parse(at) == Vetted(CompactParse(at.bytes), InputCountCheck(w));
      assert InputCount(w').parse(at) == Vetted(CompactParse(at.bytes), InputCountCheck(w'));
    }
  }

  lemma AgreeTx(w: Word, w': Word)
    ensures Agree(TxFormat(w), TxFormat(w'))
  {
    hide InputFormat, OutsFormat, HeadFormat, Int32;
    AgreeHead(w, w');
    AgreeInput(w, w');
    forall h: TxHead ensures Agree(OutsAfter(w)(h), OutsAfter(w')(h)) {
      AgreeOuts(w, w', WitnessCount(h));
    }
    AgreeCounted(HeadFormat(w), HeadFormat(w'), HeadCount(), InputFormat(w), InputFormat(w'),
      OutsAfter(w), OutsAfter(w'));
    AgreeMap(InsBody(w), InsBody(w'), ToIns, OfIns, Silent());
    AgreeRestated(InsShape(w), InsShape(w'), InsFormat(w), InsFormat(w'));
    AgreeSelf(Int32());
    AgreePair(Int32(), Int32(), InsFormat(w), InsFormat(w'));
    AgreeMap(Pair(Int32(), InsFormat(w)), Pair(Int32(), InsFormat(w')), ToTx, OfTx, Silent());
    AgreeRestated(TxShape(w), TxShape(w'), TxFormat(w), TxFormat(w'));
  }

  // ------------------------------------------------------------- whole runs

  ghost predicate SameResult<T>(r: Result<T>, r': Result<T>) {
    r == r' || (r.Err? && r'.Err? && SameButKind(r.error, r'.error))
  }

  /** Any callbacks hear the same events of a block's transactions on both platforms, and streaming stops at the
      same place. */
  lemma {:induction false} StreamingAgrees<S>(w: Word, w': Word, n: nat, sl: Slice, step: Step<S>, st: S)
    ensures var r, r' := StreamRun(TxFormat(w), n, sl, step, st), StreamRun(TxFormat(w'), n, sl, step, st);
      && r'.state == r.state && r'.txs == r.txs && r'.used == r.used && r'.error.None? == r.error.None?
      && (r.error.Some? ==> SameButKind(r.error.value, r'.error.value))
    decreases n
  {
    hide TxFormat;
    if n > 0 {
      AgreeTx(w, w');
      assert AgreeAt(TxFormat(w), TxFormat(w'), sl);
      var p := TxFormat(w).parse(sl);
      var fed := Feed(step, st, p.events);
      if p.Good? && fed.error.None? {
        StreamingAgrees(w, w', n - 1, After(sl, p.used), step, fed.state);
      }
    }
  }

  /** The strict loop gives the same verdict and leaves the user's callbacks in the same state on both platforms. */
  lemma {:induction false} StrictAgrees<S>(
    w: Word, w': Word, sl: Slice, index: nat, total: nat, seen: nat, step: Step<S>, st: S)
    ensures var r, r' :=
        StrictRun(TxFormat(w), sl, index, total, seen, step, st),
        StrictRun(TxFormat(w'), sl, index, total, seen, step, st);
      r'.0 == r.0 && SameResult(r.1, r'.1)
    decreases total - index
  {
    hide TxFormat, WatchStep;
    if index < total {
      AgreeTx(w, w');
      assert AgreeAt(TxFormat(w), TxFormat(w'), sl);
      var p := TxFormat(w).parse(sl);
      var fed := Feed(Watched(step, index), Watch(st, false, false, seen), p.events);
      if p.Good? && fed.error.None? {
        StrictAgrees(w, w', After(sl, p.used), index + 1, total, fed.state.coinbaseTxs, step, fed.state.user);
      }
    }
  }

  /** The header and transaction count of a block are read alike. */
  lemma BlockHeadAgrees(w: Word, w': Word)
    ensures Agree(BlockHead(w), BlockHead(w'))
  {
    hide Capped;
    AgreeCapped(w, w', MAX_BLOCK_TXN);
    AgreeSelf(Raw(HEADER_SIZE));
    AgreePair(Raw(HEADER_SIZE), Raw(HEADER_SIZE), Capped(w, MAX_BLOCK_TXN), Capped(w', MAX_BLOCK_TXN));
  }

  /** Strict parsing of a block gives the same verdict on both platforms, and leaves the callbacks in the same state. */
  lemma StrictBlockAgrees<S>(w: Word, w': Word, data: Slice, step: Step<S>, st: S)
    ensures var r, r' := StrictBlock(w, data, step, st), StrictBlock(w', data, step, st);
      r'.0 == r.0 && SameResult(r.1, r'.1)
  {
    hide BlockHead, TxFormat, StrictRun, After;
    BlockHeadAgrees(w, w');
    assert AgreeAt(BlockHead(w), BlockHead(w'), data);
    var h := BlockHead(w).parse(data);
    if h.Good? {
      StrictAgrees(w, w', After(data, h.used), 0, h.value.1.value, 0, step, st);
    }
  }
}
