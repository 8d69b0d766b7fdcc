/** Zero copy: the slices handed to the callbacks lie in the input, hold its bytes, and never overlap. */
module Views {
  import opened Bytes
  import opened Types
  import opened Formats
  import opened Primitives
  import opened Wire
  import opened BlockWire
  import opened Reads

  function ViewsOf(e: Event): seq<Slice> {
    match e
    case OnInput(i) => [i.previousOutput.txid, i.scriptSig]
    case OnOutput(o) => [o.scriptPubKey]
  }

  function AllViews(events: seq<Event>): seq<Slice> {
    if events == [] then [] else ViewsOf(events[0]) + AllViews(events[1..])
  }

  lemma {:induction false} AllViewsConcat(x: seq<Event>, y: seq<Event>)
    ensures AllViews(x + y) == AllViews(x) + AllViews(y)
  {
    if x == [] {
      assert x + y == y;
    } else {
      assert (x + y)[1..] == x[1..] + y;
      AllViewsConcat(x[1..], y);
    }
  }

  /** The slice is a piece of `sl`, bytes and all. */
  predicate PieceOf(v: Slice, sl: Slice) {
    && sl.off <= v.off && v.off + |v.bytes| <= sl.off + |sl.bytes|
    && Drop(sl.bytes, v.off - sl.off)[..|v.bytes|] == v.bytes
  }

  /** The slices are pieces of `sl`, one after another without overlap, between offsets `lo` and `hi`. */
  ghost predicate InOrder(views: seq<Slice>, sl: Slice, lo: nat, hi: nat) {
    if views == [] then lo <= hi else
      && lo <= views[0].off && PieceOf(views[0], sl)
      && InOrder(views[1..], sl, views[0].off + |views[0].bytes|, hi)
  }

  lemma {:induction false} InOrderConcat(x: seq<Slice>, y: seq<Slice>, sl: Slice, lo: nat, mid: nat, hi: nat)
    requires InOrder(x, sl, lo, mid) && InOrder(y, sl, mid, hi)
    ensures InOrder(x + y, sl, lo, hi)
    decreases |x|
  {
    if x == [] {
      assert x + y == y;
      InOrderWiden(y, sl, mid, hi, lo, hi);
    } else {
      assert (x + y)[1..] == x[1..] + y;
      InOrderConcat(x[1..], y, sl, x[0].off + |x[0].bytes|, mid, hi);
    }
  }

  lemma {:induction false} InOrderWiden(views: seq<Slice>, sl: Slice, lo: nat, hi: nat, lo': nat, hi': nat)
    requires InOrder(views, sl, lo, hi) && lo' <= lo && hi <= hi'
    ensures InOrder(views, sl, lo', hi')
    decreases |views|
  {
    if views != [] {
      var next := views[0].off + |views[0].bytes|;
      InOrderWiden(views[1..], sl, next, hi, next, hi');
    }
  }

  /** Pieces of the rest of a slice are pieces of the slice. */
  lemma {:induction false} InOrderAfter(views: seq<Slice>, sl: Slice, n: nat, lo: nat, hi: nat)
    requires n <= |sl.bytes| && InOrder(views, After(sl, n), lo, hi)
    ensures InOrder(views, sl, lo, hi)
    decreases |views|
  {
    if views != [] {
      DropDrop(sl.bytes, n, views[0].off - sl.off - n);
      InOrderAfter(views[1..], sl, n, views[0].off + |views[0].bytes|, hi);
    }
  }

  /** In order means pairwise disjoint, at non-decreasing offsets. */
  lemma {:induction false} InOrderDisjoint(views: seq<Slice>, sl: Slice, lo: nat, hi: nat, i: nat, j: nat)
    requires InOrder(views, sl, lo, hi) && i < j < |views|
    ensures lo <= views[i].off && views[i].off + |views[i].bytes| <= views[j].off
    ensures views[j].off + |views[j].bytes| <= hi
    ensures PieceOf(views[i], sl) && PieceOf(views[j], sl)
    decreases |views|
  {
    var next := views[0].off + |views[0].bytes|;
    if i == 0 {
      InOrderAt(views[1..], sl, next, hi, j - 1);
    } else {
      InOrderDisjoint(views[1..], sl, next, hi, i - 1, j - 1);
    }
  }

  lemma {:induction false} InOrderAt(views: seq<Slice>, sl: Slice, lo: nat, hi: nat, j: nat)
    requires InOrder(views, sl, lo, hi) && j < |views|
    ensures lo <= views[j].off && views[j].off + |views[j].bytes| <= hi && PieceOf(views[j], sl)
    decreases |views|
  {
    var next := views[0].off + |views[0].bytes|;
    if j > 0 {
      InOrderAt(views[1..], sl, next, hi, j - 1);
    } else if |views| > 1 {
      InOrderAt(views[1..], sl, next, hi, 0);
    }
  }

  // ------------------------------------------------------------------ tidy

  /** Where the views of a parse must end: at the end of what it consumed, or of its input when it fails. */
  function EndOf<T>(p: Parsed<T>, sl: Slice): nat {
    if p.Good? then sl.off + p.used else sl.off + |sl.bytes|
  }

  ghost predicate TidyAt<T>(f: Format<T>, sl: Slice) {
    var p := f.parse(sl);
    (p.Good? ==> p.used <= |sl.bytes|) && InOrder(AllViews(p.events), sl, sl.off, EndOf(p, sl))
  }

  ghost predicate Tidy<T>(f: Format<T>) {
    forall sl: Slice :: TidyAt(f, sl)
  }

  lemma TidySilent<T(!new)>(f: Format<T>)
    requires Lawful(f) && Quiet(f)
    ensures Tidy(f)
  {
    forall sl: Slice ensures TidyAt(f, sl) {
      assert SoundAt(f, sl);
      assert f.parse(sl).events == [];
    }
  }

  /** What `x` read and then what `y` read after it. */
  lemma Chain(x: seq<Event>, y: seq<Event>, sl: Slice, n: nat, hi: nat)
    requires n <= |sl.bytes| && InOrder(AllViews(x), sl, sl.off, sl.off + n)
    requires InOrder(AllViews(y), After(sl, n), sl.off + n, hi)
    ensures InOrder(AllViews(x + y), sl, sl.off, hi)
  {
    AllViewsConcat(x, y);
    InOrderAfter(AllViews(y), sl, n, sl.off + n, hi);
    InOrderConcat(AllViews(x), AllViews(y), sl, sl.off, sl.off + n, hi);
  }

  lemma {:induction false} TidyRun<T>(f: Format<T>, n: nat, sl: Slice)
    requires Tidy(f)
    ensures var r := ManyRun(f, n, sl);
      && (r.error.None? ==> r.used <= |sl.bytes|)
      && InOrder(AllViews(r.events), sl, sl.off, if r.error.None? then sl.off + r.used else sl.off + |sl.bytes|)
  {
    hide AllViews, InOrder;
    if n == 0 {
      NoViews(sl);
    } else {
      var p := f.parse(sl);
      assert TidyAt(f, sl);
      if p.Good? {
        var sl' := After(sl, p.used);
        var r := ManyRun(f, n - 1, sl');
        AfterAfter(sl, p.used, r.used);
        TidyRun(f, n - 1, sl');
        Chain(p.events, r.events, sl, p.used, if r.error.None? then sl.off + p.used + r.used else sl.off + |sl.bytes|);
      }
    }
  }

  lemma TidyInput(w: Word)
    ensures Tidy(InputFormat(w))
  {
    forall sl: Slice ensures TidyAt(InputFormat(w), sl) {
      TidyInputAt(w, sl);
    }
  }

  lemma TidyInputAt(w: Word, sl: Slice)
    ensures TidyAt(InputFormat(w), sl)
  {
    hide InputShape, AllViews, InOrder;
    var p := InputFormat(w).parse(sl);
    InputEventsRead(w, sl);
    LawfulInput(w);
    assert SoundAt(InputFormat(w), sl);
    if p.Good? {
      var v, script := p.value, InputView(sl.off, p.value).scriptSig;
      assert v.txid == sl.bytes[..32];
      ScriptPiece(sl, v.txid + LE(4, v.vout), v.script, LE(4, v.sequence), p.used);
      TwoViews(Slice(sl.off, v.txid), script, sl, sl.off + p.used);
      OneEvent(p.events[0]);
    } else {
      NoViews(sl);
    }
  }

  lemma OneEvent(e: Event)
    ensures AllViews([e]) == ViewsOf(e)
  {
    assert [e][1..] == [];
    assert ViewsOf(e) + [] == ViewsOf(e);
  }

  lemma NoViews(sl: Slice)
    ensures forall hi: nat :: sl.off <= hi ==> InOrder(AllViews([]), sl, sl.off, hi)
  {
  }

  lemma TwoViews(x: Slice, y: Slice, sl: Slice, hi: nat)
    requires PieceOf(x, sl) && PieceOf(y, sl) && x.off + |x.bytes| <= y.off && y.off + |y.bytes| <= hi
    ensures InOrder([x, y], sl, sl.off, hi) && InOrder([y], sl, sl.off, hi)
  {
    assert [x, y][1..] == [y] && [y][1..] == [];
  }

  /** A script between `front` and `back` lies where its view says. */
  lemma ScriptPiece(sl: Slice, front: seq<Byte>, v: VarBytes, back: seq<Byte>, n: nat)
    requires n <= |sl.bytes| && sl.bytes[..n] == front + EncodeVarBytes(v) + back
    ensures PieceOf(Slice(sl.off + |front| + |EncodeCompact(v.len)|, v.bytes), sl)
    ensures |front| + |EncodeCompact(v.len)| + |v.bytes| <= n
  {
    hide EncodeCompact;
    var k := |front| + |EncodeCompact(v.len)|;
    assert sl.bytes[..n][k..k + |v.bytes|] == v.bytes;
    assert Drop(sl.bytes, k)[..|v.bytes|] == sl.bytes[..n][k..k + |v.bytes|];
  }

  lemma TidyOutput(w: Word)
    ensures Tidy(OutputFormat(w))
  {
    forall sl: Slice ensures TidyAt(OutputFormat(w), sl) {
      TidyOutputAt(w, sl);
    }
  }

  lemma TidyOutputAt(w: Word, sl: Slice)
    ensures TidyAt(OutputFormat(w), sl)
  {
    hide OutputShape, AllViews, InOrder;
    var p := OutputFormat(w).parse(sl);
    OutputEventsRead(w, sl);
    LawfulOutput(w);
    assert SoundAt(OutputFormat(w), sl);
    if p.Good? {
      var v, script := p.value, OutputView(sl.off, p.value).scriptPubKey;
      assert LE(8, v.value) + EncodeVarBytes(v.script) + [] == EncodeOutput(v);
      ScriptPiece(sl, LE(8, v.value), v.script, [], p.used);
      TwoViews(Slice(sl.off, []), script, sl, sl.off + p.used);
      OneEvent(p.events[0]);
    } else {
      NoViews(sl);
    }
  }

  /** `x` in a run, `y` in what follows it, and an end. */
  lemma TidyTail<A, B>(sl: Slice, h: nat, l: Run<A>, e: Parsed<B>)
    requires h <= |sl.bytes|
    requires l.error.None? && l.used <= |After(sl, h).bytes|
    requires InOrder(AllViews(l.events), After(sl, h), sl.off + h, sl.off + h + l.used)
    requires var end := After(After(sl, h), l.used);
      (e.Good? ==> e.used <= |end.bytes|) && InOrder(AllViews(e.events), end, end.off, EndOf(e, end))
    ensures InOrder(AllViews(l.events + e.events), sl, sl.off,
      if e.Good? then sl.off + h + l.used + e.used else sl.off + |sl.bytes|)
  {
    hide AllViews, InOrder, After;
    AfterAfter(sl, h, l.used);
    var sl' := After(sl, h);
    var end := After(sl', l.used);
    AfterAfter(sl', l.used, 0);
    Chain(l.events, e.events, sl', l.used, EndOf(e, end));
    InOrderAfter(AllViews(l.events + e.events), sl, h, sl.off + h, EndOf(e, end));
    InOrderWiden(AllViews(l.events + e.events), sl, sl.off + h, EndOf(e, end), sl.off, EndOf(e, end));
  }

  /** A counted list is tidy when its head is quiet and its parts are tidy. */
  lemma TidyCounted<H(!new), A, B>(head: Format<H>, count: H -> nat, item: Format<A>, end: H -> Format<B>)
    requires Lawful(head) && Quiet(head) && Tidy(item) && forall h :: Tidy(end(h))
    ensures Tidy(Counted(head, count, item, end))
  {
    forall sl: Slice ensures TidyAt(Counted(head, count, item, end), sl) {
      TidyCountedAt(head, count, item, end, sl);
    }
  }

  lemma TidyCountedAt<H(!new), A, B>(head: Format<H>, count: H -> nat, item: Format<A>, end: H -> Format<B>, sl: Slice)
    requires Lawful(head) && Quiet(head) && Tidy(item) && forall h :: Tidy(end(h))
    ensures TidyAt(Counted(head, count, item, end), sl)
  {
    hide AllViews, InOrder, ManyRun;
    CountedReads(head, count, item, end, sl);
    assert SoundAt(head, sl);
    var h := head.parse(sl);
    if h.Bad? {
      NoViews(sl);
    } else {
      var sl' := After(sl, h.used);
      var l := ManyRun(item, count(h.value), sl');
      TidyRun(item, count(h.value), sl');
      if l.error.Some? {
        var hi := sl.off + |sl.bytes|;
        InOrderAfter(AllViews(l.events), sl, h.used, sl'.off, hi);
        InOrderWiden(AllViews(l.events), sl, sl'.off, hi, sl.off, hi);
      } else {
        assert TidyAt(end(h.value), After(sl', l.used));
        TidyTail(sl, h.used, l, end(h.value).parse(After(sl', l.used)));
      }
    }
  }

  lemma TidyMapped<A, B>(f: Format<A>, to: A -> B, g: Format<B>)
    requires Tidy(f)
    requires forall sl: Slice :: g.parse(sl) == MapParse(f, to, Silent(), sl)
    ensures Tidy(g)
  {
    forall sl: Slice ensures TidyAt(g, sl) {
      assert TidyAt(f, sl);
      var p := f.parse(sl);
      assert p.events + [] == p.events;
    }
  }

  lemma TidyTx(w: Word)
    ensures Tidy(TxFormat(w))
  {
    hide AllViews, InOrder, EndFormat, OutputFormat, InputFormat, HeadFormat, Capped, Int32, ManyRun;
    LawfulCapped(w, MAX_IO_COUNT);
    QuietCapped(w, MAX_IO_COUNT);
    TidyOutput(w);
    forall h: TxHead ensures Tidy(OutsAfter(w)(h)) {
      TidyOuts(w, WitnessCount(h));
    }
    LawfulHead(w);
    QuietHead(w);
    TidyInput(w);
    TidyCounted(HeadFormat(w), HeadCount(), InputFormat(w), OutsAfter(w));
    TidyMapped(InsBody(w), ToIns, InsFormat(w));
    forall sl: Slice ensures TidyAt(TxFormat(w), sl) {
      TidyTxAt(w, sl);
    }
  }

  lemma TidyOuts(w: Word, n: nat)
    ensures Tidy(OutsFormat(w, n))
  {
    hide AllViews, InOrder, EndFormat, OutputFormat, Capped, ManyRun;
    LawfulCapped(w, MAX_IO_COUNT);
    QuietCapped(w, MAX_IO_COUNT);
    TidyOutput(w);
    LawfulEnd(w, n);
    QuietEnd(w, n);
    TidySilent(EndFormat(w, n));
    TidyCounted(Capped(w, MAX_IO_COUNT), CountValue(), OutputFormat(w), (_: Compact) => EndFormat(w, n));
    TidyMapped(OutsBody(w, n), ToOuts, OutsFormat(w, n));
  }

  lemma TidyTxAt(w: Word, sl: Slice)
    requires Tidy(InsFormat(w))
    ensures TidyAt(TxFormat(w), sl)
  {
    hide AllViews, InOrder, InsFormat;
    TxReads(w, sl);
    LawfulInt32();
    var v := Int32().parse(sl);
    assert SoundAt(Int32(), sl);
    if v.Bad? {
      NoViews(sl);
    } else {
      var sl' := After(sl, v.used);
      var i := InsFormat(w).parse(sl');
      assert TidyAt(InsFormat(w), sl');
      InOrderAfter(AllViews(i.events), sl, v.used, sl'.off, EndOf(i, sl'));
      InOrderWiden(AllViews(i.events), sl, sl'.off, EndOf(i, sl'), sl.off, EndOf(i, sl'));
    }
  }

  /** Over any run of a tidy reader, failing or not, every slice handed to a callback is a piece of the input with the
      input's bytes, and any two are disjoint and in order. */
  lemma RunViewsDisjoint<T>(f: Format<T>, n: nat, sl: Slice, i: nat, j: nat)
    requires Tidy(f) && i < j < |AllViews(ManyRun(f, n, sl).events)|
    ensures var views := AllViews(ManyRun(f, n, sl).events);
      && PieceOf(views[i], sl) && PieceOf(views[j], sl)
      && views[i].off + |views[i].bytes| <= views[j].off
  {
    hide AllViews, Tidy;
    var r := ManyRun(f, n, sl);
    TidyRun(f, n, sl);
    var hi := if r.error.None? then sl.off + r.used else sl.off + |sl.bytes|;
    InOrderDisjoint(AllViews(r.events), sl, sl.off, hi, i, j);
  }

  /** The slices of one success lie inside the bytes it consumed. */
  lemma ViewsInside<T>(f: Format<T>, sl: Slice, i: nat)
    requires Tidy(f) && f.parse(sl).Good? && i < |AllViews(f.parse(sl).events)|
    ensures var p := f.parse(sl);
      var v := AllViews(p.events)[i];
      sl.off <= v.off && v.off + |v.bytes| <= sl.off + p.used && PieceOf(v, sl)
  {
    hide AllViews;
    var p := f.parse(sl);
    assert TidyAt(f, sl);
    InOrderAt(AllViews(p.events), sl, sl.off, sl.off + p.used, i);
  }

  /** The reader of blocks is tidy, too. */
  lemma TidyBlock(w: Word, data: Slice)
    ensures InOrder(AllViews(BlockFormat(w).parse(data).events), data, data.off, data.off + |data.bytes|)
  {
    hide AllViews, InOrder, Tidy, ManyRun, TxFormat, BlockHead, BlockShape, After;
    BlockReads(w, data);
    var h := BlockHead(w).parse(data);
    NoViews(data);
    if h.Good? {
      TidyTx(w);
      BlockHeadUsed(w, data);
      TidyRunAfter(TxFormat(w), h.value.1.value, data, h.used);
    }
  }

  /** A run that begins `k` bytes into the input. */
  lemma TidyRunAfter<T>(f: Format<T>, n: nat, sl: Slice, k: nat)
    requires Tidy(f) && k <= |sl.bytes|
    ensures InOrder(AllViews(ManyRun(f, n, After(sl, k)).events), sl, sl.off, sl.off + |sl.bytes|)
  {
    hide AllViews, InOrder, Tidy, ManyRun, After;
    var sl', hi := After(sl, k), sl.off + |sl.bytes|;
    var run := ManyRun(f, n, sl');
    TidyRun(f, n, sl');
    AfterAfter(sl, k, 0);
    InOrderWiden(AllViews(run.events), sl', sl'.off, if run.error.None? then sl'.off + run.used else hi, sl.off, hi);
    InOrderAfter(AllViews(run.events), sl, k, sl.off, hi);
  }

  lemma BlockHeadUsed(w: Word, data: Slice)
    ensures var h := BlockHead(w).parse(data); h.Good? ==> h.used <= |data.bytes|
  {
    LawfulRaw(HEADER_SIZE);
    LawfulCapped(w, MAX_BLOCK_TXN);
    LawfulPair(Raw(HEADER_SIZE), Capped(w, MAX_BLOCK_TXN));
    assert SoundAt(BlockHead(w), data);
  }

  /** What was heard first is in order, whatever was not heard after it. */
  lemma InOrderPrefix(events: seq<Event>, log: seq<Event>, sl: Slice, lo: nat, hi: nat)
    requires log <= events && InOrder(AllViews(events), sl, lo, hi)
    ensures InOrder(AllViews(log), sl, lo, hi)
  {
    hide AllViews, InOrder;
    var rest := events[|log|..];
    assert events == log + rest;
    AllViewsConcat(log, rest);
    InOrderFront(AllViews(log), AllViews(rest), sl, lo, hi);
  }

  lemma {:induction false} InOrderFront(x: seq<Slice>, y: seq<Slice>, sl: Slice, lo: nat, hi: nat)
    requires InOrder(x + y, sl, lo, hi)
    ensures InOrder(x, sl, lo, hi)
    decreases |x|
  {
    if x == [] {
      assert x + y == y;
      InOrderBounds(y, sl, lo, hi);
    } else {
      assert (x + y)[1..] == x[1..] + y;
      InOrderFront(x[1..], y, sl, x[0].off + |x[0].bytes|, hi);
    }
  }

  lemma {:induction false} InOrderBounds(views: seq<Slice>, sl: Slice, lo: nat, hi: nat)
    requires InOrder(views, sl, lo, hi)
    ensures lo <= hi
    decreases |views|
  {
    if views != [] {
      InOrderBounds(views[1..], sl, views[0].off + |views[0].bytes|, hi);
    }
  }
}
