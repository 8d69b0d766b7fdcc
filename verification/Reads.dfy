/** The wire formats' readers unrolled into the reads that the parse methods perform. */
module Reads {
  import opened Bytes
  import opened Types
  import opened Formats
  import opened Primitives
  import opened Wire

  lemma QuietOutPoint()
    ensures Quiet(OutPointFormat())
  {
    forall sl: Slice ensures OutPointFormat().parse(sl).events == [] {
      PairReads(Raw(32), Num(4), sl);
    }
  }

  lemma QuietVarBytes(w: Word, cap: nat)
    ensures Quiet(VarBytesFormat(w, cap))
  {
    hide VarBytesFormat, CompactParse, After;
    forall sl: Slice ensures VarBytesFormat(w, cap).parse(sl).events == [] {
      VarBytesReads(w, cap, sl);
    }
  }

  /** The outpoint, the script and the sequence number. */
  function InputParse(w: Word, sl: Slice): Parsed<RawInput> {
    var x := OutPointFormat().parse(sl);
    if x.Bad? then Bad(x.error, x.used, []) else
      var y := ScriptFormat(w).parse(After(sl, 36));
      if y.Bad? then Bad(y.error, 36 + y.used, []) else
        var z := Num(4).parse(After(sl, 36 + y.used));
        if z.Bad? then Bad(z.error, 36 + y.used + z.used, []) else
          var v := RawInput(x.value.0, x.value.1, y.value, z.value);
          Good(v, 36 + y.used + z.used, [OnInput(InputView(sl.off, v))])
  }

  lemma InputReads(w: Word, sl: Slice)
    ensures InputFormat(w).parse(sl) == InputParse(w, sl)
    ensures OutPointFormat().parse(sl).Good? ==> OutPointFormat().parse(sl).used == 36
  {
    hide InputView, VarBytesFormat, EncodeCompact;
    PairReads(Raw(32), Num(4), sl);
    QuietOutPoint();
    QuietVarBytes(w, MAX_SCRIPT_SIZE);
    AfterAfter(sl, 36, ScriptFormat(w).parse(After(sl, 36)).used);
    Reads3(OutPointFormat(), ScriptFormat(w), Num(4), ToInput, OfInput, InputEvents, sl);
  }

  lemma NumUsed(n: nat, sl: Slice)
    ensures Num(n).parse(sl).Good? ==> Num(n).parse(sl).used == n
  {
  }

  /** An input raises its event once complete, and nothing when it fails. */
  lemma InputEventsRead(w: Word, sl: Slice)
    ensures var p := InputFormat(w).parse(sl);
      if p.Bad? then p.events == [] else
        p.events == [OnInput(InputView(sl.off, p.value))] && p.events[0].End() == sl.off + p.used
  {
    hide OutPointFormat, VarBytesFormat, Num, After, EncodeCompact;
    InputReads(w, sl);
    VarBytesUsed(w, MAX_SCRIPT_SIZE, After(sl, 36));
    NumUsed(4, After(sl, 36 + ScriptFormat(w).parse(After(sl, 36)).used));
  }

  lemma OutputEventsRead(w: Word, sl: Slice)
    ensures var p := OutputFormat(w).parse(sl);
      if p.Bad? then p.events == [] else
        p.events == [OnOutput(OutputView(sl.off, p.value))] && p.events[0].End() == sl.off + p.used
  {
    hide VarBytesFormat, Num, After, EncodeCompact;
    OutputReads(w, sl);
    NumUsed(8, sl);
    VarBytesUsed(w, MAX_SCRIPT_SIZE, After(sl, 8));
  }

  lemma OutputReads(w: Word, sl: Slice)
    ensures OutputFormat(w).parse(sl) == Parse2(Num(8), ScriptFormat(w), ToOutput, OutputEvents, sl)
  {
    QuietVarBytes(w, MAX_SCRIPT_SIZE);
    Reads2(Num(8), ScriptFormat(w), ToOutput, OfOutput, OutputEvents, sl);
  }

  lemma QuietCapped(w: Word, cap: nat)
    ensures Quiet(Capped(w, cap))
  {
    forall sl: Slice ensures Capped(w, cap).parse(sl).events == [] {
      assert Capped(w, cap).parse(sl) == Vetted(CompactParse(sl.bytes), CapCheck(w, cap));
    }
  }

  lemma WitnessReads(w: Word, sl: Slice)
    ensures var h := Capped(w, MAX_WITNESS_ITEMS).parse(sl);
      WitnessFormat(w).parse(sl) ==
      if h.Bad? then Bad(h.error, h.used, []) else
        var l := ManyRun(WitnessItemFormat(w), h.value.value, After(sl, h.used));
        if l.error.Some? then Bad(l.error.value, h.used + l.used, [])
        else Good(RawWitness(h.value, l.items), h.used + l.used, [])
  {
    hide ManyRun, VarBytesFormat, After, CompactParse;
    var head, item := Capped(w, MAX_WITNESS_ITEMS), WitnessItemFormat(w);
    QuietCapped(w, MAX_WITNESS_ITEMS);
    QuietVarBytes(w, MAX_WITNESS_ITEM_SIZE);
    ListedReads(head, CountValue(), item, sl);
    assert WitnessFormat(w).parse(sl) == MapParse(WitnessBody(w), ToWitness, Silent(), sl);
    var h := head.parse(sl);
    if h.Good? {
      QuietRun(item, h.value.value, After(sl, h.used));
    }
  }

  lemma QuietWitness(w: Word)
    ensures Quiet(WitnessFormat(w)) && Quiet(Atomic(WitnessFormat(w)))
  {
    forall sl: Slice ensures WitnessFormat(w).parse(sl).events == [] {
      WitnessReads(w, sl);
    }
  }

  /** The witnesses and the lock time. */
  function EndParse(w: Word, n: nat, sl: Slice): Parsed<TxEnd> {
    var l := ManyRun(Atomic(WitnessFormat(w)), n, sl);
    if l.error.Some? then Bad(l.error.value, l.used, []) else
      var t := Num(4).parse(After(sl, l.used));
      if t.Bad? then Bad(t.error, l.used + t.used, []) else Good(TxEnd(l.items, t.value), l.used + t.used, [])
  }

  lemma EndReads(w: Word, n: nat, sl: Slice)
    ensures EndFormat(w, n).parse(sl) == EndParse(w, n, sl)
  {
    hide ManyRun, WitnessFormat, After;
    var f := Atomic(WitnessFormat(w));
    QuietWitness(w);
    forall sl: Slice ensures Many(f, n).parse(sl).events == [] {
      QuietRun(f, n, sl);
    }
    Reads2(Many(f, n), Num(4), ToEnd, OfEnd, Silent(), sl);
  }

  lemma QuietEnd(w: Word, n: nat)
    ensures Quiet(EndFormat(w, n))
  {
    forall sl: Slice ensures EndFormat(w, n).parse(sl).events == [] {
      EndReads(w, n, sl);
    }
  }

  /** The outputs, and then the end. */
  function OutsParse(w: Word, n: nat, sl: Slice): Parsed<TxOuts> {
    var h := Capped(w, MAX_IO_COUNT).parse(sl);
    if h.Bad? then Bad(h.error, h.used, []) else
      var l := ManyRun(OutputFormat(w), h.value.value, After(sl, h.used));
      if l.error.Some? then Bad(l.error.value, h.used + l.used, l.events) else
        var e := EndFormat(w, n).parse(After(After(sl, h.used), l.used));
        if e.Bad? then Bad(e.error, h.used + l.used + e.used, l.events)
        else Good(TxOuts(h.value, l.items, e.value), h.used + l.used + e.used, l.events)
  }

  lemma OutsReads(w: Word, n: nat, sl: Slice)
    ensures OutsFormat(w, n).parse(sl) == OutsParse(w, n, sl)
  {
    hide ManyRun, OutputFormat, EndFormat, After, CompactParse;
    QuietCapped(w, MAX_IO_COUNT);
    QuietEnd(w, n);
    CountedReads(Capped(w, MAX_IO_COUNT), CountValue(), OutputFormat(w), (_: Compact) => EndFormat(w, n), sl);
    assert OutsFormat(w, n).parse(sl) == MapParse(OutsBody(w, n), ToOuts, Silent(), sl);
    var p := OutsParse(w, n, sl);
    assert p.events + [] == p.events;
  }

  /** The marker and inputs, and then the outputs. */
  function InsParse(w: Word, sl: Slice): Parsed<TxIns> {
    var h := HeadFormat(w).parse(sl);
    if h.Bad? then Bad(h.error, h.used, []) else
      var l := ManyRun(InputFormat(w), h.value.count.value, After(sl, h.used));
      if l.error.Some? then Bad(l.error.value, h.used + l.used, l.events) else
        var e := OutsFormat(w, WitnessCount(h.value)).parse(After(After(sl, h.used), l.used));
        if e.Bad? then Bad(e.error, h.used + l.used + e.used, l.events + e.events)
        else Good(TxIns(h.value, l.items, e.value), h.used + l.used + e.used, l.events + e.events)
  }

  lemma InsReads(w: Word, sl: Slice)
    ensures InsFormat(w).parse(sl) == InsParse(w, sl)
  {
    hide ManyRun, InputFormat, OutsFormat, After, HeadParse;
    QuietHead(w);
    CountedReads(HeadFormat(w), HeadCount(), InputFormat(w), OutsAfter(w), sl);
    assert InsFormat(w).parse(sl) == MapParse(InsBody(w), ToIns, Silent(), sl);
    var p := InsParse(w, sl);
    assert p.events + [] == p.events;
  }

  lemma QuietHead(w: Word)
    ensures Quiet(HeadFormat(w))
  {
  }

  /** Past the marker: the count is one CompactSize integer, at the first byte or after marker and flag. */
  lemma HeadReads(w: Word, sl: Slice, segwit: bool)
    requires sl.bytes != [] && segwit == (sl.bytes[0] == 0)
    requires segwit ==> |sl.bytes| >= 2 && sl.bytes[1] == 1
    ensures var k := if segwit then 2 else 0;
      var x := CompactParse(After(sl, k).bytes);
      HeadFormat(w).parse(sl) ==
      if x.Bad? then Bad(x.error, k + x.used, []) else
        var refused := InputCountCheck(w)(x.value);
        if refused.Some? then Bad(refused.value, k + x.used, []) else Good(TxHead(segwit, x.value), k + x.used, [])
  {
    hide CompactParse;
    var k := if segwit then 2 else 0;
    var x := CompactParse(After(sl, k).bytes);
    assert !segwit ==> After(sl, k) == sl;
    assert InputCount(w).parse(After(sl, k)) == Vetted(x, InputCountCheck(w));
    CompactUsed(After(sl, k).bytes);
  }

  /** The version, and then the rest. */
  function TxParse(w: Word, sl: Slice): Parsed<RawTx> {
    var v := Int32().parse(sl);
    if v.Bad? then Bad(v.error, v.used, []) else
      var i := InsFormat(w).parse(After(sl, v.used));
      if i.Bad? then Bad(i.error, v.used + i.used, i.events)
      else Good(RawTx(v.value, i.value), v.used + i.used, i.events)
  }

  lemma TxReads(w: Word, sl: Slice)
    ensures TxFormat(w).parse(sl) == TxParse(w, sl)
  {
    hide InsFormat, After;
    PairReads(Int32(), InsFormat(w), sl);
    assert TxFormat(w).parse(sl) == MapParse(Pair(Int32(), InsFormat(w)), ToTx, Silent(), sl);
    var p := TxParse(w, sl);
    assert [] + p.events == p.events && p.events + [] == p.events;
  }
}
