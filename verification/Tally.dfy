/** How often the callbacks are called, and where the version and the lock time of a transaction lie. */
module Tallies {
  import opened Bytes
  import opened Types
  import opened Formats
  import opened Primitives
  import opened Wire
  import opened BlockWire

  function InputCalls(events: seq<Event>): nat {
    if events == [] then 0 else (if events[0].OnInput? then 1 else 0) + InputCalls(events[1..])
  }

  function OutputCalls(events: seq<Event>): nat {
    if events == [] then 0 else (if events[0].OnOutput? then 1 else 0) + OutputCalls(events[1..])
  }

  lemma {:induction false} CallsConcat(x: seq<Event>, y: seq<Event>)
    ensures InputCalls(x + y) == InputCalls(x) + InputCalls(y)
    ensures OutputCalls(x + y) == OutputCalls(x) + OutputCalls(y)
  {
    if x == [] {
      assert x + y == y;
    } else {
      assert (x + y)[1..] == x[1..] + y;
      CallsConcat(x[1..], y);
    }
  }

  lemma OneCall(e: Event)
    ensures InputCalls([e]) == (if e.OnInput? then 1 else 0) && OutputCalls([e]) == (if e.OnOutput? then 1 else 0)
  {
    assert [e][1..] == [];
  }

  lemma {:induction false} InputsCalled(w: Word, b: nat, items: seq<RawInput>)
    ensures var ev := EventsOfAll(InputFormat(w), b, items); InputCalls(ev) == |items| && OutputCalls(ev) == 0
    decreases items
  {
    hide InputShape, EncodeInput, InputView;
    if items != [] {
      var rest := EventsOfAll(InputFormat(w), b + |EncodeInput(items[0])|, items[1..]);
      OneCall(OnInput(InputView(b, items[0])));
      CallsConcat([OnInput(InputView(b, items[0]))], rest);
      InputsCalled(w, b + |EncodeInput(items[0])|, items[1..]);
    }
  }

  lemma {:induction false} OutputsCalled(w: Word, b: nat, items: seq<RawOutput>)
    ensures var ev := EventsOfAll(OutputFormat(w), b, items); InputCalls(ev) == 0 && OutputCalls(ev) == |items|
    decreases items
  {
    hide OutputShape, EncodeOutput, OutputView;
    if items != [] {
      var rest := EventsOfAll(OutputFormat(w), b + |EncodeOutput(items[0])|, items[1..]);
      OneCall(OnOutput(OutputView(b, items[0])));
      CallsConcat([OnOutput(OutputView(b, items[0]))], rest);
      OutputsCalled(w, b + |EncodeOutput(items[0])|, items[1..]);
    }
  }

  /** One call for each input and each output of a transaction. */
  lemma TxCalled(w: Word, b: nat, t: RawTx)
    ensures InputCalls(TxEvents(w, b, t)) == |t.Inputs()| && OutputCalls(TxEvents(w, b, t)) == |t.Outputs()|
  {
    hide EventsOfAll, InputFormat, OutputFormat, EncodeAll, EncodeHead, EncodeCompact;
    var at := b + 4 + |EncodeHead(t.ins.head)|;
    var at' := at + |EncodeAll(EncodeInput, t.Inputs())| + |EncodeCompact(t.ins.outs.count)|;
    InputsCalled(w, at, t.Inputs());
    OutputsCalled(w, at', t.Outputs());
    CallsConcat(EventsOfAll(InputFormat(w), at, t.Inputs()), EventsOfAll(OutputFormat(w), at', t.Outputs()));
  }

  /** The inputs and outputs that the linear bound counts are the calls of the callbacks. */
  lemma {:induction false} TxsCalled(w: Word, b: nat, txs: seq<RawTx>)
    ensures var ev := EventsOfAll(TxFormat(w), b, txs);
      InputCalls(ev) == InputsOf(txs) && OutputCalls(ev) == OutputsOf(txs)
    decreases txs
  {
    hide TxShape, EncodeTx, TxEvents;
    if txs != [] {
      var b' := b + |TxFormat(w).encode(txs[0])|;
      TxCalled(w, b, txs[0]);
      TxsCalled(w, b', txs[1..]);
      CallsConcat(TxEvents(w, b, txs[0]), EventsOfAll(TxFormat(w), b', txs[1..]));
    }
  }

  lemma EndEnds(v: TxEnd)
    ensures EndsIn(EncodeEnd(v), LE(4, v.locktime))
  {
    hide EncodeAll, LE, EndsIn;
    EndsWhole(LE(4, v.locktime));
    EndsWith(EncodeAll(EncodeWitness, v.witnesses), LE(4, v.locktime), LE(4, v.locktime));
  }

  lemma OutsEnd(v: TxOuts)
    ensures EndsIn(EncodeOuts(v), LE(4, v.end.locktime))
  {
    hide EncodeAll, EncodeCompact, EncodeEnd, LE, EndsIn;
    var outputs := EncodeAll(EncodeOutput, v.outputs);
    EndEnds(v.end);
    EndsWith(outputs, EncodeEnd(v.end), LE(4, v.end.locktime));
    EndsWith(EncodeCompact(v.count), outputs + EncodeEnd(v.end), LE(4, v.end.locktime));
  }

  lemma InsEnd(v: TxIns)
    ensures EndsIn(EncodeIns(v), LE(4, v.outs.end.locktime))
  {
    hide EncodeAll, EncodeHead, EncodeOuts, LE, EndsIn;
    var inputs, lock := EncodeAll(EncodeInput, v.inputs), LE(4, v.outs.end.locktime);
    OutsEnd(v.outs);
    EndsWith(inputs, EncodeOuts(v.outs), lock);
    EndsWith(EncodeHead(v.head), inputs + EncodeOuts(v.outs), lock);
  }

  /** A transaction's first four bytes are its version and its last four its lock time. */
  lemma TxEnds(t: RawTx)
    ensures var s := EncodeTx(t);
      && |s| >= 8 && s[..4] == LE(4, OfI32(t.version)) && s[|s| - 4..] == LE(4, t.ins.outs.end.locktime)
  {
    hide EncodeIns, LE, OfI32, EndsIn;
    InsEnd(t.ins);
    LastFour(LE(4, OfI32(t.version)), EncodeIns(t.ins), LE(4, t.ins.outs.end.locktime));
  }

  predicate EndsIn(s: seq<Byte>, end: seq<Byte>) {
    |end| <= |s| && s[|s| - |end|..] == end
  }

  lemma EndsWhole(s: seq<Byte>)
    ensures EndsIn(s, s)
  {
  }

  lemma EndsWith(x: seq<Byte>, y: seq<Byte>, end: seq<Byte>)
    requires EndsIn(y, end)
    ensures EndsIn(x + y, end)
  {
  }

  lemma LastFour(x: seq<Byte>, y: seq<Byte>, end: seq<Byte>)
    requires |x| == |end| == 4 && EndsIn(y, end)
    ensures var s := x + y; |s| >= 8 && s[..4] == x && s[|s| - 4..] == end
  {
  }

  /** What a transaction read at `sl` is, said of the input and of the calls alone. */
  lemma TxTold(w: Word, sl: Slice)
    ensures var p, s := TxFormat(w).parse(sl), sl.bytes;
      p.Good? ==>
        && 8 <= p.used <= |s|
        && LE(4, OfI32(p.value.version)) == s[..4] && LE(4, p.value.ins.outs.end.locktime) == s[p.used - 4..p.used]
        && |p.value.Inputs()| == InputCalls(p.events) && |p.value.Outputs()| == OutputCalls(p.events)
  {
    hide TxShape, EncodeTx, TxOk, TxEvents, LE, OfI32;
    LawfulTx(w);
    assert SoundAt(TxFormat(w), sl);
    var p, s := TxFormat(w).parse(sl), sl.bytes;
    if p.Good? {
      TxEnds(p.value);
      TxCalled(w, sl.off, p.value);
      var e := EncodeTx(p.value);
      assert e == s[..p.used];
      assert e[..4] == s[..4] && e[|e| - 4..] == s[p.used - 4..p.used];
    }
  }
}
