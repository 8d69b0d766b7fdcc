/** The decoder tiles the script, inverts the shortest-push encoding, and agrees with the classifier. */
module ScriptProofs {
  import opened Bytes
  import opened Types
  import opened Formats
  import opened Scripts
  import opened Views

  // ----------------------------------------------------------------- tiling

  /** The instructions decoded tile the front of the script, and all of it exactly when there is no error. */
  lemma DecodeTiles(script: Slice)
    ensures var r := Decode(script);
      && EncodeAll(EncodeInstr, r.items) <= script.bytes
      && (r.error.None? <==> EncodeAll(EncodeInstr, r.items) == script.bytes)
      && AllOk(InstrOk, r.items)
  {
    LawfulInstr();
    AllSound(InstrFormat(), script);
  }

  function InstrViews(b: nat, items: seq<RawInstr>): seq<Instruction> {
    Located(EncodeInstr, InstrView, b, items)
  }

  // --------------------------------------------------- shortest-push encoding

  /** An instruction without the form of its push. */
  datatype Plain = Push(data: seq<Byte>) | Code(code: Byte)

  predicate PlainOk(i: Plain) {
    match i
    case Push(data) => |data| < Pow256(4)
    case Code(code) => code >= 0x4F
  }

  function PlainOf(i: RawInstr): Plain {
    match i
    case RawPush(_, data) => Push(data)
    case RawOp(code) => Code(code)
  }

  function ShortestPush(i: Plain): RawInstr {
    match i
    case Push(data) =>
      RawPush(if |data| <= 0x4B then 0 else if |data| <= 0xFF then 1 else if |data| <= 0xFFFF then 2 else 4, data)
    case Code(code) => RawOp(code)
  }

  function PlainAll(items: seq<RawInstr>): seq<Plain> {
    if items == [] then [] else [PlainOf(items[0])] + PlainAll(items[1..])
  }

  function ShortestAll(items: seq<Plain>): seq<RawInstr> {
    if items == [] then [] else [ShortestPush(items[0])] + ShortestAll(items[1..])
  }

  function EncodeScript(items: seq<Plain>): seq<Byte> {
    EncodeAll(EncodeInstr, ShortestAll(items))
  }

  lemma ShortestOk(i: Plain)
    requires PlainOk(i)
    ensures InstrOk(ShortestPush(i)) && PlainOf(ShortestPush(i)) == i
  {
    Powers();
  }

  lemma {:induction false} ShortestAllOk(items: seq<Plain>)
    requires AllOk(PlainOk, items)
    ensures AllOk(InstrOk, ShortestAll(items)) && PlainAll(ShortestAll(items)) == items
  {
    if items != [] {
      ShortestOk(items[0]);
      ShortestAllOk(items[1..]);
      assert ShortestAll(items)[1..] == ShortestAll(items[1..]);
    }
  }

  /** Decoding the shortest-push encoding of any list of instructions returns that list. */
  lemma ScriptRoundTrip(items: seq<Plain>, b: nat)
    requires AllOk(PlainOk, items)
    ensures var r := Decode(Slice(b, EncodeScript(items)));
      r.error.None? && PlainAll(r.items) == items
  {
    LawfulInstr();
    ShortestAllOk(items);
    AllComplete(InstrFormat(), ShortestAll(items), b);
  }

  /** Re-encoding one instruction is never longer, and as long only when it was already shortest. */
  lemma ShortestIsShortest(i: RawInstr)
    requires InstrOk(i)
    ensures PlainOk(PlainOf(i))
    ensures var e := EncodeInstr(ShortestPush(PlainOf(i)));
      |e| <= |EncodeInstr(i)| && (|e| == |EncodeInstr(i)| ==> ShortestPush(PlainOf(i)) == i)
  {
    Powers();
  }

  /** Re-encoding a decoded script is never longer, and as long only when it gives the same bytes back. */
  lemma {:induction false} NeverLonger(items: seq<RawInstr>)
    requires AllOk(InstrOk, items)
    ensures AllOk(PlainOk, PlainAll(items))
    ensures var e := EncodeScript(PlainAll(items));
      |e| <= |EncodeAll(EncodeInstr, items)|
      && (|e| == |EncodeAll(EncodeInstr, items)| ==> e == EncodeAll(EncodeInstr, items))
  {
    hide EncodeInstr, InstrOk, PlainOk, ShortestPush;
    if items != [] {
      ShortestIsShortest(items[0]);
      NeverLonger(items[1..]);
      assert PlainAll(items)[1..] == PlainAll(items[1..]);
      assert ShortestAll(PlainAll(items))[1..] == ShortestAll(PlainAll(items[1..]));
    }
  }

  // ---------------------------------------------------------------- iterator

  /** What was yielded, without where it lies. */
  function Yielded(out: seq<Instruction>): seq<Plain> {
    if out == [] then [] else
      [match out[0] case PushBytes(v) => Push(v.bytes) case Op(code) => Code(code)] + Yielded(out[1..])
  }

  function Pushed(out: seq<Instruction>): seq<Slice> {
    if out == [] then [] else
      (match out[0] case PushBytes(v) => [v] case Op(_) => []) + Pushed(out[1..])
  }

  lemma {:induction false} YieldedAre(b: nat, items: seq<RawInstr>)
    ensures Yielded(InstrViews(b, items)) == PlainAll(items)
    decreases items
  {
    hide EncodeInstr;
    if items != [] {
      var b' := b + |EncodeInstr(items[0])|;
      YieldedAre(b', items[1..]);
      assert InstrViews(b, items) == [InstrView(b, items[0])] + InstrViews(b', items[1..]);
    }
  }

  lemma PushInFront(script: Slice, i: RawInstr, rest: seq<Byte>)
    requires InstrOk(i) && EncodeInstr(i) + rest <= script.bytes
    ensures var n, v := |EncodeInstr(i)|, InstrView(script.off, i);
      && n <= |script.bytes| && rest <= After(script, n).bytes
      && (v.PushBytes? ==>
            script.off <= v.bytes.off && v.bytes.off + |v.bytes.bytes| == script.off + n && PieceOf(v.bytes, script))
  {
    hide LE, Pow256;
    var s, e := script.bytes, EncodeInstr(i);
    assert s[..|e| + |rest|] == e + rest;
    assert s[|e|..][..|rest|] == (e + rest)[|e|..] == rest;
    if i.RawPush? {
      var k := |e| - |i.data|;
      assert s[k..|e|] == (e + rest)[k..|e|] == e[k..] == i.data;
    }
  }

  lemma {:induction false} PushesInOrder(script: Slice, items: seq<RawInstr>)
    requires AllOk(InstrOk, items) && EncodeAll(EncodeInstr, items) <= script.bytes
    ensures InOrder(Pushed(InstrViews(script.off, items)), script, script.off, script.off + |script.bytes|)
    decreases items
  {
    hide EncodeInstr, InstrOk, PieceOf, Located, EncodeAll;
    if items == [] {
      assert InstrViews(script.off, items) == [];
    } else {
      var n, hi := |EncodeInstr(items[0])|, script.off + |script.bytes|;
      var v, rest := InstrView(script.off, items[0]), InstrViews(script.off + n, items[1..]);
      LocatedFirst(EncodeInstr, InstrView, script.off, items);
      PushInFront(script, items[0], EncodeAll(EncodeInstr, items[1..]));
      PushesInOrder(After(script, n), items[1..]);
      InOrderAfter(Pushed(rest), script, n, script.off + n, hi);
      assert InstrViews(script.off, items) == [v] + rest && ([v] + rest)[1..] == rest;
      if v.PushBytes? {
        assert Pushed([v] + rest)[1..] == Pushed(rest);
      } else {
        InOrderWiden(Pushed(rest), script, script.off + n, hi, script.off, hi);
        assert Pushed([v] + rest) == Pushed(rest);
      }
    }
  }

  /** The decoding as the iterator yields it. */
  lemma CollectIs(script: Slice)
    ensures var r := Decode(script);
      var out := InstrViews(script.off, r.items);
      && (forall items :: AllOk(PlainOk, items) && script.bytes == EncodeScript(items) ==>
            r.error.None? && Yielded(out) == items)
      && InOrder(Pushed(out), script, script.off, script.off + |script.bytes|)
  {
    hide AllRun, EncodeAll, Located, EncodeScript, PlainOk, InOrder;
    DecodeTiles(script);
    YieldedAre(script.off, Decode(script).items);
    PushesInOrder(script, Decode(script).items);
    forall items | AllOk(PlainOk, items) && script.bytes == EncodeScript(items)
      ensures Decode(script).error.None? && PlainAll(Decode(script).items) == items
    {
      ScriptRoundTrip(items, script.off);
    }
  }

  /** `for i in script.instructions()`: the iterator yields the decoding, and its one error last. From the shortest
      encoding of any instructions it yields exactly their pushed bytes and opcodes; from any script, broken or not, the
      pushed slices are pieces of it in order with its bytes. */
  method Collect(script: Slice) returns (out: seq<Instruction>, error: Option<ParseError>)
    ensures out == InstrViews(script.off, Decode(script).items) && error == Decode(script).error
    ensures forall items :: AllOk(PlainOk, items) && script.bytes == EncodeScript(items) ==>
      error.None? && Yielded(out) == items
    ensures InOrder(Pushed(out), script, script.off, script.off + |script.bytes|)
  {
    hide After, AllRun, InstrParse, Located, EncodeAll, InOrder, EncodeScript, FromLE, PlainOk;
    CollectIs(script);
    ghost var f := InstrFormat();
    ghost var past: Run<RawInstr> := Run([], 0, [], None);
    OnwardStart(f, script);
    NoInstrs(script.off);
    AfterZero(script);
    var it := new Instructions(script);
    out := [];
    while true
      invariant fresh(it) && it.Valid() && !it.errored && it.data == script && it.pos == past.used
      invariant Onward(f, script, past)
      invariant past.used == |EncodeAll(EncodeInstr, past.items)| && out == InstrViews(script.off, past.items)
      decreases |it.data.bytes| - it.pos
    {
      ghost var p := f.parse(After(script, past.used));
      AfterAfter(script, past.used, p.used);
      LawfulInstr();
      assert SoundAt(f, After(script, past.used));
      var next := it.Next();
      if next.None? {
        OnwardEnd(f, script, past);
        return out, None;
      }
      OnwardStep(f, script, past);
      if next.value.Err? {
        assert past.items + [] == past.items;
        return out, Some(next.value.error);
      }
      LocatedSnoc(EncodeInstr, InstrView, script.off, past.items, p.value);
      EncodeSnoc(EncodeInstr, past.items, p.value);
      assert p.used == |EncodeInstr(p.value)|;
      out := out + [next.value.value];
      past := Join(past, Turn(p));
    }
  }

  lemma NoInstrs(b: nat)
    ensures InstrViews(b, []) == [] && EncodeAll(EncodeInstr, []) == []
  {
  }

  // ------------------------------------------------------------- classifier

  /** The script decodes without error to `template`, in exactly `n` bytes. */
  predicate Matches(script: Slice, n: nat, template: seq<Plain>) {
    |script.bytes| == n && Decode(script).error.None? && PlainAll(Decode(script).items) == template
  }

  /** A script matches a template in the template's own length exactly when it is its shortest encoding. */
  lemma MatchesExactly(script: Slice, template: seq<Plain>)
    requires AllOk(PlainOk, template)
    ensures Matches(script, |EncodeScript(template)|, template) <==> script.bytes == EncodeScript(template)
  {
    hide AllRun, EncodeAll, PlainAll, ShortestAll;
    var items := Decode(script).items;
    DecodeTiles(script);
    NeverLonger(items);
    if script.bytes == EncodeScript(template) {
      ScriptRoundTrip(template, script.off);
    }
  }

  function P2pkhTemplate(h: seq<Byte>): seq<Plain> {
    [Code(0x76), Code(0xA9), Push(h), Code(0x88), Code(0xAC)]
  }

  function P2shTemplate(h: seq<Byte>): seq<Plain> {
    [Code(0xA9), Push(h), Code(0x87)]
  }

  /** BIP 141 section "Witness program": version 0 and a push. */
  function WitnessTemplate(h: seq<Byte>): seq<Plain> {
    [Push([]), Push(h)]
  }

  /** BIP 341 section "Script validation rules": OP_1 and a push of 32 bytes. */
  function TaprootTemplate(h: seq<Byte>): seq<Plain> {
    [Code(0x51), Push(h)]
  }

  function P2pkTemplate(k: seq<Byte>): seq<Plain> {
    [Push(k), Code(0xAC)]
  }

  /** The templates in bytes. */
  lemma TemplateBytes(h: seq<Byte>)
    requires |h| <= 0x4B
    ensures EncodeScript(P2pkhTemplate(h)) == [0x76, 0xA9, |h|] + h + [0x88, 0xAC]
    ensures EncodeScript(P2shTemplate(h)) == [0xA9, |h|] + h + [0x87]
    ensures EncodeScript(WitnessTemplate(h)) == [0x00, |h|] + h
    ensures EncodeScript(TaprootTemplate(h)) == [0x51, |h|] + h
    ensures EncodeScript(P2pkTemplate(h)) == [|h|] + h + [0xAC]
  {
    hide EncodeScript, ShortestAll, EncodeAll;
    Bytes2(Code(0x76), Code(0xA9));
    Bytes2(Code(0x88), Code(0xAC));
    Bytes2(Push([]), Push(h));
    Bytes2(Code(0x51), Push(h));
    Bytes2(Push(h), Code(0xAC));
    ScriptConcat([Code(0x76), Code(0xA9)], [Push(h), Code(0x88), Code(0xAC)]);
    ScriptConcat([Push(h)], [Code(0x88), Code(0xAC)]);
    ScriptConcat([Code(0xA9)], [Push(h), Code(0x87)]);
    Bytes2(Push(h), Code(0x87));
    Bytes2(Code(0xA9), Push(h));
    assert P2pkhTemplate(h) == [Code(0x76), Code(0xA9)] + [Push(h), Code(0x88), Code(0xAC)];
    assert [Push(h), Code(0x88), Code(0xAC)] == [Push(h)] + [Code(0x88), Code(0xAC)];
    assert P2shTemplate(h) == [Code(0xA9)] + [Push(h), Code(0x87)];
    assert [0x76] + [0xA9] + ([|h|] + h + ([0x88] + [0xAC])) == [0x76, 0xA9, |h|] + h + [0x88, 0xAC];
    assert [0xA9] + ([|h|] + h + [0x87]) == [0xA9, |h|] + h + [0x87];
    assert [0x00] + [] + ([|h|] + h) == [0x00, |h|] + h;
  }

  lemma Bytes2(x: Plain, y: Plain)
    ensures EncodeScript([x]) == EncodeInstr(ShortestPush(x))
    ensures EncodeScript([x, y]) == EncodeInstr(ShortestPush(x)) + EncodeInstr(ShortestPush(y))
  {
    UnfoldScript([x, y]);
    UnfoldScript([y]);
    UnfoldScript([x]);
    assert [x, y][1..] == [y] && [y][1..] == [] && [x][1..] == [];
    assert EncodeScript([]) == [];
  }

  lemma UnfoldScript(items: seq<Plain>)
    requires items != []
    ensures EncodeScript(items) == EncodeInstr(ShortestPush(items[0])) + EncodeScript(items[1..])
  {
    hide ShortestPush;
    assert ShortestAll(items)[1..] == ShortestAll(items[1..]);
  }

  lemma {:induction false} ScriptConcat(x: seq<Plain>, y: seq<Plain>)
    ensures EncodeScript(x + y) == EncodeScript(x) + EncodeScript(y)
  {
    hide EncodeInstr, ShortestPush;
    if x == [] {
      assert x + y == y && [] + EncodeScript(y) == EncodeScript(y);
    } else {
      var z := x + y;
      assert z[1..] == x[1..] + y && z[0] == x[0];
      ScriptConcat(x[1..], y);
      UnfoldScript(z);
      UnfoldScript(x);
    }
  }

  // What `classify` says of P2PKH, P2SH, P2WPKH, P2WSH, P2TR and P2PK, the decoder says too.

  lemma P2pkhAgrees(script: Slice, h: seq<Byte>)
    requires |h| == 20
    ensures Classify(script) == P2PKH(Slice(script.off + 3, h)) <==> Matches(script, 25, P2pkhTemplate(h))
  {
    hide Decode, EncodeScript, Matches;
    var t, b := [0x76, 0xA9, 0x14] + h + [0x88, 0xAC], script.bytes;
    TemplateBytes(h);
    MatchesExactly(script, P2pkhTemplate(h));
    assert t[..3] == [0x76, 0xA9, 0x14] && t[3..23] == h && t[23..] == [0x88, 0xAC];
    if |b| == 25 && b[3..23] == h {
      assert b == b[..3] + b[3..23] + b[23..];
    }
  }

  lemma P2shAgrees(script: Slice, h: seq<Byte>)
    requires |h| == 20
    ensures Classify(script) == P2SH(Slice(script.off + 2, h)) <==> Matches(script, 23, P2shTemplate(h))
  {
    hide Decode, EncodeScript, Matches;
    var t, b := [0xA9, 0x14] + h + [0x87], script.bytes;
    TemplateBytes(h);
    MatchesExactly(script, P2shTemplate(h));
    assert t[..2] == [0xA9, 0x14] && t[2..22] == h && t[22] == 0x87;
    if |b| == 23 && b[2..22] == h {
      assert b == b[..2] + b[2..22] + [b[22]];
    }
  }

  /** BIP 141: 20 bytes make P2WPKH and 32 make P2WSH. */
  lemma WitnessAgrees(script: Slice, h: seq<Byte>)
    requires |h| == 20 || |h| == 32
    ensures |h| == 20 ==>
      (Classify(script) == P2WPKH(Slice(script.off + 2, h)) <==> Matches(script, 22, WitnessTemplate(h)))
    ensures |h| == 32 ==>
      (Classify(script) == P2WSH(Slice(script.off + 2, h)) <==> Matches(script, 34, WitnessTemplate(h)))
  {
    hide Decode, EncodeScript, Matches;
    var t, b := [0x00, |h|] + h, script.bytes;
    TemplateBytes(h);
    MatchesExactly(script, WitnessTemplate(h));
    assert t[..2] == [0x00, |h|] && t[2..] == h;
    if |b| == |t| && b[2..] == h {
      assert b == b[..2] + b[2..];
    }
    assert |b| == |t| ==> b[2..] == b[2..|t|];
  }

  lemma TaprootAgrees(script: Slice, k: seq<Byte>)
    requires |k| == 32
    ensures Classify(script) == P2TR(Slice(script.off + 2, k)) <==> Matches(script, 34, TaprootTemplate(k))
  {
    hide Decode, EncodeScript, Matches;
    var t, b := [0x51, 0x20] + k, script.bytes;
    TemplateBytes(k);
    MatchesExactly(script, TaprootTemplate(k));
    assert t[..2] == [0x51, 0x20] && t[2..] == k;
    if |b| == 34 && b[2..] == k {
      assert b == b[..2] + b[2..];
    }
    assert |b| == 34 ==> b[2..] == b[2..34];
  }

  /** A compressed key of 33 bytes or an uncompressed key of 65. */
  lemma P2pkAgrees(script: Slice, k: seq<Byte>)
    requires |k| == 33 || |k| == 65
    ensures Classify(script) == P2PK(Slice(script.off + 1, k)) <==> Matches(script, |k| + 2, P2pkTemplate(k))
  {
    hide Decode, EncodeScript, Matches;
    var t, b := [|k|] + k + [0xAC], script.bytes;
    TemplateBytes(k);
    MatchesExactly(script, P2pkTemplate(k));
    assert t[0] == |k| && t[1..|k| + 1] == k && t[|k| + 1] == 0xAC;
    if |b| == |t| && b[1..|k| + 1] == k {
      assert b == [b[0]] + b[1..|k| + 1] + [b[|k| + 1]];
    }
  }

  /** OP_RETURN is the first decoded instruction exactly when the script is classified so, with all the rest as
      payload. */
  lemma OpReturnAgrees(script: Slice)
    ensures var items := Decode(script).items;
      Classify(script).OpReturn? <==> items != [] && items[0] == RawOp(0x6A)
    ensures Classify(script).OpReturn? ==>
      script.bytes == [0x6A] + Classify(script).payload.bytes && Classify(script).payload.off == script.off + 1
  {
    AllRunFirst(script);
  }

  /** The decoding is one of the six templates, around the hash or key `h`. */
  predicate Templated(script: Slice, h: seq<Byte>) {
    || (|h| == 20 && (Matches(script, 25, P2pkhTemplate(h)) || Matches(script, 23, P2shTemplate(h))
                      || Matches(script, 22, WitnessTemplate(h))))
    || (|h| == 32 && (Matches(script, 34, WitnessTemplate(h)) || Matches(script, 34, TaprootTemplate(h))))
    || ((|h| == 33 || |h| == 65) && Matches(script, |h| + 2, P2pkTemplate(h)))
  }

  /** `classify` gives up exactly on the scripts that decode to no template and do not begin with OP_RETURN. */
  lemma UnknownExactly(script: Slice)
    ensures var items := Decode(script).items;
      Classify(script).Unknown? <==>
        (forall h :: !Templated(script, h)) && !(items != [] && items[0] == RawOp(0x6A))
  {
    hide Decode, Matches, Classify;
    OpReturnAgrees(script);
    forall h: seq<Byte> ensures Templated(script, h) ==> !Classify(script).Unknown? {
      TemplatedIsKnown(script, h);
    }
    KnownIsTemplated(script);
  }

  lemma TemplatedIsKnown(script: Slice, h: seq<Byte>)
    ensures Templated(script, h) ==> !Classify(script).Unknown?
  {
    hide Decode, Matches, Classify;
    if |h| == 20 {
      P2pkhAgrees(script, h);
      P2shAgrees(script, h);
      WitnessAgrees(script, h);
    } else if |h| == 32 {
      WitnessAgrees(script, h);
      TaprootAgrees(script, h);
    } else if |h| == 33 || |h| == 65 {
      P2pkAgrees(script, h);
    }
  }

  lemma KnownIsTemplated(script: Slice)
    ensures Classify(script).Unknown? || Classify(script).OpReturn? || exists h :: Templated(script, h)
  {
    hide Decode, Matches;
    var t := Classify(script);
    match t
    case P2PKH(h) => P2pkhAgrees(script, h.bytes); assert Templated(script, h.bytes);
    case P2SH(h) => P2shAgrees(script, h.bytes); assert Templated(script, h.bytes);
    case P2WPKH(h) => WitnessAgrees(script, h.bytes); assert Templated(script, h.bytes);
    case P2WSH(h) => WitnessAgrees(script, h.bytes); assert Templated(script, h.bytes);
    case P2TR(k) => TaprootAgrees(script, k.bytes); assert Templated(script, k.bytes);
    case P2PK(k) => P2pkAgrees(script, k.bytes); assert Templated(script, k.bytes);
    case _ =>
  }

  lemma AllRunFirst(script: Slice)
    ensures var items := Decode(script).items;
      items != [] && items[0] == RawOp(0x6A) <==> script.bytes != [] && script.bytes[0] == 0x6A
  {
    if script.bytes != [] {
      AllRunStep(InstrFormat(), script);
    }
  }
}
