/** The formats of the cursor's primitive reads: fixed byte strings, little-endian
    integers, CompactSize integers and length-prefixed byte strings. */
module Primitives {
  import opened Bytes
  import opened Types
  import opened Formats

  // ---------------------------------------------------------- fixed widths

  /** Exactly `n` bytes (`read_bytes`). */
  function Raw(n: nat): Format<seq<Byte>> {
    Format(
      (sl: Slice) =>
        if n <= |sl.bytes| then Good(sl.bytes[..n], n, []) else Bad(UnexpectedEof(n, |sl.bytes|), 0, []),
      (v: seq<Byte>) => v,
      (v: seq<Byte>) => |v| == n,
      Silent())
  }

  lemma LawfulRaw(n: nat)
    ensures Lawful(Raw(n))
  {
    var h := Raw(n);
    forall b: nat, v: seq<Byte>, rest: seq<Byte> ensures CompleteAt(h, b, v, rest) {
      assert (v + rest)[..|v|] == v;
    }
    assert forall sl: Slice :: SoundAt(h, sl);
    assert forall b: nat, v: seq<Byte>, k: nat :: CutAt(h, b, v, k);
  }

  /** An unsigned little-endian integer of `n` bytes. */
  function Num(n: nat): Format<nat> {
    Format(
      (sl: Slice) =>
        if n <= |sl.bytes| then Good(FromLE(sl.bytes[..n]), n, []) else Bad(UnexpectedEof(n, |sl.bytes|), 0, []),
      (v: nat) => LE(n, v),
      (v: nat) => v < Pow256(n),
      Silent())
  }

  lemma LawfulNum(n: nat)
    ensures Lawful(Num(n))
  {
    var h := Num(n);
    forall sl: Slice ensures SoundAt(h, sl) {
      if n <= |sl.bytes| {
        LEOfFromLE(sl.bytes[..n]);
      }
    }
    forall b: nat, v: nat, rest: seq<Byte> ensures CompleteAt(h, b, v, rest) {
      if h.ok(v) {
        FromLEOfLE(n, v);
        assert (LE(n, v) + rest)[..n] == LE(n, v);
      }
    }
    assert forall b: nat, v: nat, k: nat :: CutAt(h, b, v, k);
  }

  /** A signed 32-bit little-endian integer. */
  function Int32(): Format<I32> {
    Format(Map(Num(4), AsI32, OfI32, Silent()).parse, (v: I32) => LE(4, OfI32(v)), (v: I32) => true, Silent())
  }

  lemma LawfulInt32()
    ensures Lawful(Int32())
  {
    LawfulNum(4);
    Powers();
    LawfulMap(Num(4), AsI32, OfI32, Silent());
    assert forall b: nat, v: I32 :: SameGrammar(Map(Num(4), AsI32, OfI32, Silent()), Int32(), b, v);
    LawfulRestated(Map(Num(4), AsI32, OfI32, Silent()), Int32());
  }

  // ----------------------------------------------------------- CompactSize

  /** A CompactSize integer as written: its value and the number of bytes after the first. */
  datatype Compact = Compact(tail: nat, value: nat)

  predicate CompactOk(c: Compact) {
    if c.tail == 0 then c.value <= 0xFC else c.tail in {2, 4, 8} && c.value < Pow256(c.tail)
  }

  function Marker(tail: nat): Byte {
    if tail == 2 then 0xFD else if tail == 4 then 0xFE else 0xFF
  }

  function EncodeCompact(c: Compact): seq<Byte> {
    if c.tail == 0 then [c.value % 256] else [Marker(c.tail)] + LE(c.tail, c.value)
  }

  /** How many bytes follow a first byte. */
  function TailOf(first: Byte): nat {
    if first <= 0xFC then 0 else if first == 0xFD then 2 else if first == 0xFE then 4 else 8
  }

  function CompactParse(s: seq<Byte>): Parsed<Compact> {
    if s == [] then Bad(UnexpectedEof(1, 0), 0, []) else
      var k := TailOf(s[0]);
      if k == 0 then Good(Compact(0, s[0]), 1, [])
      else if |s| - 1 < k then Bad(UnexpectedEof(k, |s| - 1), 1, [])
      else Good(Compact(k, FromLE(s[1..1 + k])), 1 + k, [])
  }

  lemma CompactUsed(s: seq<Byte>)
    ensures var p := CompactParse(s);
      p.used <= |s| && p.events == [] && (s != [] || p.Good? ==> p.used >= 1)
      && (if p.Good? then p.used == |EncodeCompact(p.value)| else p.error.UnexpectedEof?)
  {
  }

  function CompactFormat(): Format<Compact> {
    Format((sl: Slice) => CompactParse(sl.bytes), EncodeCompact, CompactOk, Silent())
  }

  lemma CompactSound(s: seq<Byte>)
    requires CompactParse(s).Good?
    ensures var p := CompactParse(s);
      p.used <= |s| && CompactOk(p.value) && EncodeCompact(p.value) == s[..p.used]
  {
    hide LE, FromLE, Pow256;
    var p := CompactParse(s);
    if p.value.tail > 0 {
      LEOfFromLE(s[1..p.used]);
      assert s[..p.used] == [s[0]] + s[1..p.used];
    }
  }

  lemma CompactComplete(c: Compact, rest: seq<Byte>)
    requires CompactOk(c)
    ensures CompactParse(EncodeCompact(c) + rest) == Good(c, |EncodeCompact(c)|, [])
  {
    hide LE, FromLE, Pow256;
    if c.tail > 0 {
      FromLEOfLE(c.tail, c.value);
      Parts3([Marker(c.tail)], LE(c.tail, c.value), rest, 1 + c.tail);
    }
  }

  lemma CompactCut(c: Compact, k: nat)
    requires CompactOk(c) && k < |EncodeCompact(c)|
    ensures var p := CompactParse(EncodeCompact(c)[..k]); p.Bad? && Starved(p.error) && p.events == []
  {
    hide LE, FromLE, Pow256;
    if k > 0 {
      assert EncodeCompact(c)[..k][0] == Marker(c.tail);
    }
  }

  lemma LawfulCompact()
    ensures Lawful(CompactFormat())
  {
    hide CompactParse, EncodeCompact, CompactOk;
    var h := CompactFormat();
    forall sl: Slice ensures SoundAt(h, sl) {
      CompactUsed(sl.bytes);
      if CompactParse(sl.bytes).Good? {
        CompactSound(sl.bytes);
      }
    }
    forall b: nat, c: Compact, rest: seq<Byte> ensures CompleteAt(h, b, c, rest) {
      if CompactOk(c) {
        CompactComplete(c, rest);
      }
    }
    forall b: nat, c: Compact, k: nat ensures CutAt(h, b, c, k) {
      if CompactOk(c) && k < |EncodeCompact(c)| {
        CompactCut(c, k);
      }
    }
  }

  /** The tail length of the shortest form of `v`. */
  function MinTail(v: nat): nat {
    if v <= 0xFC then 0 else if v <= 0xFFFF then 2 else if v <= 0xFFFF_FFFF then 4 else 8
  }

  /** The shortest form of `v` (`encode_varint`). */
  function Shortest(v: nat): Compact {
    Compact(MinTail(v), v)
  }

  predicate Minimal(c: Compact) {
    c.tail == MinTail(c.value)
  }

  /** `read_varint` inverts `encode_varint` on every u64, whatever follows. */
  lemma ShortestRoundTrip(v: nat, rest: seq<Byte>)
    requires v < Pow256(8)
    ensures var e := EncodeCompact(Shortest(v));
      CompactParse(e + rest) == Good(Shortest(v), |e|, [])
  {
    Powers();
    LawfulCompact();
    assert CompleteAt(CompactFormat(), 0, Shortest(v), rest);
  }

  /** Re-encoding what was read is never longer, and gives the consumed bytes back exactly when the form was minimal. */
  lemma Normalisation(s: seq<Byte>)
    requires CompactParse(s).Good?
    ensures var p := CompactParse(s);
      var e := EncodeCompact(Shortest(p.value.value));
      && p.used <= |s| && p.value.value < Pow256(8)
      && |e| <= p.used
      && (e == s[..p.used] <==> Minimal(p.value))
  {
    Powers();
    LawfulCompact();
    assert SoundAt(CompactFormat(), Slice(0, s));
    var c := CompactParse(s).value;
    if EncodeCompact(Shortest(c.value)) == EncodeCompact(c) && CompactOk(Shortest(c.value)) {
      PrefixFree(CompactFormat(), Shortest(c.value), c);
    }
  }

  // ------------------------------------------------- counts and byte strings

  /** `try_into::<usize>` and then the cap. */
  function CapCheck(w: Word, cap: nat): Compact -> Option<ParseError> {
    (c: Compact) =>
      if c.value > w then Some(IntegerTooLarge(c.value))
      else if c.value > cap then Some(OversizedData(c.value, cap))
      else None
  }

  function Capped(w: Word, cap: nat): Format<Compact> {
    Checked(CompactFormat(), CapCheck(w, cap))
  }

  /** A count that passes is within its cap. */
  lemma CappedReads(w: Word, cap: nat, sl: Slice)
    ensures var x, p := CompactParse(sl.bytes), Capped(w, cap).parse(sl);
      && p == Vetted(x, CapCheck(w, cap)) && p.used == x.used
      && (p.Good? ==> p.used >= 1 && p.value == x.value && p.value.value <= cap && p.value.value <= w)
  {
    hide CompactParse;
    CompactUsed(sl.bytes);
  }

  lemma LawfulCapped(w: Word, cap: nat)
    ensures Lawful(Capped(w, cap))
  {
    LawfulCompact();
    LawfulChecked(CompactFormat(), CapCheck(w, cap));
  }

  /** A length-prefixed byte string as written. */
  datatype VarBytes = VarBytes(len: Compact, bytes: seq<Byte>)

  function EncodeVarBytes(v: VarBytes): seq<Byte> {
    EncodeCompact(v.len) + v.bytes
  }

  predicate VarBytesOk(cap: nat, v: VarBytes) {
    CompactOk(v.len) && v.len.value == |v.bytes| <= cap
  }

  function ToVarBytes(p: (Compact, seq<Byte>)): VarBytes { VarBytes(p.0, p.1) }

  function OfVarBytes(v: VarBytes): (Compact, seq<Byte>) { (v.len, v.bytes) }

  function VarBytesShape(w: Word, cap: nat): Format<VarBytes> {
    Map(Bind(Capped(w, cap), (c: Compact) => Raw(c.value)), ToVarBytes, OfVarBytes, Silent())
  }

  function VarBytesFormat(w: Word, cap: nat): Format<VarBytes> {
    Format(VarBytesShape(w, cap).parse, EncodeVarBytes, (v: VarBytes) => VarBytesOk(cap, v), Silent())
  }

  /** The reads of a byte string, one after another. */
  function VarBytesParse(w: Word, cap: nat, sl: Slice): Parsed<VarBytes> {
    var c := CompactParse(sl.bytes);
    if c.Bad? then Bad(c.error, c.used, [])
    else if c.value.value > w then Bad(IntegerTooLarge(c.value.value), c.used, [])
    else if c.value.value > cap then Bad(OversizedData(c.value.value, cap), c.used, [])
    else
      var p := Raw(c.value.value).parse(After(sl, c.used));
      if p.Bad? then Bad(p.error, c.used + p.used, []) else Good(VarBytes(c.value, p.value), c.used + p.used, [])
  }

  lemma VarBytesReads(w: Word, cap: nat, sl: Slice)
    ensures VarBytesFormat(w, cap).parse(sl) == VarBytesParse(w, cap, sl)
  {
    var nil: seq<Event> := [];
    assert nil + nil == nil;
    var body := (c: Compact) => Raw(c.value);
    var f, g := Capped(w, cap), Bind(Capped(w, cap), body);
    assert f.parse(sl) == Vetted(CompactParse(sl.bytes), CapCheck(w, cap));
    assert g.parse(sl) == BindParse(f, body, sl);
    assert VarBytesFormat(w, cap).parse(sl) == MapParse(g, ToVarBytes, Silent(), sl);
  }

  lemma VarBytesUsed(w: Word, cap: nat, sl: Slice)
    ensures var p := VarBytesFormat(w, cap).parse(sl);
      p.Good? ==> p.used == |EncodeVarBytes(p.value)| == |EncodeCompact(p.value.len)| + |p.value.bytes|
  {
    hide CompactParse, After, EncodeCompact;
    VarBytesReads(w, cap, sl);
    CompactUsed(sl.bytes);
  }

  lemma LawfulVarBytes(w: Word, cap: nat)
    requires cap <= 0xFFFF_FFFF
    ensures Lawful(VarBytesFormat(w, cap))
  {
    var body := (c: Compact) => Raw(c.value);
    LawfulCapped(w, cap);
    forall c: Compact ensures Lawful(body(c)) {
      LawfulRaw(c.value);
    }
    LawfulBind(Capped(w, cap), body);
    LawfulMap(Bind(Capped(w, cap), body), ToVarBytes, OfVarBytes, Silent());
    assert forall b: nat, v: VarBytes :: SameGrammar(VarBytesShape(w, cap), VarBytesFormat(w, cap), b, v);
    LawfulRestated(VarBytesShape(w, cap), VarBytesFormat(w, cap));
  }
}
