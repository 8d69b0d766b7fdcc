/** Unambiguity, locality and truncation of the streaming transaction parser, and witness replay. */
module TxProofs {
  import opened Bytes
  import opened Types
  import opened Formats
  import opened Primitives
  import opened Wire
  import opened Reads
  import opened Callbacks
  import opened Cursors
  import opened Transactions
  import opened Views

  // ------------------------------------------------------------ unambiguity

  /** BIP 144 section "Serialization": the byte after the version is the zero marker exactly in SegWit transactions. */
  lemma MarkerDecides(t: RawTx)
    requires TxOk(t)
    ensures |EncodeTx(t)| > 4 && (EncodeTx(t)[4] == 0 <==> t.ins.head.segwit)
  {
    hide EncodeAll, EncodeOuts;
    var h := t.ins.head;
    assert EncodeTx(t)[4..][..|EncodeHead(h)|] == EncodeHead(h);
    assert EncodeTx(t)[4] == EncodeHead(h)[0];
  }

  /** No transaction's encoding is a prefix of another's, so legacy and SegWit images are disjoint in particular. */
  lemma TxUnambiguous(t: RawTx, t': RawTx)
    requires TxOk(t) && TxOk(t') && EncodeTx(t) <= EncodeTx(t')
    ensures t == t'
  {
    hide TxShape, EncodeIns, InsOk;
    var w: Word := 0xFFFF_FFFF;
    LawfulTx(w);
    PrefixFree(TxFormat(w), t, t');
  }

  /** The parser reads every encoding back, with its marker decided and its input count read at the right byte. */
  lemma TxReadBack(w: Word, b: nat, t: RawTx, rest: seq<Byte>)
    requires TxOk(t)
    ensures TxFormat(w).parse(Slice(b, EncodeTx(t) + rest)) == Good(t, |EncodeTx(t)|, TxEvents(w, b, t))
  {
    hide TxShape, EncodeIns, InsOk, TxEvents;
    LawfulTx(w);
    assert CompleteAt(TxFormat(w), b, t, rest);
  }

  /** A count of zero, in any form after marker and flag, or in a longer form without them. */
  predicate ZeroCount(s: seq<Byte>, c: Compact) {
    CompactOk(c) && c.value == 0 && ([0, 1] + EncodeCompact(c) <= s || (c.tail != 0 && EncodeCompact(c) <= s))
  }

  /** The input count is refused as invalid exactly for these zeros; a one-byte zero without a flag of 1 is refused
      as a bad flag, although it is the zero count of the legacy format. */
  lemma InvalidInputCountExactly(w: Word, sl: Slice)
    ensures var p := HeadFormat(w).parse(sl);
      p.Bad? && p.error == InvalidInputCount <==> exists c :: ZeroCount(sl.bytes, c)
    ensures |sl.bytes| >= 2 && sl.bytes[0] == 0 && sl.bytes[1] != 1 ==>
      HeadFormat(w).parse(sl) == Bad(InvalidSegwitFlag(sl.bytes[1]), 2, [])
  {
    hide CompactParse, EncodeCompact;
    var s, p := sl.bytes, HeadFormat(w).parse(sl);
    if p.Bad? && p.error == InvalidInputCount {
      InvalidIsZero(w, sl);
    }
    forall c | ZeroCount(s, c) ensures p.Bad? && p.error == InvalidInputCount {
      ZeroIsInvalid(w, sl, c);
    }
  }

  lemma InvalidIsZero(w: Word, sl: Slice)
    requires var p := HeadFormat(w).parse(sl); p.Bad? && p.error == InvalidInputCount
    ensures exists c :: ZeroCount(sl.bytes, c)
  {
    hide CompactParse, LE;
    var s := sl.bytes;
    assert s != [] && (s[0] == 0 ==> |s| >= 2 && s[1] == 1);
    var k := if s[0] == 0 then 2 else 0;
    HeadReads(w, sl, s[0] == 0);
    CompactUsed(After(sl, k).bytes);
    LawfulCompact();
    assert SoundAt(CompactFormat(), After(sl, k));
    var x := CompactParse(After(sl, k).bytes);
    assert s[..k + x.used] == s[..k] + s[k..][..x.used];
    assert k == 2 ==> s[..k] == [0, 1];
    assert ZeroCount(s, x.value);
  }

  lemma ZeroIsInvalid(w: Word, sl: Slice, c: Compact)
    requires ZeroCount(sl.bytes, c)
    ensures var p := HeadFormat(w).parse(sl); p.Bad? && p.error == InvalidInputCount
  {
    hide CompactParse, EncodeCompact, HeadFormat;
    var segwit := [0, 1] + EncodeCompact(c) <= sl.bytes;
    ZeroInFront(sl.bytes, if segwit then [0, 1] else [], c);
    HeadReads(w, sl, segwit);
  }

  lemma ZeroInFront(s: seq<Byte>, front: seq<Byte>, c: Compact)
    requires CompactOk(c) && front + EncodeCompact(c) <= s
    ensures s[..|front|] == front && s != []
    ensures front == [] && c.tail != 0 ==> s[0] != 0
    ensures front != [] ==> s[0] == front[0]
    ensures |front| > 1 ==> s[1] == front[1]
    ensures CompactParse(Drop(s, |front|)) == Good(c, |EncodeCompact(c)|, [])
  {
    hide LE;
    var e := EncodeCompact(c);
    var n := |front| + |e|;
    assert s == front + e + s[n..];
    Parts3(front, e, s[n..], n);
    assert s[|front|..] == e + s[n..];
    LawfulCompact();
    assert CompleteAt(CompactFormat(), 0, c, s[n..]);
  }

  // --------------------------------------------------- locality, truncation

  /** `parse_with` as a whole: the callbacks' final state and the result. */
  function ParseWithSpec<S>(w: Word, sl: Slice, step: Step<S>, st: S): (Fed<S>, Result<(I32, nat, nat, nat)>) {
    var p := TxFormat(w).parse(sl);
    var fed := Feed(step, st, p.events);
    (fed, Verdict(fed, Reply(p, (t: RawTx) => Summary(t))))
  }

  /** On any buffer that begins with the bytes a successful parse consumed, the callbacks hear the same and the
      result is the same. */
  lemma ParseWithLocal<S>(w: Word, sl: Slice, other: seq<Byte>, step: Step<S>, st: S)
    ensures var p := TxFormat(w).parse(sl);
      && (p.Good? ==> p.used <= |sl.bytes|)
      && (p.Good? && sl.bytes[..p.used] <= other ==>
            ParseWithSpec(w, Slice(sl.off, other), step, st) == ParseWithSpec(w, sl, step, st))
  {
    hide TxFormat;
    LawfulTx(w);
    var p := TxFormat(w).parse(sl);
    assert SoundAt(TxFormat(w), sl);
    if p.Good? && sl.bytes[..p.used] <= other {
      Locality(TxFormat(w), sl, other);
    }
  }

  /** On every shorter prefix it fails: with a callback's error, or starved, having needed more bytes than there were;
      and the callbacks hear no more than they would have heard. */
  lemma ParseWithTruncated<S>(w: Word, sl: Slice, k: nat, step: Step<S>, st: S)
    requires k <= |sl.bytes|
    ensures var p := TxFormat(w).parse(sl);
      var (fed, r) := ParseWithSpec(w, Slice(sl.off, sl.bytes[..k]), step, st);
      var (whole, _) := ParseWithSpec(w, sl, step, st);
      p.Good? && k < p.used ==>
        && r.Err? && (if fed.error.Some? then fed == whole && r.error == fed.error.value else Starved(r.error))
        && fed.heard <= whole.heard && TxFormat(w).parse(Slice(sl.off, sl.bytes[..k])).events <= p.events
  {
    hide TxFormat;
    LawfulTx(w);
    assert SoundAt(TxFormat(w), sl);
    var p := TxFormat(w).parse(sl);
    if p.Good? && k < p.used {
      Truncation(TxFormat(w), sl, k);
      var part := TxFormat(w).parse(Slice(sl.off, sl.bytes[..k])).events;
      assert p.events == part + p.events[|part|..];
      FeedConcat(step, st, part, p.events[|part|..]);
    }
  }

  // --------------------------------------------------------- witness replay

  function ItemViews(b: nat, items: seq<VarBytes>): seq<Slice> {
    Located(EncodeVarBytes, ScriptView, b, items)
  }

  /** The bytes of a parsed witness hold its count and then its items, to the last byte. */
  lemma WitnessRaw(w: Word, data: Slice)
    ensures var p := WitnessFormat(w).parse(data);
      p.Good? ==>
        && p.used <= |data.bytes| && WitnessOk(p.value) && data.bytes[..p.used] == EncodeWitness(p.value)
        && CompactParse(EncodeWitness(p.value)) == Good(p.value.count, |EncodeCompact(p.value.count)|, [])
  {
    hide WitnessShape, EncodeCompact, CompactParse;
    LawfulWitness(w);
    assert SoundAt(WitnessFormat(w), data);
    LawfulCompact();
    if WitnessFormat(w).parse(data).Good? {
      var v := WitnessFormat(w).parse(data).value;
      assert CompleteAt(CompactFormat(), 0, v.count, EncodeAll(EncodeVarBytes, v.items));
    }
  }

  lemma ItemInFront(sl: Slice, v: VarBytes, rest: seq<Byte>, n: nat)
    requires n <= |sl.bytes| && sl.bytes[..n] == EncodeVarBytes(v) + rest
    ensures var k := |EncodeVarBytes(v)|;
      && k <= n && After(sl, k).bytes[..n - k] == rest
      && PieceOf(ScriptView(sl.off, v), sl) && ScriptView(sl.off, v).off + |v.bytes| == sl.off + k
  {
    hide EncodeCompact;
    var k := |EncodeVarBytes(v)|;
    ScriptPiece(sl, [], v, rest, n);
    assert [] + EncodeVarBytes(v) + rest == EncodeVarBytes(v) + rest;
    assert sl.bytes[k..][..n - k] == sl.bytes[..n][k..];
  }

  /** Items written one after another: their views hold them, in order, up to the end of the last. */
  lemma {:induction false} ViewsHold(sl: Slice, items: seq<VarBytes>, n: nat)
    requires n <= |sl.bytes| && sl.bytes[..n] == EncodeAll(EncodeVarBytes, items)
    ensures var views := ItemViews(sl.off, items);
      && |views| == |items| && (forall i :: 0 <= i < |views| ==> views[i].bytes == items[i].bytes)
      && InOrder(views, sl, sl.off, sl.off + n)
    decreases items
  {
    hide EncodeVarBytes, EncodeCompact, EncodeAll, Located, PieceOf;
    if items == [] {
      assert ItemViews(sl.off, items) == [];
    } else {
      var k := |EncodeVarBytes(items[0])|;
      LocatedFirst(EncodeVarBytes, ScriptView, sl.off, items);
      ItemInFront(sl, items[0], EncodeAll(EncodeVarBytes, items[1..]), n);
      ViewsHold(After(sl, k), items[1..], n - k);
      var rest := ItemViews(sl.off + k, items[1..]);
      InOrderAfter(rest, sl, k, sl.off + k, sl.off + n);
      assert ([ScriptView(sl.off, items[0])] + rest)[1..] == rest;
    }
  }

  lemma ItemsInPlace(w: Word, data: Slice)
    ensures var p := WitnessFormat(w).parse(data);
      p.Good? ==>
        var items := ItemViews(data.off + |EncodeCompact(p.value.count)|, p.value.items);
        && |items| == p.value.count.value && (forall i :: 0 <= i < |items| ==> items[i].bytes == p.value.items[i].bytes)
        && InOrder(items, data, data.off, data.off + p.used)
  {
    hide WitnessFormat, EncodeCompact, EncodeAll, CompactParse, Located, InOrder;
    WitnessRaw(w, data);
    var p := WitnessFormat(w).parse(data);
    if p.Good? {
      var k := |EncodeCompact(p.value.count)|;
      var items := ItemViews(data.off + k, p.value.items);
      var all := EncodeAll(EncodeVarBytes, p.value.items);
      assert After(data, k).bytes[..p.used - k] == data.bytes[..p.used][k..] == all;
      ViewsHold(After(data, k), p.value.items, p.used - k);
      InOrderAfter(items, data, k, data.off + k, data.off + p.used);
      InOrderWiden(items, data, data.off + k, data.off + p.used, data.off, data.off + p.used);
    }
  }

  /** Iterating a witness that `Witness::parse` returned yields exactly its items, never an error, to the last byte of
      `raw`; and after that nothing, for ever. */
  method ReplayWitness(data: Slice, word: Word) returns (items: seq<Slice>, it: WitnessIter?)
    requires |data.bytes| <= word
    ensures var p := WitnessFormat(word).parse(data);
      if p.Bad? then it == null && items == [] else
        && it != null && it.Valid() && it.remaining == 0 && it.cursor.Here().bytes == []
        && items == ItemViews(data.off + |EncodeCompact(p.value.count)|, p.value.items)
        && |items| == p.value.count.value && (forall i :: 0 <= i < |items| ==> items[i].bytes == p.value.items[i].bytes)
        && InOrder(items, data, data.off, data.off + p.used)
  {
    hide WitnessFormat, After, EncodeAll, CompactParse, EncodeCompact, VarBytesFormat, ItemViews, InOrder, AllOk;
    hide WitnessItemOk, EncodeVarBytes, EncodeWitness, ScriptView;
    items, it := [], null;
    var parsed := ParseWitness(data, word);
    if parsed.Err? {
      return;
    }
    WitnessRaw(word, data);
    ghost var v := WitnessFormat(word).parse(data).value;
    var parts := parsed.value.0;
    it := parts.Items(word);
    ghost var b: nat, left := data.off + |EncodeCompact(v.count)|, v.items;
    ItemsStart(parts.raw, v);
    while it.remaining > 0
      invariant it != null && fresh(it) && fresh(it.cursor) && it.Valid() && it.cursor.word == word
      invariant |left| == it.remaining && AllOk(WitnessItemOk, left)
      invariant it.cursor.Here() == Slice(b, EncodeAll(EncodeVarBytes, left))
      invariant ItemViews(data.off + |EncodeCompact(v.count)|, v.items) == items + ItemViews(b, left)
      decreases it.remaining
    {
      ItemsStep(word, b, left);
      var item := it.Next();
      assert item == Some(Ok(ScriptView(b, left[0])));
      assert items + ([ScriptView(b, left[0])] + ItemViews(b + |EncodeVarBytes(left[0])|, left[1..]))
        == items + [item.value.value] + ItemViews(b + |EncodeVarBytes(left[0])|, left[1..]);
      items := items + [item.value.value];
      b, left := b + |EncodeVarBytes(left[0])|, left[1..];
    }
    ItemsEnd(b, left);
    assert items + [] == items;
    ItemsInPlace(word, data);
  }

  lemma ItemsStart(raw: Slice, v: RawWitness)
    requires raw.bytes == EncodeWitness(v)
    ensures var n := |EncodeCompact(v.count)|;
      After(raw, n) == Slice(raw.off + n, EncodeAll(EncodeVarBytes, v.items))
    ensures forall b: nat :: [] + ItemViews(b, v.items) == ItemViews(b, v.items)
  {
    hide EncodeAll, EncodeCompact;
  }

  lemma ItemsStep(w: Word, b: nat, left: seq<VarBytes>)
    requires left != [] && AllOk(WitnessItemOk, left)
    ensures var here := Slice(b, EncodeAll(EncodeVarBytes, left));
      var n := |EncodeVarBytes(left[0])|;
      && WitnessItemFormat(w).parse(here) == Good(left[0], n, [])
      && After(here, n) == Slice(b + n, EncodeAll(EncodeVarBytes, left[1..]))
      && AllOk(WitnessItemOk, left[1..])
      && ItemViews(b, left) == [ScriptView(b, left[0])] + ItemViews(b + n, left[1..])
  {
    hide VarBytesShape, EncodeAll, Located, EncodeCompact;
    var x, y := EncodeVarBytes(left[0]), EncodeAll(EncodeVarBytes, left[1..]);
    LocatedFirst(EncodeVarBytes, ScriptView, b, left);
    LawfulVarBytes(w, MAX_WITNESS_ITEM_SIZE);
    assert WitnessItemOk(left[0]);
    assert CompleteAt(WitnessItemFormat(w), b, left[0], y);
    assert Drop(x + y, |x|) == y;
  }

  lemma ItemsEnd(b: nat, left: seq<VarBytes>)
    requires left == []
    ensures EncodeAll(EncodeVarBytes, left) == [] && ItemViews(b, left) == []
  {
  }
}
