/** The iterator over a `blkNNNNN.dat` file: frames of magic, size and payload. */
module BlockFiles {
  import opened Bytes
  import opened Types
  import opened Formats
  import opened Cursors
  import opened Primitives

  const MAX_BLOCK_BYTES := 8_000_000

  type Magic = m: seq<Byte> | |m| == 4 witness [0, 0, 0, 0]

  function EncodeFrame(magic: Magic): seq<Byte> -> seq<Byte> {
    (payload: seq<Byte>) => magic + LE(4, |payload|) + payload
  }

  predicate FrameOk(payload: seq<Byte>) {
    |payload| <= MAX_BLOCK_BYTES
  }

  function FrameParse(magic: Magic, s: seq<Byte>): Parsed<seq<Byte>> {
    if |s| < 4 then Bad(UnexpectedEof(4, |s|), 0, [])
    else if s[..4] != magic then Bad(MagicMismatch(magic, s[..4]), 4, [])
    else if |s| < 8 then Bad(UnexpectedEof(4, |s| - 4), 4, [])
    else
      var size := FromLE(s[4..8]);
      if size > MAX_BLOCK_BYTES then Bad(OversizedData(size, MAX_BLOCK_BYTES), 8, [])
      else if |s| - 8 < size then Bad(UnexpectedEof(size, |s| - 8), 8, [])
      else Good(s[8..8 + size], 8 + size, [])
  }

  function FrameFormat(magic: Magic): Format<seq<Byte>> {
    Format((sl: Slice) => FrameParse(magic, sl.bytes), EncodeFrame(magic), FrameOk, Silent())
  }

  lemma FrameSound(magic: Magic, sl: Slice)
    ensures SoundAt(FrameFormat(magic), sl)
  {
    hide LE, FromLE, Pow256;
    var s, p := sl.bytes, FrameParse(magic, sl.bytes);
    if p.Good? {
      LEOfFromLE(s[4..8]);
      assert s[..p.used] == s[..4] + s[4..8] + s[8..p.used];
    }
  }

  lemma FrameComplete(magic: Magic, v: seq<Byte>, rest: seq<Byte>)
    requires FrameOk(v)
    ensures var s := EncodeFrame(magic)(v); |s| == 8 + |v| && FrameParse(magic, s + rest) == Good(v, |s|, [])
  {
    hide LE, FromLE, Pow256;
    var s := magic + LE(4, |v|) + v + rest;
    Powers();
    FromLEOfLE(4, |v|);
    assert s == magic + LE(4, |v|) + (v + rest);
    Parts3(magic, LE(4, |v|), v + rest, 8);
    Parts3(magic + LE(4, |v|), v, rest, 8 + |v|);
    assert s[..4] == magic;
  }

  lemma FrameCut(magic: Magic, v: seq<Byte>, k: nat)
    requires FrameOk(v) && k < |EncodeFrame(magic)(v)|
    ensures var p := FrameParse(magic, EncodeFrame(magic)(v)[..k]); p.Bad? && Starved(p.error) && p.events == []
  {
    hide LE, FromLE, Pow256;
    var s := EncodeFrame(magic)(v)[..k];
    Powers();
    FromLEOfLE(4, |v|);
    if k >= 8 {
      Parts3(magic, LE(4, |v|), v, k);
    }
    assert k >= 4 ==> s[..4] == magic;
  }

  lemma LawfulFrame(magic: Magic)
    ensures Lawful(FrameFormat(magic)) && NonEmpty(FrameFormat(magic))
  {
    hide FrameParse, EncodeFrame;
    var h := FrameFormat(magic);
    forall sl: Slice ensures SoundAt(h, sl) {
      FrameSound(magic, sl);
    }
    forall b: nat, v: seq<Byte>, rest: seq<Byte> ensures CompleteAt(h, b, v, rest) {
      if FrameOk(v) {
        FrameComplete(magic, v, rest);
      }
    }
    forall b: nat, v: seq<Byte>, k: nat ensures CutAt(h, b, v, k) {
      if FrameOk(v) && k < |EncodeFrame(magic)(v)| {
        FrameCut(magic, v, k);
      }
    }
    forall v | FrameOk(v) ensures |h.encode(v)| > 0 {
      FrameComplete(magic, v, []);
    }
  }

  lemma FramesUnfold(magic: Magic, payloads: seq<seq<Byte>>)
    requires payloads != []
    ensures var frame, rest := EncodeFrame(magic)(payloads[0]), EncodeAll(EncodeFrame(magic), payloads[1..]);
      EncodeAll(EncodeFrame(magic), payloads) == frame + rest && |frame| == 8 + |payloads[0]|
  {
  }

  /** Where the payload of a frame at offset `b` lies. */
  function PayloadView(b: nat, payload: seq<Byte>): Slice {
    Slice(b + 8, payload)
  }

  function PayloadViews(magic: Magic, b: nat, payloads: seq<seq<Byte>>): seq<Slice> {
    Located(EncodeFrame(magic), PayloadView, b, payloads)
  }

  /** The views hold the payloads themselves. */
  lemma {:induction false} PayloadsKept(magic: Magic, b: nat, payloads: seq<seq<Byte>>)
    ensures var views := PayloadViews(magic, b, payloads);
      |views| == |payloads| && forall i :: 0 <= i < |views| ==> views[i].bytes == payloads[i]
    decreases payloads
  {
    hide EncodeFrame;
    if payloads != [] {
      var b' := b + |EncodeFrame(magic)(payloads[0])|;
      PayloadsKept(magic, b', payloads[1..]);
      assert PayloadViews(magic, b, payloads) == [PayloadView(b, payloads[0])] + PayloadViews(magic, b', payloads[1..]);
    }
  }

  class BlkFileIter {
    const cursor: Cursor
    const magic: Magic

    ghost predicate Valid()
      reads cursor
    {
      cursor.Valid()
    }

    constructor (data: Slice, word: Word, magic: Magic)
      requires |data.bytes| <= word
      ensures Valid() && fresh(cursor) && cursor.word == word && cursor.Here() == data && this.magic == magic
    {
      AfterZero(data);
      cursor := new Cursor(data, word);
      this.magic := magic;
    }

    /** One frame, or None at the end; a failure leaves the cursor 0, 4 or 8 bytes into the frame. */
    method NextBlock() returns (r: Result<Option<Slice>>)
      requires Valid()
      modifies cursor
      ensures Valid()
      ensures old(cursor.Here()).bytes == [] ==> r == Ok(None) && cursor.Moved(0)
      ensures old(cursor.Here()).bytes != [] ==>
        var b, p := old(cursor.Here()).off, FrameFormat(magic).parse(old(cursor.Here()));
        && cursor.Moved(p.used) && r == Reply(p, (v: seq<Byte>) => Some(Slice(b + 8, v)))
        && (p.Bad? ==> p.used in {0, 4, 8}) && (p.Good? ==> p.used >= 8)
      ensures var s, b := old(cursor.Here()).bytes, old(cursor.Here()).off;
        s != [] ==>
          if |s| < 4 then r == Err(UnexpectedEof(4, |s|)) && cursor.Moved(0)
          else if s[..4] != magic then r == Err(MagicMismatch(magic, s[..4])) && cursor.Moved(4)
          else if |s| < 8 then r == Err(UnexpectedEof(4, |s| - 4)) && cursor.Moved(4)
          else
            var n, left := FromLE(s[4..8]), |s| - 8;
            if n > 8_000_000 then r == Err(OversizedData(n, 8_000_000)) && cursor.Moved(8)
            else if n > left then r == Err(UnexpectedEof(n, left)) && cursor.Moved(8)
            else r == Ok(Some(Slice(b + 8, s[8..8 + n]))) && cursor.Moved(8 + n)
      ensures var s := old(cursor.Here()).bytes;
        && (r.Err? && r.error.MagicMismatch? <==> |s| >= 4 && s[..4] != magic)
        && (r.Err? && r.error.OversizedData? <==> |s| >= 8 && s[..4] == magic && FromLE(s[4..8]) > 8_000_000)
    {
      hide After, FromLE, Raw;
      ghost var sl := cursor.Here();
      AfterZero(sl);
      FrameReads(sl);
      var done := cursor.IsEmpty();
      if done {
        return Ok(None);
      }
      var size := ReadSize();
      if size.Err? {
        return Err(size.error);
      }
      assert size.value == FromLE(sl.bytes[4..8]) && cursor.Here() == After(sl, 8);
      if size.value <= |sl.bytes| - 8 {
        AfterAfter(sl, 8, size.value);
        PayloadRead(sl, size.value);
      } else {
        AfterZero(After(sl, 8));
      }
      var blockBytes := cursor.ReadBytes(size.value);
      if blockBytes.Err? {
        return Err(blockBytes.error);
      }
      return Ok(Some(blockBytes.value));
    }

    /** The magic bytes and the size, with their checks. */
    method ReadSize() returns (r: Result<nat>)
      requires Valid()
      modifies cursor
      ensures var s := old(cursor.Here()).bytes;
        if |s| < 4 then r == Err(UnexpectedEof(4, |s|)) && cursor.Moved(0)
        else if s[..4] != magic then r == Err(MagicMismatch(magic, s[..4])) && cursor.Moved(4)
        else if |s| < 8 then r == Err(UnexpectedEof(4, |s| - 4)) && cursor.Moved(4)
        else if FromLE(s[4..8]) > 8_000_000 then
          r == Err(OversizedData(FromLE(s[4..8]), 8_000_000)) && cursor.Moved(8)
        else r == Ok(FromLE(s[4..8])) && cursor.Moved(8)
    {
      hide After, FromLE, Num, Raw;
      ghost var sl := cursor.Here();
      AfterZero(sl);
      FrameReads(sl);
      var magic := cursor.ReadBytes(4);
      if magic.Err? {
        return Err(magic.error);
      }
      assert magic.value.bytes == sl.bytes[..4] && cursor.Here() == After(sl, 4);
      AfterZero(After(sl, 4));
      if magic.value.bytes != this.magic {
        return Err(MagicMismatch(this.magic, magic.value.bytes));
      }
      var size := cursor.ReadLE(4);
      if size.Err? {
        return Err(size.error);
      }
      assert size.value == FromLE(sl.bytes[4..8]) && cursor.Here() == After(sl, 8);
      if size.value > MAX_BLOCK_BYTES {
        return Err(OversizedData(size.value, MAX_BLOCK_BYTES));
      }
      return Ok(size.value);
    }

    /** `while let Some(block) = it.next_block()? { .. }` */
    method CollectBlocks() returns (blocks: seq<Slice>, r: Result<()>)
      requires Valid()
      modifies cursor
      ensures Valid()
      ensures var b, run := old(cursor.Here()).off, AllRun(FrameFormat(magic), old(cursor.Here()));
        && blocks == PayloadViews(magic, b, run.items) && cursor.Moved(run.used)
        && r == if run.error.Some? then Err(run.error.value) else Ok(())
      ensures var run := AllRun(FrameFormat(magic), old(cursor.Here()));
        |blocks| == |run.items| && forall i :: 0 <= i < |blocks| ==> blocks[i].bytes == run.items[i]
    {
      hide After, FrameFormat, AllRun, EncodeAll, Located, EncodeFrame;
      ghost var f, sl := FrameFormat(magic), cursor.Here();
      ghost var past: Run<seq<Byte>> := Run([], 0, [], None);
      OnwardStart(f, sl);
      AfterZero(sl);
      NoPayloads(sl.off, magic);
      blocks := [];
      while true
        invariant cursor.Moved(past.used) && Onward(f, sl, past)
        invariant past.used == |EncodeAll(EncodeFrame(magic), past.items)|
        invariant blocks == PayloadViews(magic, sl.off, past.items)
        decreases |cursor.data.bytes| - cursor.pos
      {
        ghost var p := f.parse(After(sl, past.used));
        AfterAfter(sl, past.used, p.used);
        var block := NextBlock();
        PayloadsKept(magic, sl.off, past.items);
        if block.Err? {
          OnwardStep(f, sl, past);
          assert past.items + [] == past.items;
          return blocks, Err(block.error);
        }
        if block.value.None? {
          OnwardEnd(f, sl, past);
          return blocks, Ok(());
        }
        FrameUsed(magic, After(sl, past.used));
        OnwardStep(f, sl, past);
        LocatedSnoc(EncodeFrame(magic), PayloadView, sl.off, past.items, p.value);
        EncodeSnoc(EncodeFrame(magic), past.items, p.value);
        blocks := blocks + [block.value.value];
        past := Join(past, Turn(p));
      }
    }
  }

  lemma NoPayloads(b: nat, magic: Magic)
    ensures PayloadViews(magic, b, []) == [] && EncodeAll(EncodeFrame(magic), []) == []
  {
  }

  lemma FrameReads(sl: Slice)
    ensures |sl.bytes| >= 4 ==> After(After(sl, 4), 4) == After(sl, 8) && |After(sl, 4).bytes| == |sl.bytes| - 4
    ensures |sl.bytes| >= 8 ==>
      && After(sl, 4).bytes[..4] == sl.bytes[4..8]
      && |After(sl, 8).bytes| == |sl.bytes| - 8 && After(sl, 8).off == sl.off + 8
    ensures |sl.bytes| >= 4 ==>
      Num(4).parse(After(sl, 4)) ==
      if |sl.bytes| < 8 then Bad(UnexpectedEof(4, |sl.bytes| - 4), 0, []) else Good(FromLE(sl.bytes[4..8]), 4, [])
  {
    hide FromLE;
    if |sl.bytes| >= 8 {
      assert After(sl, 4).bytes[..4] == sl.bytes[4..8];
    }
  }

  lemma PayloadRead(sl: Slice, n: nat)
    requires 8 + n <= |sl.bytes|
    ensures After(sl, 8).bytes[..n] == sl.bytes[8..8 + n]
  {
  }

  lemma FrameUsed(magic: Magic, sl: Slice)
    ensures var p := FrameFormat(magic).parse(sl);
      p.Good? ==> p.used == |EncodeFrame(magic)(p.value)| == 8 + |p.value| <= |sl.bytes|
  {
  }
}
