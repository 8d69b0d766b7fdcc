/** A block file is read without error exactly when it is a concatenation of frames, and then its payloads come
    back in place. */
module BlockFileProofs {
  import opened Bytes
  import opened Types
  import opened Formats
  import opened BlockFiles
  import opened Views

  /** A file is the concatenation of the frames of `payloads` exactly when iterating it ends without error and
      yields them. */
  lemma FileExactly(magic: Magic, file: Slice, payloads: seq<seq<Byte>>)
    ensures AllOk(FrameOk, payloads) && EncodeAll(EncodeFrame(magic), payloads) == file.bytes
      <==> var r := AllRun(FrameFormat(magic), file); r.error.None? && r.items == payloads
  {
    hide AllRun, FrameParse, EncodeAll;
    var f := FrameFormat(magic);
    LawfulFrame(magic);
    AllSound(f, file);
    if AllOk(FrameOk, payloads) && EncodeAll(EncodeFrame(magic), payloads) == file.bytes {
      AllComplete(f, payloads, file.off);
    }
  }

  /** Whole files: no error if and only if the file is made of frames, each within the cap. */
  lemma FileBijection(magic: Magic, file: Slice)
    ensures AllRun(FrameFormat(magic), file).error.None?
      <==> exists payloads :: AllOk(FrameOk, payloads) && EncodeAll(EncodeFrame(magic), payloads) == file.bytes
  {
    hide AllRun, FrameFormat, EncodeAll;
    FileExactly(magic, file, AllRun(FrameFormat(magic), file).items);
    forall payloads | AllOk(FrameOk, payloads) && EncodeAll(EncodeFrame(magic), payloads) == file.bytes
      ensures AllRun(FrameFormat(magic), file).error.None?
    {
      FileExactly(magic, file, payloads);
    }
  }

  /** The payloads of a file, broken or not, are pieces of it, in order and disjoint, with its bytes. */
  lemma PayloadsInPlace(magic: Magic, file: Slice)
    ensures var payloads := AllRun(FrameFormat(magic), file).items;
      InOrder(PayloadViews(magic, file.off, payloads), file, file.off, file.off + |file.bytes|)
  {
    hide AllRun, FrameParse, EncodeAll, InOrder, Located;
    LawfulFrame(magic);
    AllSound(FrameFormat(magic), file);
    FramesInPlace(magic, file, AllRun(FrameFormat(magic), file).items);
  }

  lemma {:induction false} FramesInPlace(magic: Magic, file: Slice, payloads: seq<seq<Byte>>)
    requires EncodeAll(EncodeFrame(magic), payloads) <= file.bytes
    ensures InOrder(PayloadViews(magic, file.off, payloads), file, file.off, file.off + |file.bytes|)
    decreases payloads
  {
    hide EncodeFrame, EncodeAll, PieceOf;
    if payloads != [] {
      var n, hi := 8 + |payloads[0]|, file.off + |file.bytes|;
      var views, rest := PayloadViews(magic, file.off, payloads), PayloadViews(magic, file.off + n, payloads[1..]);
      FramesUnfold(magic, payloads);
      FrameInFront(magic, file, payloads[0], EncodeAll(EncodeFrame(magic), payloads[1..]));
      FramesInPlace(magic, After(file, n), payloads[1..]);
      InOrderAfter(rest, file, n, file.off + n, hi);
      assert views[1..] == rest;
    }
  }

  lemma FrameInFront(magic: Magic, file: Slice, payload: seq<Byte>, rest: seq<Byte>)
    requires EncodeFrame(magic)(payload) + rest <= file.bytes
    ensures 8 + |payload| <= |file.bytes| && rest <= After(file, 8 + |payload|).bytes
    ensures PieceOf(Slice(file.off + 8, payload), file)
  {
    hide LE;
    var frame := EncodeFrame(magic)(payload);
    var s := file.bytes;
    assert |frame| == 8 + |payload|;
    assert s[..|frame| + |rest|] == frame + rest;
    assert s[8..8 + |payload|] == (frame + rest)[8..8 + |payload|] == payload;
    assert s[|frame|..][..|rest|] == (frame + rest)[|frame|..] == rest;
  }

  /** Reading a whole file: no error exactly when it is made of frames, and then precisely their payloads; broken
      or not, what was yielded lies in the file, in order and without overlap, with its bytes. */
  method ReadFile(file: Slice, word: Word, magic: Magic) returns (blocks: seq<Slice>, r: Result<()>)
    requires |file.bytes| <= word
    ensures r.Ok? <==>
      exists payloads :: AllOk(FrameOk, payloads) && EncodeAll(EncodeFrame(magic), payloads) == file.bytes
    ensures forall payloads :: AllOk(FrameOk, payloads) && EncodeAll(EncodeFrame(magic), payloads) == file.bytes ==>
      |blocks| == |payloads| && forall i :: 0 <= i < |blocks| ==> blocks[i].bytes == payloads[i]
    ensures InOrder(blocks, file, file.off, file.off + |file.bytes|)
  {
    hide AllRun, FrameFormat, EncodeAll, EncodeFrame, InOrder, Located, FromLE, After;
    FileBijection(magic, file);
    PayloadsInPlace(magic, file);
    forall payloads | AllOk(FrameOk, payloads) && EncodeAll(EncodeFrame(magic), payloads) == file.bytes
      ensures AllRun(FrameFormat(magic), file).items == payloads
    {
      FileExactly(magic, file, payloads);
    }
    var it := new BlkFileIter(file, word, magic);
    blocks, r := it.CollectBlocks();
  }
}
