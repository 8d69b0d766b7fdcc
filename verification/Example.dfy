/** The byte builders of the example program: the inverse of `read_varint`, and a block that strict parsing accepts. */
module Example {
  import opened Bytes
  import opened Types
  import opened Formats
  import opened Primitives
  import opened Wire
  import opened BlockWire
  import opened Callbacks
  import opened Streams
  import opened Strictness

  /** `encode_varint` writes the shortest form. */
  method EncodeVarint(v: nat) returns (out: seq<Byte>)
    requires v < Pow256(8)
    ensures out == EncodeCompact(Shortest(v))
  {
    Powers();
    out := [];
    if v <= 0xFC {
      out := out + [v];
    } else if v <= 0xFFFF {
      out := out + [0xFD];
      out := out + LE(2, v);
    } else if v <= 0xFFFF_FFFF {
      out := out + [0xFE];
      out := out + LE(4, v);
    } else {
      out := out + [0xFF];
      out := out + LE(8, v);
    }
  }

  function Zeros(n: nat): seq<Byte> { seq(n, _ => 0) }

  const SCRIPT_SIG: seq<Byte> := [0x03, 0x4B, 0x6E, 0x0B]

  const SCRIPT_PUBKEY: seq<Byte> := [
    0x00, 0x14, 0x89, 0xAB, 0xCD, 0xEF, 0xAB, 0xBA, 0xAB, 0xBA, 0xAB,
    0xBA, 0xAB, 0xBA, 0xAB, 0xBA, 0xAB, 0xBA, 0xAB, 0xBA, 0xAB, 0xBA]

  /** What `coinbase_tx` writes, as a tree. */
  function CoinbaseInput(): RawInput {
    RawInput(Zeros(32), 0xFFFF_FFFF, VarBytes(Compact(0, 4), SCRIPT_SIG), 0xFFFF_FFFF)
  }

  function CoinbaseOutput(): RawOutput {
    RawOutput(625_000_000, VarBytes(Compact(0, 22), SCRIPT_PUBKEY))
  }

  function CoinbaseTree(): RawTx {
    RawTx(1, TxIns(TxHead(false, Compact(0, 1)), [CoinbaseInput()],
      TxOuts(Compact(0, 1), [CoinbaseOutput()], TxEnd([], 0))))
  }

  /** `coinbase_tx`. */
  method CoinbaseTx() returns (tx: seq<Byte>)
    ensures tx == EncodeTx(CoinbaseTree())
  {
    hide LE;
    CoinbaseBytes();
    tx := LE(4, 1);
    tx := tx + [1];
    tx := tx + Zeros(32);
    tx := tx + LE(4, 0xFFFF_FFFF);
    tx := tx + [4];
    tx := tx + SCRIPT_SIG;
    tx := tx + LE(4, 0xFFFF_FFFF);
    tx := tx + [1];
    tx := tx + LE(8, 625_000_000);
    tx := tx + [22];
    tx := tx + SCRIPT_PUBKEY;
    tx := tx + LE(4, 0);
  }

  lemma CoinbaseBytes()
    ensures EncodeTx(CoinbaseTree()) ==
      LE(4, 1) + [1] + Zeros(32) + LE(4, 0xFFFF_FFFF) + [4] + SCRIPT_SIG + LE(4, 0xFFFF_FFFF)
      + [1] + LE(8, 625_000_000) + [22] + SCRIPT_PUBKEY + LE(4, 0)
  {
    hide LE, EncodeTx, EncodeInput, EncodeOutput, CoinbaseTree, CoinbaseInput, CoinbaseOutput, Zeros;
    var front := LE(4, 1) + [1];
    CoinbaseShape();
    CoinbaseParts();
    AppendInput(front, Zeros(32), LE(4, 0xFFFF_FFFF), [4], SCRIPT_SIG, LE(4, 0xFFFF_FFFF));
    AppendOutput(front + EncodeInput(CoinbaseInput()) + [1], LE(8, 625_000_000), [22], SCRIPT_PUBKEY);
  }

  lemma CoinbaseShape()
    ensures EncodeTx(CoinbaseTree())
      == LE(4, 1) + [1] + EncodeInput(CoinbaseInput()) + [1] + EncodeOutput(CoinbaseOutput()) + LE(4, 0)
  {
    hide LE, EncodeInput, EncodeOutput, CoinbaseInput, CoinbaseOutput;
    var i, o := CoinbaseInput(), CoinbaseOutput();
    assert EncodeAll(EncodeInput, [i]) == EncodeInput(i) + [] == EncodeInput(i);
    assert EncodeAll(EncodeOutput, [o]) == EncodeOutput(o) + [] == EncodeOutput(o);
    assert EncodeEnd(TxEnd([], 0)) == [] + LE(4, 0) == LE(4, 0);
    Nested(LE(4, 1), [1], EncodeInput(i), [1], EncodeOutput(o), LE(4, 0));
  }

  lemma Nested(a: seq<Byte>, b: seq<Byte>, c: seq<Byte>, d: seq<Byte>, e: seq<Byte>, f: seq<Byte>)
    ensures a + (b + (c + (d + (e + f)))) == a + b + c + d + e + f
  {
    assert a + (b + (c + (d + (e + f)))) == (a + b) + (c + (d + (e + f)));
    assert (a + b) + (c + (d + (e + f))) == (a + b + c) + (d + (e + f));
  }

  lemma CoinbaseParts()
    ensures EncodeInput(CoinbaseInput()) == Zeros(32) + LE(4, 0xFFFF_FFFF) + ([4] + SCRIPT_SIG) + LE(4, 0xFFFF_FFFF)
    ensures EncodeOutput(CoinbaseOutput()) == LE(8, 625_000_000) + ([22] + SCRIPT_PUBKEY)
  {
    hide LE;
  }

  lemma AppendInput(p: seq<Byte>, txid: seq<Byte>, vout: seq<Byte>, n: seq<Byte>, script: seq<Byte>, end: seq<Byte>)
    ensures p + (txid + vout + (n + script) + end) == p + txid + vout + n + script + end
  {
    assert txid + vout + (n + script) + end == txid + vout + n + script + end;
    assert p + (txid + vout + n + script + end) == p + (txid + vout + n + script) + end;
  }

  lemma AppendOutput(p: seq<Byte>, value: seq<Byte>, n: seq<Byte>, script: seq<Byte>)
    ensures p + (value + (n + script)) == p + value + n + script
  {
  }

  /** `build_synthetic_block`, over the header of the genesis block. */
  method BuildSyntheticBlock(header: seq<Byte>) returns (block: seq<Byte>)
    requires |header| == HEADER_SIZE
    ensures block == EncodeBlock(SyntheticBlock(header))
  {
    hide EncodeTx;
    Powers();
    var tx := CoinbaseTx();
    block := header;
    var count := EncodeVarint(1);
    block := block + count;
    block := block + tx;
    ghost var t := CoinbaseTree();
    assert EncodeAll(EncodeTx, [t]) == EncodeTx(t) + [];
  }

  function SyntheticBlock(header: seq<Byte>): RawBlock {
    RawBlock(header, Compact(0, 1), [CoinbaseTree()])
  }

  lemma CoinbaseTreeOk()
    ensures TxOk(CoinbaseTree()) && IsCoinbaseTx(CoinbaseTree())
  {
    assert OutputOk(CoinbaseOutput()) && InputOk(CoinbaseInput());
  }

  /** The built block is accepted by strict parsing, on every platform and by every callback that does not fail. */
  lemma SyntheticAccepted<S(!new)>(w: Word, off: nat, header: seq<Byte>, step: Step<S>, st: S)
    requires |header| == HEADER_SIZE
    requires forall s: S, e: Event :: step(s, e).1.None?
    ensures StrictBlock(w, Slice(off, EncodeBlock(SyntheticBlock(header))), step, st).1.Ok?
  {
    hide TxOk, IsCoinbaseTx, EncodeBlock, BlockEvents, StrictBlock, CoinbaseTree;
    var v, data := SyntheticBlock(header), Slice(off, EncodeBlock(SyntheticBlock(header)));
    CoinbaseTreeOk();
    StrictAcceptance(w, data, step, st);
    FeedAgreeable(step, st, BlockEvents(w, off, v));
    assert StrictlyValid(w, data, v, step, st);
  }
}
