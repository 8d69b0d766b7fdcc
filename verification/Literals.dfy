/** What the primitive readers, the caps and the null outpoint are, said of bytes and numerals. */
module Literals {
  import opened Bytes
  import opened Types
  import opened Formats
  import opened Primitives
  import opened Wire
  import opened BlockWire
  import opened Serial

  // ----------------------------------------------------------------- integers

  /** The first byte is the least significant. */
  lemma LittleEndian(s: seq<Byte>)
    ensures |s| == 2 ==> FromLE(s) == s[0] as int + s[1] as int * 0x100
    ensures |s| == 4 ==>
      FromLE(s) == s[0] as int + s[1] as int * 0x100 + s[2] as int * 0x1_0000 + s[3] as int * 0x100_0000
    ensures |s| == 8 ==>
      FromLE(s) == FromLE(s[..4]) + 0x1_0000_0000 * FromLE(s[4..])
  {
    if |s| == 2 {
      Digits2(s);
    } else if |s| == 4 {
      Digits4(s);
    } else if |s| == 8 {
      Digits4(s[..4]);
      Unfold4(s);
    }
  }

  lemma Unfold4(s: seq<Byte>)
    requires |s| >= 4
    ensures FromLE(s) ==
      s[0] as int + s[1] as int * 0x100 + s[2] as int * 0x1_0000 + s[3] as int * 0x100_0000
      + 0x1_0000_0000 * FromLE(s[4..])
  {
    var a, b, c := s[1..], s[2..], s[3..];
    assert a[1..] == b && b[1..] == c && c[1..] == s[4..];
    assert a[0] == s[1] && b[0] == s[2] && c[0] == s[3];
    assert FromLE(c) == s[3] as int + 256 * FromLE(s[4..]);
    assert FromLE(b) == s[2] as int + 256 * FromLE(c);
    assert FromLE(a) == s[1] as int + 256 * FromLE(b);
  }

  lemma Digits2(s: seq<Byte>)
    requires |s| == 2
    ensures FromLE(s) == s[0] as int + s[1] as int * 0x100
  {
    var t := s[1..];
    assert t[0] == s[1] && t[1..] == [];
    assert FromLE([]) == 0;
    assert FromLE(t) == t[0] as int + 256 * FromLE(t[1..]);
    assert FromLE(s) == s[0] as int + 256 * FromLE(t);
  }

  lemma Digits4(s: seq<Byte>)
    requires |s| == 4
    ensures FromLE(s) == s[0] as int + s[1] as int * 0x100 + s[2] as int * 0x1_0000 + s[3] as int * 0x100_0000
  {
    Unfold4(s);
    assert s[4..] == [];
  }

  /** A 32-bit word is read as the signed integer that is equal to it modulo 2^32. */
  lemma TwosComplement(u: nat)
    requires u < 0x1_0000_0000
    ensures AsI32(u) % 0x1_0000_0000 == u && OfI32(AsI32(u)) == u
  {
  }

  /** Every CompactSize integer by its first byte, with the shortages. */
  lemma CompactTable(s: seq<Byte>)
    ensures var p := CompactParse(s);
      if s == [] then p == Bad(UnexpectedEof(1, 0), 0, [])
      else if s[0] <= 0xFC then p.Good? && p.value.value == s[0] && p.used == 1
      else if s[0] == 0xFD then
        if |s| < 3 then p == Bad(UnexpectedEof(2, |s| - 1), 1, [])
        else p.Good? && p.value.value == s[1] as int + s[2] as int * 0x100 && p.used == 3
      else if s[0] == 0xFE then
        if |s| < 5 then p == Bad(UnexpectedEof(4, |s| - 1), 1, [])
        else
          && p.Good? && p.used == 5
          && p.value.value == s[1] as int + s[2] as int * 0x100 + s[3] as int * 0x1_0000 + s[4] as int * 0x100_0000
      else
        if |s| < 9 then p == Bad(UnexpectedEof(8, |s| - 1), 1, [])
        else p.Good? && p.value.value == FromLE(s[1..5]) + 0x1_0000_0000 * FromLE(s[5..9]) && p.used == 9
  {
    hide FromLE, LE;
    if |s| >= 3 && s[0] == 0xFD {
      LittleEndian(s[1..3]);
    } else if |s| >= 5 && s[0] == 0xFE {
      LittleEndian(s[1..5]);
    } else if |s| >= 9 {
      LittleEndian(s[1..9]);
      assert s[1..9][..4] == s[1..5] && s[1..9][4..] == s[5..9];
    }
  }

  /** A fixed-width read takes what it needs from the front, or tells what it needed and what there was. */
  lemma FixedReads(n: nat, sl: Slice)
    ensures var x, y := Raw(n).parse(sl), Num(n).parse(sl);
      if n <= |sl.bytes| then x == Good(sl.bytes[..n], n, []) && y == Good(FromLE(sl.bytes[..n]), n, [])
      else x == Bad(UnexpectedEof(n, |sl.bytes|), 0, []) && y == Bad(UnexpectedEof(n, |sl.bytes|), 0, [])
  {
  }

  // --------------------------------------------------------------------- caps

  /** A count of `v` under a cap. */
  predicate Answers<T>(p: Parsed<T>, v: nat, w: Word, cap: nat) {
    if v > w then p.Bad? && p.error == IntegerTooLarge(v)
    else if v > cap then p.Bad? && p.error == OversizedData(v, cap)
    else p.Good?
  }

  /** The counts accepted, and the errors that answer the others: outputs, witness items, transactions, and inputs. */
  lemma CountLimits(w: Word, sl: Slice)
    requires CompactParse(sl.bytes).Good?
    ensures var v := CompactParse(sl.bytes).value.value;
      && Answers(Capped(w, MAX_IO_COUNT).parse(sl), v, w, 100_000)
      && Answers(Capped(w, MAX_WITNESS_ITEMS).parse(sl), v, w, 500)
      && Answers(Capped(w, MAX_BLOCK_TXN).parse(sl), v, w, 1_000_000)
      && (if v == 0 then InputCount(w).parse(sl).Bad? && InputCount(w).parse(sl).error == InvalidInputCount
          else Answers(InputCount(w).parse(sl), v, w, 100_000))
  {
    hide CompactParse;
    var x := CompactParse(sl.bytes);
    assert Capped(w, MAX_IO_COUNT).parse(sl) == Vetted(x, CapCheck(w, MAX_IO_COUNT));
    assert Capped(w, MAX_WITNESS_ITEMS).parse(sl) == Vetted(x, CapCheck(w, MAX_WITNESS_ITEMS));
    assert Capped(w, MAX_BLOCK_TXN).parse(sl) == Vetted(x, CapCheck(w, MAX_BLOCK_TXN));
    assert InputCount(w).parse(sl) == Vetted(x, InputCountCheck(w));
  }

  /** A byte string of declared length `v` under a cap. */
  predicate AnswersBytes(p: Parsed<VarBytes>, sl: Slice, used: nat, v: nat, w: Word, cap: nat) {
    if v > w then p.Bad? && p.error == IntegerTooLarge(v) && p.used == used
    else if v > cap then p.Bad? && p.error == OversizedData(v, cap) && p.used == used
    else if used + v > |sl.bytes| then
      used <= |sl.bytes| && p.Bad? && p.error == UnexpectedEof(v, |sl.bytes| - used) && p.used == used
    else p.Good? && p.value.bytes == sl.bytes[used..used + v] && p.used == used + v
  }

  /** The lengths accepted, and the errors that answer the others: scripts and witness items. */
  lemma LengthLimits(w: Word, sl: Slice)
    requires CompactParse(sl.bytes).Good?
    ensures var c := CompactParse(sl.bytes);
      && AnswersBytes(ScriptFormat(w).parse(sl), sl, c.used, c.value.value, w, 10_000)
      && AnswersBytes(WitnessItemFormat(w).parse(sl), sl, c.used, c.value.value, w, 520)
  {
    hide CompactParse, VarBytesFormat;
    CompactUsed(sl.bytes);
    VarBytesReads(w, MAX_SCRIPT_SIZE, sl);
    VarBytesReads(w, MAX_WITNESS_ITEM_SIZE, sl);
  }

  lemma TxOkFits(t: RawTx)
    requires TxOk(t)
    ensures TxFits(TxOf(t))
  {
    hide CompactOk;
    var x := TxOf(t);
    forall i | 0 <= i < |x.inputs| ensures InFits(x.inputs[i]) {
      assert InputOk(t.Inputs()[i]);
    }
    forall i | 0 <= i < |x.outputs| ensures OutFits(x.outputs[i]) {
      assert OutputOk(t.Outputs()[i]);
    }
    var wits := t.ins.outs.end.witnesses;
    forall i | 0 <= i < |wits| ensures WitnessFits(WitnessOf(wits[i])) {
      assert WitnessOk(wits[i]);
      WitnessOkFits(wits[i]);
    }
  }

  lemma WitnessOkFits(v: RawWitness)
    requires WitnessOk(v)
    ensures WitnessFits(WitnessOf(v))
  {
    forall i | 0 <= i < |v.items| ensures ItemFits(v.items[i].bytes) {
      assert WitnessItemOk(v.items[i]);
    }
  }

  /** Every accepted block is within the caps; with the round trip of all blocks that are, the caps are exact. */
  lemma AcceptedFits(w: Word, data: Slice)
    ensures var p := BlockFormat(w).parse(data); p.Good? ==> BlockFits(BlockOf(p.value))
  {
    hide BlockShape, TxOk, TxFits, TxOf, EncodeBlock, BlockEvents;
    LawfulBlock(w);
    assert SoundAt(BlockFormat(w), data);
    var p := BlockFormat(w).parse(data);
    if p.Good? {
      forall i | 0 <= i < |p.value.txs| ensures TxFits(TxOf(p.value.txs[i])) {
        assert TxOk(p.value.txs[i]);
        TxOkFits(p.value.txs[i]);
      }
    }
  }

  // ----------------------------------------------------------------- coinbase

  /** An input is coinbase exactly when its first 36 bytes are 32 zeros and four 0xff. */
  lemma NullOutPoint(i: RawInput)
    requires InputOk(i)
    ensures |EncodeInput(i)| >= 36
    ensures IsCoinbaseInput(i) <==> EncodeInput(i)[..36] == seq(32, _ => 0) + [0xFF, 0xFF, 0xFF, 0xFF]
  {
    hide LE, FromLE, EncodeVarBytes, Pow256;
    var e, vout, ff := EncodeInput(i), LE(4, i.vout), [0xFF, 0xFF, 0xFF, 0xFF];
    Powers();
    FromLEOfLE(4, i.vout);
    LittleEndian(vout);
    LittleEndian(ff);
    assert vout == ff <==> i.vout == 0xFFFF_FFFF by {
      if i.vout == 0xFFFF_FFFF {
        assert vout[0] == vout[1] == vout[2] == vout[3] == 0xFF;
      }
    }
    assert e[..36] == i.txid + vout;
    var zeros: seq<Byte> := seq(32, _ => 0);
    assert (i.txid + vout)[..32] == i.txid && (i.txid + vout)[32..] == vout;
    assert (zeros + ff)[..32] == zeros && (zeros + ff)[32..] == ff;
    assert i.txid == zeros <==> forall k :: 0 <= k < |i.txid| ==> i.txid[k] == 0;
  }
}
