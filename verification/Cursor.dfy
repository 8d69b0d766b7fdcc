/** The zero-copy cursor: every read moves `pos` in place and is the primitive format of its kind. */
module Cursors {
  import opened Bytes
  import opened Types
  import opened Formats
  import opened Primitives

  /** The caller's view of a format's result. */
  function Reply<T, V>(p: Parsed<T>, view: T -> V): Result<V> {
    match p
    case Good(v, _, _) => Ok(view(v))
    case Bad(e, _, _) => Err(e)
  }

  class Cursor {
    const data: Slice
    const word: Word
    var pos: nat

    ghost predicate Valid()
      reads this
    {
      pos <= |data.bytes| <= word
    }

    /** The unread part of the input. */
    ghost function Here(): Slice
      reads this
    {
      After(data, pos)
    }

    /** The cursor moved by exactly `n` of the unread bytes. */
    twostate predicate Moved(n: nat)
      reads this
    {
      old(Valid()) && Valid() && n <= |old(Here()).bytes| && pos == old(pos) + n && Here() == After(old(Here()), n)
    }

    constructor (data: Slice, word: Word)
      requires |data.bytes| <= word
      ensures Valid() && this.data == data && this.word == word && pos == 0
      ensures Here() == data
    {
      this.data := data;
      this.word := word;
      this.pos := 0;
    }

    /** The subtraction saturates in the source; on a valid cursor it never has to. */
    method Remaining() returns (n: nat)
      requires Valid()
      ensures n == |Here().bytes|
    {
      n := |data.bytes| - pos;
    }

    method IsEmpty() returns (e: bool)
      requires Valid()
      ensures e <==> Here().bytes == []
    {
      e := pos >= |data.bytes|;
    }

    method AsSlice() returns (s: Slice)
      requires Valid()
      ensures s == Here() && |s.bytes| <= word
    {
      s := Slice(data.off + pos, data.bytes[pos..]);
    }

    method ReadBytes(n: nat) returns (r: Result<Slice>)
      requires Valid() && n <= word
      modifies this
      ensures var b, p := old(Here()).off, Raw(n).parse(old(Here()));
        Moved(p.used) && r == Reply(p, (v: seq<Byte>) => Slice(b, v))
      ensures var sl := old(Here());
        if n <= |sl.bytes| then Moved(n) && r == Ok(Slice(sl.off, sl.bytes[..n]))
        else Moved(0) && r == Err(UnexpectedEof(n, |sl.bytes|))
    {
      var available := Remaining();
      if pos + n > word {
        // `checked_add` overflows
        return Err(UnexpectedEof(n, available));
      }
      var end := pos + n;
      if end > |data.bytes| {
        return Err(UnexpectedEof(n, available));
      }
      var slice := Slice(data.off + pos, data.bytes[pos..end]);
      assert slice.bytes == Here().bytes[..n];
      pos := end;
      return Ok(slice);
    }

    method ReadU8() returns (r: Result<Byte>)
      requires Valid()
      modifies this
      ensures var s := old(Here()).bytes;
        if s == [] then Moved(0) && r == Err(UnexpectedEof(1, 0)) else Moved(1) && r == Ok(s[0])
    {
      if pos >= |data.bytes| {
        return Err(UnexpectedEof(1, 0));
      }
      var x := data.bytes[pos];
      pos := pos + 1;
      return Ok(x);
    }

    /** `read_u16_le`, `read_u32_le` and `read_u64_le`: `n` is the width of the type. */
    method ReadLE(n: nat) returns (r: Result<nat>)
      requires Valid() && n in {2, 4, 8}
      modifies this
      ensures var p := Num(n).parse(old(Here()));
        Moved(p.used) && r == Reply(p, (v: nat) => v)
    {
      var bytes := ReadBytes(n);
      if bytes.Err? {
        return Err(bytes.error);
      }
      return Ok(FromLE(bytes.value.bytes));
    }

    method ReadI32() returns (r: Result<I32>)
      requires Valid()
      modifies this
      ensures var p := Int32().parse(old(Here()));
        Moved(p.used) && r == Reply(p, (v: I32) => v)
    {
      var bytes := ReadBytes(4);
      if bytes.Err? {
        return Err(bytes.error);
      }
      return Ok(AsI32(FromLE(bytes.value.bytes)));
    }

    method ReadVarint() returns (r: Result<nat>)
      requires Valid()
      modifies this
      ensures var p := CompactParse(old(Here()).bytes);
        Moved(p.used) && r == Reply(p, (c: Compact) => c.value)
    {
      var first := ReadU8();
      if first.Err? {
        return Err(first.error);
      }
      if first.value <= 0xFC {
        return Ok(first.value);
      }
      var k := if first.value == 0xFD then 2 else if first.value == 0xFE then 4 else 8;
      ghost var s, tail := old(Here()).bytes, Here().bytes;
      assert k <= |tail| ==> tail[..k] == s[1..1 + k];
      r := ReadLE(k);
    }

    method ReadVarBytes(max: nat) returns (r: Result<Slice>)
      requires Valid() && max <= word
      modifies this
      ensures var b, p := old(Here()).off, VarBytesFormat(word, max).parse(old(Here()));
        Moved(p.used) && r == Reply(p, (v: VarBytes) => Slice(b + |EncodeCompact(v.len)|, v.bytes))
    {
      hide VarBytesFormat, EncodeCompact, CompactParse, After, CapCheck;
      ghost var sl, c := Here(), CompactParse(Here().bytes);
      VarBytesReads(word, max, sl);
      CompactUsed(sl.bytes);
      var len := ReadVarint();
      if len.Err? {
        return Err(len.error);
      }
      assert c.Good? && len.value == c.value.value;
      if len.value > word {
        return Err(IntegerTooLarge(len.value));
      }
      if len.value > max {
        return Err(OversizedData(len.value, max));
      }
      AfterAfter(sl, c.used, Raw(len.value).parse(After(sl, c.used)).used);
      r := ReadBytes(len.value);
    }

    method Skip(n: nat) returns (r: Result<()>)
      requires Valid() && n <= word
      modifies this
      ensures var p := Raw(n).parse(old(Here()));
        Moved(p.used) && r == Reply(p, (_: seq<Byte>) => ())
    {
      var bytes := ReadBytes(n);
      return if bytes.Err? then Err(bytes.error) else Ok(());
    }

    /** A sub-cursor over the next `n` bytes. */
    method Split(n: nat) returns (r: Result<Cursor>)
      requires Valid() && n <= word
      modifies this
      ensures var p := Raw(n).parse(old(Here()));
        && Moved(p.used)
        && (if p.Bad? then r == Err(p.error) else
              && r.Ok? && fresh(r.value) && r.value.Valid() && r.value.word == word
              && r.value.Here() == Slice(old(Here()).off, p.value))
    {
      var slice := ReadBytes(n);
      if slice.Err? {
        return Err(slice.error);
      }
      var sub := new Cursor(slice.value, word);
      return Ok(sub);
    }
  }
}
