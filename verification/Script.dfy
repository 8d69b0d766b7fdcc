/** Script instructions, their decoder, and the script classifier. */
module Scripts {
  import opened Bytes
  import opened Types
  import opened Formats

  // ---------------------------------------------------- instruction format

  /** An instruction as written: a push with the width of its length field, or a plain opcode. */
  datatype RawInstr = RawPush(width: nat, data: seq<Byte>) | RawOp(code: Byte)

  predicate InstrOk(i: RawInstr) {
    match i
    case RawPush(k, data) => if k == 0 then |data| <= 0x4B else k in {1, 2, 4} && |data| < Pow256(k)
    case RawOp(code) => code >= 0x4F
  }

  function PushOpcode(k: nat): Byte {
    if k == 1 then 0x4C else if k == 2 then 0x4D else 0x4E
  }

  function EncodeInstr(i: RawInstr): seq<Byte> {
    match i
    case RawPush(k, data) =>
      if k == 0 then [|data| % 256] + data else [PushOpcode(k)] + LE(k, |data|) + data
    case RawOp(code) => [code]
  }

  /** The width of the length field that follows an opcode. */
  function WidthOf(op: Byte): nat {
    if op == 0x4C then 1 else if op == 0x4D then 2 else if op == 0x4E then 4 else 0
  }

  function InstrParse(s: seq<Byte>): Parsed<RawInstr> {
    if s == [] then Bad(UnexpectedEof(1, 0), 0, [])
    else if s[0] >= 0x4F then Good(RawOp(s[0]), 1, [])
    else
      var k := WidthOf(s[0]);
      if |s| - 1 < k then Bad(UnexpectedEof(k, |s| - 1), 1, []) else
        var n := if k == 0 then s[0] else FromLE(s[1..1 + k]);
        var avail := |s| - 1 - k;
        if n > avail then Bad(UnexpectedEof(n, avail), 1 + k, [])
        else Good(RawPush(k, s[1 + k..1 + k + n]), 1 + k + n, [])
  }

  function InstrFormat(): Format<RawInstr> {
    Format((sl: Slice) => InstrParse(sl.bytes), EncodeInstr, InstrOk, Silent())
  }

  lemma LawfulInstr()
    ensures Lawful(InstrFormat()) && NonEmpty(InstrFormat())
  {
    var h := InstrFormat();
    Powers();
    forall sl: Slice ensures SoundAt(h, sl) {
      InstrSound(sl.bytes);
    }
    forall b: nat, v: RawInstr, rest: seq<Byte> ensures CompleteAt(h, b, v, rest) {
      if InstrOk(v) {
        InstrComplete(v, rest);
      }
    }
    forall b: nat, v: RawInstr, k: nat ensures CutAt(h, b, v, k) {
      if InstrOk(v) && k < |EncodeInstr(v)| {
        InstrCut(v, k);
      }
    }
  }

  lemma InstrSound(s: seq<Byte>)
    ensures var p := InstrParse(s);
      p.Good? ==> p.used <= |s| && InstrOk(p.value) && EncodeInstr(p.value) == s[..p.used]
  {
    hide LE, FromLE, Pow256;
    var p := InstrParse(s);
    if p.Good? && p.value.RawPush? {
      var k := p.value.width;
      Split3(s, 1, 1 + k, p.used);
      assert s[..1] == [s[0]];
      if k > 0 {
        LEOfFromLE(s[1..1 + k]);
      } else {
        assert [s[0]] + s[1..1] == [s[0]];
      }
    }
  }

  lemma InstrComplete(v: RawInstr, rest: seq<Byte>)
    requires InstrOk(v)
    ensures InstrParse(EncodeInstr(v) + rest) == Good(v, |EncodeInstr(v)|, [])
  {
    hide LE, FromLE, Pow256;
    if v.RawPush? {
      var k, data := v.width, v.data;
      if k > 0 {
        var op, len := [PushOpcode(k)], LE(k, |data|);
        FromLEOfLE(k, |data|);
        assert EncodeInstr(v) + rest == op + len + (data + rest);
        Parts3(op, len, data + rest, 1 + k);
        Parts3(op + len, data, rest, 1 + k + |data|);
      } else {
        Parts3([|data|], data, rest, 1 + |data|);
      }
    }
  }

  lemma InstrCut(v: RawInstr, k: nat)
    requires InstrOk(v) && k < |EncodeInstr(v)|
    ensures var p := InstrParse(EncodeInstr(v)[..k]);
      p.Bad? && Starved(p.error) && p.events == []
  {
    hide LE, FromLE, Pow256;
    if v.RawPush? && v.width > 0 && k >= 1 + v.width {
      FromLEOfLE(v.width, |v.data|);
      Parts3([PushOpcode(v.width)], LE(v.width, |v.data|), v.data, k);
    }
  }

  // ---------------------------------------------------------------- decoder

  /** What the iterator yields. */
  datatype Instruction = PushBytes(bytes: Slice) | Op(code: Byte)

  /** Where the pushed bytes of an instruction written at offset `b` lie. */
  function InstrView(b: nat, i: RawInstr): Instruction {
    match i
    case RawPush(k, data) => PushBytes(Slice(b + 1 + k, data))
    case RawOp(code) => Op(code)
  }

  /** The complete decoding of a script. */
  function Decode(script: Slice): Run<RawInstr> {
    AllRun(InstrFormat(), script)
  }

  /** The reads of one instruction at `pos`. */
  lemma InstrReads(data: Slice, pos: nat)
    requires pos < |data.bytes|
    ensures var op, k, at, size := data.bytes[pos], WidthOf(data.bytes[pos]), pos + 1, |data.bytes|;
      InstrParse(After(data, pos).bytes) ==
      if op >= 0x4F then Good(RawOp(op), 1, [])
      else if at + k > size then Bad(UnexpectedEof(k, size - at), 1, [])
      else
        var n, from := if k == 0 then op else FromLE(data.bytes[at..at + k]), at + k;
        if n > size - from then Bad(UnexpectedEof(n, size - from), 1 + k, [])
        else Good(RawPush(k, data.bytes[from..from + n]), 1 + k + n, [])
  {
    hide After, FromLE;
    var s, k := After(data, pos).bytes, WidthOf(data.bytes[pos]);
    AfterPart(data, pos, 0, 1);
    assert s[0] == s[0..1][0];
    if data.bytes[pos] < 0x4F && pos + 1 + k <= |data.bytes| {
      AfterPart(data, pos, 1, 1 + k);
      var n := if k == 0 then data.bytes[pos] else FromLE(s[1..1 + k]);
      if n <= |data.bytes| - (pos + 1 + k) {
        AfterPart(data, pos, 1 + k, 1 + k + n);
      }
    }
  }

  class Instructions {
    const data: Slice
    var pos: nat
    var errored: bool

    ghost predicate Valid()
      reads this
    {
      pos <= |data.bytes|
    }

    ghost function Here(): Slice
      reads this
    {
      After(data, pos)
    }

    constructor (data: Slice)
      ensures Valid() && this.data == data && pos == 0 && !errored && Here() == data
    {
      AfterZero(data);
      this.data := data;
      pos := 0;
      errored := false;
    }

    /** One instruction; None after an error, and for ever after the end. */
    method Next() returns (r: Option<Result<Instruction>>)
      requires Valid()
      modifies this
      ensures Valid()
      ensures old(errored) || old(Here()).bytes == [] ==> r == None && pos == old(pos) && errored == old(errored)
      ensures !old(errored) && old(Here()).bytes != [] ==>
        var b, p := old(Here()).off, InstrParse(old(Here()).bytes);
        && pos == old(pos) + p.used && errored == p.Bad?
        && r == Some(match p case Good(v, _, _) => Ok(InstrView(b, v)) case Bad(e, _, _) => Err(e))
      ensures !old(errored) && old(pos) < |data.bytes| ==>
        var op, at, size := data.bytes[old(pos)], old(pos) + 1, |data.bytes|;
        var k := if op == 0x4C then 1 else if op == 0x4D then 2 else if op == 0x4E then 4 else 0;
        if op >= 0x4F then r == Some(Ok(Op(op))) && pos == at
        else if size - at < k then r == Some(Err(UnexpectedEof(k, size - at)))
        else
          var n, from := if k == 0 then op else FromLE(data.bytes[at..at + k]), at + k;
          if size - from < n then r == Some(Err(UnexpectedEof(n, size - from)))
          else pos == from + n && r == Some(Ok(PushBytes(Slice(data.off + from, data.bytes[from..pos]))))
    {
      hide After, InstrParse, FromLE;
      AfterPart(data, pos, 0, 0);
      if errored || pos >= |data.bytes| {
        return None;
      }
      InstrReads(data, pos);
      var op := data.bytes[pos];
      pos := pos + 1;
      if op >= 0x4F {
        return Some(Ok(Op(op)));
      }
      var pushLen := PushLen(op);
      if pushLen.Err? {
        errored := true;
        return Some(Err(pushLen.error));
      }
      var n, avail := pushLen.value, |data.bytes| - pos;
      if n > avail {
        errored := true;
        return Some(Err(UnexpectedEof(n, avail)));
      }
      var bytes := Slice(data.off + pos, data.bytes[pos..pos + n]);
      pos := pos + n;
      return Some(Ok(PushBytes(bytes)));
    }

    /** How many bytes the push with opcode `op` pushes: the opcode itself, or the length field that follows it. */
    method PushLen(op: Byte) returns (r: Result<nat>)
      requires Valid() && op < 0x4F
      modifies this`pos
      ensures Valid()
      ensures var k, at := WidthOf(op), old(pos);
        if at + k > |data.bytes| then pos == at && r == Err(UnexpectedEof(k, |data.bytes| - at))
        else pos == at + k && r == Ok(if k == 0 then op else FromLE(data.bytes[at..at + k]))
    {
      if op <= 0x4B {
        return Ok(op);
      }
      var width := if op == 0x4C then 1 else if op == 0x4D then 2 else 4;
      var avail := |data.bytes| - pos;
      if avail < width {
        return Err(UnexpectedEof(width, avail));
      }
      var n := FromLE(data.bytes[pos..pos + width]);
      pos := pos + width;
      return Ok(n);
    }
  }

  // ------------------------------------------------------------- classifier

  datatype ScriptType =
    | P2PKH(pubkeyHash: Slice)
    | P2SH(scriptHash: Slice)
    | P2WPKH(witnessKeyHash: Slice)
    | P2WSH(witnessScriptHash: Slice)
    | P2TR(xOnlyPubkey: Slice)
    | P2PK(pubkey: Slice)
    | OpReturn(payload: Slice)
    | Unknown

  function Part(script: Slice, i: nat, j: nat): Slice
    requires i <= j <= |script.bytes|
  {
    Slice(script.off + i, script.bytes[i..j])
  }

  function Classify(script: Slice): ScriptType {
    var b := script.bytes;
    var n := |b|;
    if n == 25 && b[..3] == [0x76, 0xA9, 0x14] && b[23..] == [0x88, 0xAC] then P2PKH(Part(script, 3, 23))
    else if n == 23 && b[..2] == [0xA9, 0x14] && b[22] == 0x87 then P2SH(Part(script, 2, 22))
    else if n == 22 && b[..2] == [0x00, 0x14] then P2WPKH(Part(script, 2, 22))
    else if n == 34 && b[..2] == [0x00, 0x20] then P2WSH(Part(script, 2, 34))
    else if n == 34 && b[..2] == [0x51, 0x20] then P2TR(Part(script, 2, 34))
    else if n == 35 && b[0] == 0x21 && b[34] == 0xAC then P2PK(Part(script, 1, 34))
    else if n == 67 && b[0] == 0x41 && b[66] == 0xAC then P2PK(Part(script, 1, 66))
    else if n >= 1 && b[0] == 0x6A then OpReturn(Part(script, 1, n))
    else Unknown
  }
}
