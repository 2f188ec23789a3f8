/** The hot-lane binary frame: the documented layout as an encoder, and the decoder's cursor
    walk proved to be its exact inverse. */
module HotFrames {
  import opened Options

  type Byte = b: int | 0 <= b < 256

  type U32 = n: int | 0 <= n < 0x1_0000_0000

  datatype Frame = Frame(v: Byte, svcId: Byte, opcode: Byte, flags: Byte, seqNo: Option<U32>, payload: seq<Byte>)

  datatype Error = TooShort | UnsupportedVersion | MissingSeq

  datatype Result = Ok(frame: Frame) | Err(error: Error)

  const VERSION: Byte := 1

  /** Bit 0 of the flags: a sequence number follows the header. */
  predicate SeqPresent(flags: Byte) {
    flags % 2 == 1
  }

  // ---- the documented layout ----

  predicate WellFormed(f: Frame) {
    f.v == VERSION && (f.seqNo.Some? <==> SeqPresent(f.flags))
  }

  function LittleEndian(n: U32): seq<Byte> {
    var n1: nat := n / 0x100;
    var n2: nat := n1 / 0x100;
    [n % 0x100, n1 % 0x100, n2 % 0x100, n2 / 0x100]
  }

  function Encode(f: Frame): seq<Byte> {
    [f.v, f.svcId, f.opcode, f.flags] + (if f.seqNo.Some? then LittleEndian(f.seqNo.value) else []) + f.payload
  }

  /** What is wrong with some bytes, in the order in which it is looked for. */
  function Defect(bytes: seq<Byte>): Option<Error> {
    if |bytes| < 4 then Some(TooShort)
    else if bytes[0] != VERSION then Some(UnsupportedVersion)
    else if SeqPresent(bytes[3]) && |bytes| < 8 then Some(MissingSeq)
    else None
  }

  // ---- the cursor ----

  function Combine(low: Byte, high: nat): nat {
    low + 0x100 * high
  }

  function FromLittleEndian(b: seq<Byte>): U32
    requires |b| == 4
  {
    Combine(b[0], Combine(b[1], Combine(b[2], b[3])))
  }

  lemma CombineSplits(low: Byte, high: nat)
    ensures Combine(low, high) % 0x100 == low && Combine(low, high) / 0x100 == high
  {
  }

  lemma LittleEndianBack(b: seq<Byte>)
    requires |b| == 4
    ensures LittleEndian(FromLittleEndian(b)) == b
  {
    CombineSplits(b[2], b[3]);
    CombineSplits(b[1], Combine(b[2], b[3]));
    CombineSplits(b[0], Combine(b[1], Combine(b[2], b[3])));
  }

  lemma LittleEndianForth(n: U32)
    ensures FromLittleEndian(LittleEndian(n)) == n
  {
  }

  lemma LittleEndianInjective(n: U32, m: U32)
    requires LittleEndian(n) == LittleEndian(m)
    ensures n == m
  {
    hide LittleEndian, FromLittleEndian;
    LittleEndianForth(n);
    LittleEndianForth(m);
  }

  /** The layout is unambiguous. */
  lemma EncodeInjective(f: Frame, g: Frame)
    requires WellFormed(f) && WellFormed(g) && Encode(f) == Encode(g)
    ensures f == g
  {
    var x, y := Encode(f), Encode(g);
    assert x[0] == y[0] && x[1] == y[1] && x[2] == y[2] && x[3] == y[3];
    if f.seqNo.Some? {
      assert x[4..8] == LittleEndian(f.seqNo.value) && y[4..8] == LittleEndian(g.seqNo.value);
      LittleEndianInjective(f.seqNo.value, g.seqNo.value);
      assert x[8..] == f.payload && y[8..] == g.payload;
    } else {
      assert x[4..] == f.payload && y[4..] == g.payload;
    }
  }

  /** The layout byte by byte: version, service, opcode, flags; then, if bit 0 of the flags is
      set, four bytes of sequence number, the lowest first; then the payload. */
  lemma LayoutByIndex(f: Frame)
    requires WellFormed(f)
    ensures var x := Encode(f);
            && |x| == |f.payload| + (if f.flags % 2 == 1 then 8 else 4)
            && x[0] == 1 && x[1] == f.svcId && x[2] == f.opcode && x[3] == f.flags
            && (f.flags % 2 == 1 ==>
                  && f.seqNo.Some? && f.seqNo.value
                       == x[4] + 0x100 * (x[5] as int) + 0x1_0000 * (x[6] as int) + 0x100_0000 * (x[7] as int)
                  && x[8..] == f.payload)
            && (f.flags % 2 == 0 ==> f.seqNo == None && x[4..] == f.payload)
  {
    if f.seqNo.Some? {
      var n := f.seqNo.value;
      LittleEndianForth(n);
      assert Encode(f)[4..8] == LittleEndian(n);
    }
  }

  /** An encoded well-formed frame has no defect. */
  lemma EncodedHasNoDefect(f: Frame)
    requires WellFormed(f)
    ensures Defect(Encode(f)) == None
  {
  }

  /** The bytes accepted are exactly the encodings of well-formed frames. */
  lemma AcceptedIffEncoded(bytes: seq<Byte>)
    ensures Defect(bytes) == None <==> exists f :: WellFormed(f) && Encode(f) == bytes
  {
    if Defect(bytes) == None {
      var withSeq := SeqPresent(bytes[3]);
      var seqNo: Option<U32> := if withSeq then Some(FromLittleEndian(bytes[4..8])) else None;
      var f := Frame(bytes[0], bytes[1], bytes[2], bytes[3], seqNo, if withSeq then bytes[8..] else bytes[4..]);
      if withSeq { LittleEndianBack(bytes[4..8]); }
      assert WellFormed(f) && Encode(f) == bytes;
    }
  }

  /** Every byte string is either the encoding of the well-formed frame returned, or refused
      with its first defect; what was encoded is always returned. */
  method Decode(bytes: seq<Byte>) returns (r: Result)
    ensures r.Ok? ==> Defect(bytes) == None && WellFormed(r.frame) && Encode(r.frame) == bytes
    ensures r.Err? ==> Defect(bytes) == Some(r.error)
    ensures forall f :: WellFormed(f) && Encode(f) == bytes ==> r == Ok(f)
  {
    forall f | WellFormed(f) && Encode(f) == bytes ensures Defect(bytes) == None {
      EncodedHasNoDefect(f);
    }
    var buf := bytes;
    if |buf| < 4 { return Err(TooShort); }
    var v := buf[0];
    buf := buf[1..];
    if v != 1 { return Err(UnsupportedVersion); }
    var svcId := buf[0];
    buf := buf[1..];
    var opcode := buf[0];
    buf := buf[1..];
    var flags := buf[0];
    buf := buf[1..];
    assert bytes == [v, svcId, opcode, flags] + buf;
    var seqNo: Option<U32> := None;
    if flags % 2 != 0 {
      if |buf| < 4 { return Err(MissingSeq); }
      seqNo := Some(FromLittleEndian(buf[..4]));
      LittleEndianBack(buf[..4]);
      buf := buf[4..];
    }
    r := Ok(Frame(v, svcId, opcode, flags, seqNo, buf));
    assert Encode(r.frame) == bytes;
    forall f | WellFormed(f) && Encode(f) == bytes ensures f == r.frame {
      EncodeInjective(f, r.frame);
    }
  }
}
