// The frame codec (utils/network/dataPackage.hpp): a packed 24-byte header in
// network order followed by the payload.

module DataPackages {
  import opened Bytes
  import opened Errors

  const HEADER := 24
  const UINT32_MODULUS := 0x1_0000_0000

  const TEXT := 1
  const HEART_BEAT := 4

  datatype DataPackage = DataPackage(
    length: int,
    kind: int,
    sequenceSize: int,
    sequence: int,
    requestID: int,
    data: seq<Byte>)
  {
    predicate FieldsInRange() {
      && InRange(UINT32, length)
      && InRange(UINT32, kind)
      && InRange(UINT32, sequenceSize)
      && InRange(UINT32, sequence)
      && InRange(INT64, requestID)
    }

    /** The length field holds the real size: what a receiver insists on. */
    predicate WellFormed() {
      FieldsInRange() && length == HEADER + |data|
    }

    /** The object as it lies in the memory of a little-endian machine. */
    function Memory(): (bs: seq<Byte>)
      ensures |bs| == HEADER + |data|
    {
      Layout(LittleEndian(length, 4), LittleEndian(kind, 4), LittleEndian(sequenceSize, 4),
             LittleEndian(sequence, 4), LittleEndian(requestID, 8), data)
    }

    /** The documented format: every header field in network order, then the payload. */
    function Wire(): (bs: seq<Byte>)
      ensures |bs| == HEADER + |data|
    {
      Layout(BigEndian(length, 4), BigEndian(kind, 4), BigEndian(sequenceSize, 4),
             BigEndian(sequence, 4), BigEndian(requestID, 8), data)
    }
  }

  /** The packed struct: five header fields and the payload, with no padding. */
  function Layout(length: seq<Byte>, kind: seq<Byte>, sequenceSize: seq<Byte>,
                  sequence: seq<Byte>, requestID: seq<Byte>, data: seq<Byte>): (bs: seq<Byte>)
    requires |length| == |kind| == |sequenceSize| == |sequence| == 4 && |requestID| == 8
    ensures |bs| == HEADER + |data|
  {
    length + kind + sequenceSize + sequence + requestID + data
  }

  lemma LayoutFields(a: seq<Byte>, b: seq<Byte>, c: seq<Byte>, d: seq<Byte>, e: seq<Byte>, f: seq<Byte>)
    requires |a| == |b| == |c| == |d| == 4 && |e| == 8
    ensures var bs := Layout(a, b, c, d, e, f);
            && bs[..4] == a && bs[4..8] == b && bs[8..12] == c
            && bs[12..16] == d && bs[16..24] == e && bs[24..] == f
  {
    var bs := Layout(a, b, c, d, e, f);
    assert bs == (a + b + c + d + e) + f;
    assert bs[..24] == a + b + c + d + e;
    assert bs[..16] == a + b + c + d;
    assert bs[..8] == a + b;
  }

  lemma LayoutOfFields(s: seq<Byte>)
    requires |s| >= HEADER
    ensures Layout(s[..4], s[4..8], s[8..12], s[12..16], s[16..24], s[24..]) == s
  {
    assert s[..4] + s[4..8] == s[..8];
    assert s[..8] + s[8..12] == s[..12];
    assert s[..12] + s[12..16] == s[..16];
    assert s[..16] + s[16..24] == s[..24];
    assert s[..24] + s[24..] == s;
  }

  /** The length is stored in 32 bits; a payload of 2^32 - 24 bytes or more truncates it. */
  function MakePackage(data: seq<Byte>, kind: int, sequenceSize: int, sequence: int, requestID: int): DataPackage {
    DataPackage(Wrap(UINT32, HEADER + |data|), kind, sequenceSize, sequence, requestID, data)
  }

  function FromMemory(bs: seq<Byte>): DataPackage
    requires |bs| >= HEADER
  {
    DataPackage(
      FromLittleEndian(bs[..4]),
      FromLittleEndian(bs[4..8]),
      FromLittleEndian(bs[8..12]),
      FromLittleEndian(bs[12..16]),
      Wrap(INT64, FromLittleEndian(bs[16..24])),
      bs[24..])
  }

  /** The `n` bytes at `offset` in the opposite order. */
  function SwapAt(bs: seq<Byte>, offset: nat, n: nat): (r: seq<Byte>)
    requires offset + n <= |bs|
    ensures |r| == |bs|
  {
    seq(|bs|, k requires 0 <= k < |bs| => if offset <= k < offset + n then bs[2 * offset + n - 1 - k] else bs[k])
  }

  function SwapFields(bs: seq<Byte>): (r: seq<Byte>)
    requires |bs| >= HEADER
    ensures |r| == |bs|
  {
    SwapAt(SwapAt(SwapAt(SwapAt(SwapAt(bs, 0, 4), 4, 4), 8, 4), 12, 4), 16, 8)
  }

  lemma SwapAtSlices(bs: seq<Byte>, offset: nat, n: nat)
    requires offset + n <= |bs|
    ensures SwapAt(bs, offset, n) == bs[..offset] + Reverse(bs[offset..offset + n]) + bs[offset + n..]
  {
    var r := SwapAt(bs, offset, n);
    assert r[..offset] == bs[..offset];
    var field, swapped := bs[offset..offset + n], r[offset..offset + n];
    forall k | 0 <= k < n
      ensures swapped[k] == Reverse(field)[k]
    {
      assert field[n - 1 - k] == bs[offset + n - 1 - k];
    }
    assert swapped == Reverse(field);
    assert r[offset + n..] == bs[offset + n..];
    assert r == r[..offset] + r[offset..offset + n] + r[offset + n..];
  }

  lemma SwapFieldsByte(s: seq<Byte>, k: nat)
    requires HEADER <= |s| && k < |s|
    ensures SwapFields(s)[k] ==
            s[if k < 4 then 3 - k else if k < 8 then 11 - k else if k < 12 then 19 - k
              else if k < 16 then 27 - k else if k < 24 then 39 - k else k]
  {
  }

  lemma SwapFieldsSlice(s: seq<Byte>, lo: nat, hi: nat)
    requires HEADER <= |s|
    requires (lo, hi) in {(0, 4), (4, 8), (8, 12), (12, 16), (16, 24)}
    ensures SwapFields(s)[lo..hi] == Reverse(s[lo..hi])
  {
    forall k: nat | lo <= k < hi
      ensures SwapFields(s)[k] == s[lo + hi - 1 - k]
    {
      SwapFieldsByte(s, k);
    }
  }

  /** Swapping the fields of a layout lays out the reversed fields. */
  lemma SwapFieldsLayout(s: seq<Byte>)
    requires HEADER <= |s|
    ensures SwapFields(s) ==
            Layout(Reverse(s[..4]), Reverse(s[4..8]), Reverse(s[8..12]), Reverse(s[12..16]), Reverse(s[16..24]),
                s[24..])
  {
    SwapFieldsSlice(s, 0, 4);
    SwapFieldsSlice(s, 4, 8);
    SwapFieldsSlice(s, 8, 12);
    SwapFieldsSlice(s, 12, 16);
    SwapFieldsSlice(s, 16, 24);
    forall k: nat | HEADER <= k < |s|
      ensures SwapFields(s)[k] == s[k]
    {
      SwapFieldsByte(s, k);
    }
    assert SwapFields(s)[24..] == s[24..];
    LayoutOfFields(SwapFields(s));
  }

  /** The string `p` is sent as: its first `length` bytes of memory, fields swapped. */
  function Encode(p: DataPackage): (bs: seq<Byte>)
    requires HEADER <= p.length <= HEADER + |p.data|
    ensures |bs| == p.length
  {
    SwapFields(p.Memory()[..p.length])
  }

  /** No string at all for a length below the header: the fields swapped then lie outside of it. */
  function Serialised(p: DataPackage): Option<seq<Byte>>
    requires p.length <= HEADER + |p.data|
  {
    if p.length < HEADER then None else Some(Encode(p))
  }

  /** What a received string means: the fields read in network order. */
  function Decode(s: seq<Byte>): Result<DataPackage> {
    if |s| < HEADER then Err(DataTooSmall)
    else if FromBigEndian(s[..4]) != |s| then Err(InvalidData)
    else Ok(DataPackage(
        FromBigEndian(s[..4]),
        FromBigEndian(s[4..8]),
        FromBigEndian(s[8..12]),
        FromBigEndian(s[12..16]),
        Wrap(INT64, FromBigEndian(s[16..24])),
        s[24..]))
  }

  // ------------------------------------------------------------------------
  // The in-place conversions
  // ------------------------------------------------------------------------

  /** `field = swapEndianness(field)` on a field that lies inside a buffer. */
  method SwapField(a: array<Byte>, t: IntType, offset: nat)
    requires offset + t.size <= a.Length
    modifies a
    ensures a[..] == SwapAt(old(a[..]), offset, t.size)
  {
    SwapAtSlices(a[..], offset, t.size);
    var was := a[offset..offset + t.size];
    LoadedBytes(t, was);
    var swapped := SwapEndianness(t, Wrap(t, FromLittleEndian(was)));
    Store(a, LittleEndian(swapped, t.size), offset);
  }

  method Store(a: array<Byte>, bytes: seq<Byte>, offset: nat)
    requires offset + |bytes| <= a.Length
    modifies a
    ensures a[..] == old(a[..offset]) + bytes + old(a[offset + |bytes|..])
  {
    for i := 0 to |bytes|
      invariant a[..offset + i] == old(a[..offset]) + bytes[..i]
      invariant a[offset + i..] == old(a[offset + i..])
    {
      a[offset + i] := bytes[i];
      assert a[..offset + i + 1] == a[..offset + i] + [bytes[i]];
    }
    assert a[..] == a[..offset + |bytes|] + a[offset + |bytes|..];
  }

  lemma LoadedBytes(t: IntType, bs: seq<Byte>)
    requires |bs| == t.size
    ensures InRange(t, Wrap(t, FromLittleEndian(bs)))
    ensures LittleEndian(Wrap(t, FromLittleEndian(bs)), t.size) == bs
  {
    ReverseTwice(bs);
    ReversedValue(bs);
    BytesRoundTrip(t, Reverse(bs));
  }

  method SwapHeader(a: array<Byte>)
    requires a.Length >= HEADER
    modifies a
    ensures a[..] == SwapFields(old(a[..]))
  {
    SwapField(a, UINT32, 0);
    SwapField(a, UINT32, 4);
    SwapField(a, UINT32, 8);
    SwapField(a, UINT32, 12);
    SwapField(a, INT64, 16);
  }

  method PackageToString(p: DataPackage) returns (strdata: Option<array<Byte>>)
    requires 0 <= p.length <= HEADER + |p.data|
    ensures strdata.Some? <==> Serialised(p).Some?
    ensures strdata.Some? ==> fresh(strdata.value) && strdata.value[..] == Serialised(p).value
    ensures p.WellFormed() ==> strdata.Some? && strdata.value[..] == p.Wire()
  {
    var image := p.Memory();
    var copy := new Byte[p.length](i requires 0 <= i < p.length => image[i]);
    assert copy[..] == image[..p.length];
    if copy.Length < HEADER {
      return None;
    }
    SwapHeader(copy);
    if p.WellFormed() {
      EncodeIsWire(p);
    }
    strdata := Some(copy);
  }

  method StringToPackage(data: seq<Byte>) returns (r: Result<DataPackage>)
    ensures r == Decode(data)
  {
    if |data| < HEADER {
      return Err(DataTooSmall);
    }
    var size := FromLittleEndian(data[..4]);
    size := SwapEndianness(UINT32, size);
    SwappedPrefix(data[..4]);
    if size != |data| || size < HEADER {
      return Err(InvalidData);
    }
    var mem := new Byte[size](i requires 0 <= i < |data| => data[i]);
    assert mem[..] == data;
    SwapHeader(mem);
    SwapFieldsDecodes(data);
    r := Ok(FromMemory(mem[..]));
  }

  lemma SwapFieldsDecodes(s: seq<Byte>)
    requires |s| >= HEADER && FromBigEndian(s[..4]) == |s|
    ensures Decode(s) == Ok(FromMemory(SwapFields(s)))
  {
    SwapFieldsLayout(s);
    LayoutFields(Reverse(s[..4]), Reverse(s[4..8]), Reverse(s[8..12]), Reverse(s[12..16]), Reverse(s[16..24]), s[24..]);
    ReversedRead(s[..4]);
    ReversedRead(s[4..8]);
    ReversedRead(s[8..12]);
    ReversedRead(s[12..16]);
    ReversedRead(s[16..24]);
  }

  lemma ReversedRead(bs: seq<Byte>)
    ensures FromLittleEndian(Reverse(bs)) == FromBigEndian(bs)
  {
    ReverseTwice(bs);
    ReversedValue(Reverse(bs));
  }

  /** On a well-formed package the in-place conversion writes the documented format. */
  lemma EncodeIsWire(p: DataPackage)
    requires p.WellFormed()
    ensures Encode(p) == p.Wire()
  {
    assert p.Memory()[..p.length] == p.Memory();
    LayoutFields(LittleEndian(p.length, 4), LittleEndian(p.kind, 4), LittleEndian(p.sequenceSize, 4),
                 LittleEndian(p.sequence, 4), LittleEndian(p.requestID, 8), p.data);
    SwapFieldsLayout(p.Memory());
  }

  // ------------------------------------------------------------------------
  // The codec is a bijection
  // ------------------------------------------------------------------------

  /** Every field and the payload come back, for all values the fields can hold. */
  lemma DecodeEncode(p: DataPackage)
    requires p.WellFormed()
    ensures Decode(Encode(p)) == Ok(p)
  {
    EncodeIsWire(p);
    LayoutFields(BigEndian(p.length, 4), BigEndian(p.kind, 4), BigEndian(p.sequenceSize, 4),
                 BigEndian(p.sequence, 4), BigEndian(p.requestID, 8), p.data);
    Unsigned32(p.length);
    Unsigned32(p.kind);
    Unsigned32(p.sequenceSize);
    Unsigned32(p.sequence);
    BigEndianRoundTrip(INT64, p.requestID);
  }

  lemma Unsigned32(v: int)
    requires InRange(UINT32, v)
    ensures FromBigEndian(BigEndian(v, 4)) == v
  {
    BigEndianRoundTrip(UINT32, v);
    BigEndianBound(BigEndian(v, 4));
    WrapSmall(UINT32, FromBigEndian(BigEndian(v, 4)));
  }

  /**
   * A string is accepted exactly when it has a whole header and announces its own
   * size, and then it is the encoding of the package it was decoded to.
   */
  lemma EncodeDecode(s: seq<Byte>)
    ensures Decode(s).Ok? <==> |s| >= HEADER && FromBigEndian(s[..4]) == |s|
    ensures Decode(s).Ok? ==> Decode(s).value.WellFormed() && Encode(Decode(s).value) == s
  {
    if Decode(s).Ok? {
      var p := Decode(s).value;
      Field32(s[..4]);
      Field32(s[4..8]);
      Field32(s[8..12]);
      Field32(s[12..16]);
      BytesRoundTrip(INT64, s[16..24]);
      EncodeIsWire(p);
      LayoutOfFields(s);
    }
  }

  lemma Field32(bs: seq<Byte>)
    requires |bs| == 4
    ensures InRange(UINT32, FromBigEndian(bs)) && BigEndian(FromBigEndian(bs), 4) == bs
  {
    BigEndianBound(bs);
    WrapSmall(UINT32, FromBigEndian(bs));
    BytesRoundTrip(UINT32, bs);
  }

  /** Two well-formed packages with the same encoding are the same package. */
  lemma EncodeInjective(p: DataPackage, q: DataPackage)
    requires p.WellFormed() && q.WellFormed() && Encode(p) == Encode(q)
    ensures p == q
  {
    DecodeEncode(p);
    DecodeEncode(q);
  }

  /** Whatever the length field holds, if a string is sent the receiver gets the payload cut to fit it. */
  lemma DecodeTruncated(p: DataPackage)
    requires p.FieldsInRange() && p.length <= HEADER + |p.data|
    ensures Serialised(p).Some? <==> p.length >= HEADER
    ensures Serialised(p).Some? ==>
              Decode(Serialised(p).value) == Ok(p.(data := p.data[..p.length - HEADER]))
  {
    if p.length >= HEADER {
      EncodeTruncated(p);
      DecodeEncode(p.(data := p.data[..p.length - HEADER]));
    }
  }

  lemma EncodeTruncated(p: DataPackage)
    requires HEADER <= p.length <= HEADER + |p.data|
    ensures Encode(p) == Encode(p.(data := p.data[..p.length - HEADER]))
  {
    var q := p.(data := p.data[..p.length - HEADER]);
    TruncatedMemory(p, p.length);
    assert q.Memory() == q.Memory()[..q.length];
  }

  /** The 32-bit number at `offset`, most significant byte first. */
  function At(s: seq<Byte>, offset: nat): nat
    requires offset + 4 <= |s|
  {
    var a: int, b: int, c: int, d: int := s[offset], s[offset + 1], s[offset + 2], s[offset + 3];
    0x100_0000 * a + 0x1_0000 * b + 0x100 * c + d
  }

  lemma FourBytes(s: seq<Byte>, offset: nat)
    requires offset + 4 <= |s|
    ensures FromBigEndian(s[offset..offset + 4]) == At(s, offset)
  {
    var bs := s[offset..offset + 4];
    assert bs[..3][..2] == bs[..2] && bs[..2][..1] == bs[..1] && bs[..1][..0] == [];
    var a: int, b: int, c: int := bs[0], bs[1], bs[2];
    assert FromBigEndian(bs[..1]) == a;
    assert FromBigEndian(bs[..2]) == 0x100 * a + b;
    assert FromBigEndian(bs[..3]) == 0x1_0000 * a + 0x100 * b + c;
  }

  lemma {:induction false} JoinedBytes(a: seq<Byte>, b: seq<Byte>)
    ensures FromBigEndian(a + b) == FromBigEndian(a) * Pow256(|b|) + FromBigEndian(b)
    decreases |b|
  {
    if b == [] {
      assert a + b == a;
    } else {
      var init, last := b[..|b| - 1], b[|b| - 1];
      JoinedBytes(a, init);
      assert (a + b)[..|a + b| - 1] == a + init;
      assert 256 * (FromBigEndian(a) * Pow256(|init|)) == FromBigEndian(a) * Pow256(|b|);
    }
  }

  lemma EightBytes(s: seq<Byte>, offset: nat)
    requires offset + 8 <= |s|
    ensures FromBigEndian(s[offset..offset + 8]) == At(s, offset) * UINT32_MODULUS + At(s, offset + 4)
  {
    FourBytes(s, offset);
    FourBytes(s, offset + 4);
    assert s[offset..offset + 8] == s[offset..offset + 4] + s[offset + 4..offset + 8];
    assert Pow256(4) == UINT32_MODULUS;
    JoinedBytes(s[offset..offset + 4], s[offset + 4..offset + 8]);
  }

  /** Byte by byte: which header field lies where on the wire, a negative request id as its two's complement. */
  lemma FieldsOnWire(p: DataPackage)
    requires p.WellFormed()
    ensures var s := Encode(p);
            && At(s, 0) == p.length && At(s, 4) == p.kind && At(s, 8) == p.sequenceSize && At(s, 12) == p.sequence
            && At(s, 16) * UINT32_MODULUS + At(s, 20) ==
               (if p.requestID < 0 then p.requestID + UINT32_MODULUS * UINT32_MODULUS else p.requestID)
            && s[24..] == p.data
  {
    DecodeEncode(p);
    WordsDecoded(Encode(p));
    RequestIDDecoded(Encode(p));
  }

  lemma WordsDecoded(s: seq<Byte>)
    requires Decode(s).Ok?
    ensures var p := Decode(s).value;
            && At(s, 0) == p.length && At(s, 4) == p.kind && At(s, 8) == p.sequenceSize && At(s, 12) == p.sequence
            && s[24..] == p.data
  {
    assert s[..4] == s[0..4];
    FourBytes(s, 0);
    FourBytes(s, 4);
    FourBytes(s, 8);
    FourBytes(s, 12);
  }

  lemma RequestIDDecoded(s: seq<Byte>)
    requires Decode(s).Ok?
    ensures var id := Decode(s).value.requestID;
            At(s, 16) * UINT32_MODULUS + At(s, 20) ==
            if id < 0 then id + UINT32_MODULUS * UINT32_MODULUS else id
  {
    EightBytes(s, 16);
    TwosComplement(s[16..24]);
  }

  lemma TwosComplement(bs: seq<Byte>)
    requires |bs| == 8
    ensures var v := Wrap(INT64, FromBigEndian(bs));
            FromBigEndian(bs) == if v < 0 then v + UINT32_MODULUS * UINT32_MODULUS else v
  {
    BigEndianBound(bs);
    assert Pow256(4) == UINT32_MODULUS;
    assert Pow256(8) == UINT32_MODULUS * UINT32_MODULUS;
    SmallModulus(FromBigEndian(bs), Pow256(8));
  }

  /** What a receiver makes of the payload, if it gets a string and takes it. */
  function Received(p: DataPackage): Option<seq<Byte>>
    requires p.length <= HEADER + |p.data|
  {
    match Serialised(p)
    case None => None
    case Some(s) => if Decode(s).Ok? then Some(Decode(s).value.data) else None
  }

  /** A payload survives the trip exactly when its size and the header fit in 32 bits, and then so does the rest. */
  lemma PayloadSurvives(data: seq<Byte>, kind: int, sequenceSize: int, sequence: int, requestID: int)
    requires InRange(UINT32, kind) && InRange(UINT32, sequenceSize) && InRange(UINT32, sequence)
    requires InRange(INT64, requestID)
    ensures var p := MakePackage(data, kind, sequenceSize, sequence, requestID);
            p.length <= HEADER + |data| && (Received(p) == Some(data) <==> HEADER + |data| < UINT32_MODULUS)
    ensures var p := MakePackage(data, kind, sequenceSize, sequence, requestID);
            HEADER + |data| < UINT32_MODULUS ==>
              && Serialised(p).Some?
              && Decode(Serialised(p).value)
                 == Ok(DataPackage(HEADER + |data|, kind, sequenceSize, sequence, requestID, data))
  {
    var p := MakePackage(data, kind, sequenceSize, sequence, requestID);
    TruncatedLength(HEADER + |data|);
    DecodeTruncated(p);
    if p.length >= HEADER {
      assert Received(p) == Some(data[..p.length - HEADER]);
      assert HEADER + |data| < UINT32_MODULUS ==> data[..p.length - HEADER] == data;
    }
  }

  lemma TruncatedLength(n: nat)
    ensures 0 <= Wrap(UINT32, n) <= n && InRange(UINT32, Wrap(UINT32, n))
    ensures Wrap(UINT32, n) == n <==> n < UINT32_MODULUS
  {
    assert Pow256(4) == UINT32_MODULUS;
    QuotientBound(n, UINT32_MODULUS);
  }

  /** The first bytes of an object are those of the same header with a shorter payload. */
  lemma TruncatedMemory(p: DataPackage, n: nat)
    requires HEADER <= n <= HEADER + |p.data|
    ensures p.Memory()[..n] == p.(data := p.data[..n - HEADER]).Memory()
  {
    var header := Layout(LittleEndian(p.length, 4), LittleEndian(p.kind, 4), LittleEndian(p.sequenceSize, 4),
                         LittleEndian(p.sequence, 4), LittleEndian(p.requestID, 8), []);
    assert p.Memory() == header + p.data;
    assert p.(data := p.data[..n - HEADER]).Memory() == header + p.data[..n - HEADER];
  }

  lemma QuotientBound(v: nat, m: nat)
    requires m > 0
    ensures 0 <= v % m <= v
  {
    if v < m {
      SmallModulus(v, m);
    }
  }
}
