/** ECDSA signatures: DER `SEQUENCE { INTEGER r, INTEGER s }` to and from the raw 64-byte r || s of JOSE,
    through two's-complement big integers. */
module SignatureDer {
  import opened Basics

  type Byte = b: int | 0 <= b < 256

  /** A JVM byte is signed: `toInt()` sign-extends. */
  function Signed(b: Byte): int {
    if b < 128 then b else b - 256
  }

  // ------------------------------------------------------------ big integers

  /** `BigInteger.toByteArray()`: big-endian two's complement. */
  function ToBytes(v: int): (bs: seq<Byte>)
    ensures |bs| >= 1
    decreases if v < 0 then -v else v
  {
    if -128 <= v < 128 then [v % 256] else ToBytes(v / 256) + [v % 256]
  }

  /** `BigInteger(bytes)`: a signed reading. */
  function FromBytes(bs: seq<Byte>): int
    requires bs != []
  {
    if |bs| == 1 then Signed(bs[0]) else FromBytes(bs[..|bs| - 1]) * 256 + bs[|bs| - 1]
  }

  /** `BigInteger(1, bytes)`: an unsigned reading. */
  function FromUnsigned(bs: seq<Byte>): nat {
    if bs == [] then 0 else FromUnsigned(bs[..|bs| - 1]) * 256 + bs[|bs| - 1]
  }

  /** The `n`-byte big-endian form of `v` modulo 256^n. */
  function BigEndian(v: int, n: nat): (bs: seq<Byte>)
    ensures |bs| == n
    decreases n
  {
    if n == 0 then [] else BigEndian(v / 256, n - 1) + [v % 256]
  }

  function Power256(n: nat): (p: nat)
    ensures p >= 1
  {
    if n == 0 then 1 else 256 * Power256(n - 1)
  }

  /** DER content octets: at least one, and the first nine bits are not all equal (X.690 section 8.3.2). */
  predicate Minimal(bs: seq<Byte>) {
    bs != [] && (|bs| == 1 || !((bs[0] == 0 && bs[1] < 128) || (bs[0] == 255 && bs[1] >= 128)))
  }

  lemma {:induction false} FromToBytes(v: int)
    ensures FromBytes(ToBytes(v)) == v
    decreases if v < 0 then -v else v
  {
    if !(-128 <= v < 128) {
      FromToBytes(v / 256);
      var bs := ToBytes(v);
      assert bs == ToBytes(v / 256) + [v % 256];
      assert bs[..|bs| - 1] == ToBytes(v / 256) && bs[|bs| - 1] == v % 256;
      hide ToBytes;
      assert FromBytes(bs) == FromBytes(bs[..|bs| - 1]) * 256 + bs[|bs| - 1];
      hide FromBytes;
    }
  }

  lemma {:induction false} ToBytesMinimal(v: int)
    ensures Minimal(ToBytes(v))
    ensures ToBytes(v)[0] < 128 <==> v >= 0
    decreases if v < 0 then -v else v
  {
    if !(-128 <= v < 128) {
      ToBytesMinimal(v / 256);
      if -128 <= v / 256 < 128 {
        assert ToBytes(v) == [(v / 256) % 256, v % 256];
      } else {
        assert ToBytes(v)[..2] == ToBytes(v / 256)[..2];
      }
    }
  }

  /** A signed reading outside the one-byte range is what a minimal reading of two or more bytes gives. */
  lemma {:induction false} FromBytesRange(bs: seq<Byte>)
    requires |bs| >= 2 && Minimal(bs)
    ensures !(-128 <= FromBytes(bs) < 128)
  {
    var init := bs[..|bs| - 1];
    if |bs| > 2 {
      assert init[0] == bs[0] && init[1] == bs[1];
      FromBytesRange(init);
    } else {
      assert FromBytes(init) == Signed(bs[0]);
    }
  }

  lemma {:induction false} ToFromBytes(bs: seq<Byte>)
    requires bs != []
    ensures ToBytes(FromBytes(bs)) == bs <==> Minimal(bs)
  {
    ToBytesMinimal(FromBytes(bs));
    if Minimal(bs) && |bs| > 1 {
      var init, last := bs[..|bs| - 1], bs[|bs| - 1];
      FromBytesRange(bs);
      assert FromBytes(bs) / 256 == FromBytes(init) && FromBytes(bs) % 256 == last;
      assert Minimal(init);
      ToFromBytes(init);
      assert init + [last] == bs;
    }
  }

  lemma {:induction false} UnsignedRoundTrip(bs: seq<Byte>)
    ensures BigEndian(FromUnsigned(bs), |bs|) == bs
    ensures FromUnsigned(bs) < Power256(|bs|)
  {
    if bs != [] {
      UnsignedRoundTrip(bs[..|bs| - 1]);
      assert bs == bs[..|bs| - 1] + [bs[|bs| - 1]];
    }
  }

  lemma {:induction false} BigEndianValue(v: nat, n: nat)
    requires v < Power256(n)
    ensures FromUnsigned(BigEndian(v, n)) == v
  {
    if n > 0 {
      BigEndianValue(v / 256, n - 1);
      assert BigEndian(v, n)[..n - 1] == BigEndian(v / 256, n - 1);
    }
  }

  /** `v` fits in `n` two's-complement bytes exactly when -256^n / 2 <= v < 256^n / 2. */
  lemma {:induction false} SizeOf(v: int, n: nat)
    requires n >= 1
    ensures |ToBytes(v)| <= n <==> -128 * Power256(n - 1) <= v < 128 * Power256(n - 1)
    decreases n
  {
    if n == 1 {
    } else if -128 <= v < 128 {
    } else {
      SizeOf(v / 256, n - 1);
    }
  }

  /** The low bytes of a two's-complement form are the big-endian form modulo 256^n. */
  lemma {:induction false} LowBytes(v: int, n: nat)
    requires n <= |ToBytes(v)|
    ensures BigEndian(v, n) == ToBytes(v)[|ToBytes(v)| - n..]
    decreases n
  {
    if n > 0 {
      var bs := ToBytes(v);
      if -128 <= v < 128 {
        assert BigEndian(v / 256, 0) == [];
      } else {
        LowBytes(v / 256, n - 1);
        assert bs[|bs| - n..] == ToBytes(v / 256)[|bs| - n..] + [v % 256];
      }
    }
  }

  function Padding(fill: Byte, n: nat): seq<Byte> {
    seq(n, i => fill)
  }

  /** A shorter form is sign-extended. */
  lemma {:induction false} SignExtends(v: int, n: nat)
    requires |ToBytes(v)| <= n
    ensures BigEndian(v, n) == Padding(if v >= 0 then 0 else 255, n - |ToBytes(v)|) + ToBytes(v)
    decreases n
  {
    var bs, fill: Byte := ToBytes(v), if v >= 0 then 0 else 255;
    if -128 <= v < 128 {
      if n == 1 {
        assert BigEndian(v / 256, 0) == [];
      } else {
        assert v / 256 == if v >= 0 then 0 else -1;
        SignExtends(v / 256, n - 1);
        assert ToBytes(v / 256) == [fill];
        assert Padding(fill, n - 2) + [fill] == Padding(fill, n - 1);
      }
    } else {
      SignExtends(v / 256, n - 1);
      assert Padding(fill, n - |bs|) + bs == Padding(fill, n - |bs|) + ToBytes(v / 256) + [v % 256];
    }
  }

  // --------------------------------------------------------------- to32Bytes

  /** `System.arraycopy` of a tail or a whole of `raw` into a fresh 32-byte array, by the length of `raw`. */
  function Fit32(raw: seq<Byte>): (out: seq<Byte>)
    ensures |out| == 32
  {
    if |raw| >= 32 then raw[|raw| - 32..] else Padding(0, 32 - |raw|) + raw
  }

  /** `BigInteger.to32Bytes()`, given the bytes that `toByteArray()` returned. */
  method To32Bytes(raw: array<Byte>) returns (out: array<Byte>)
    ensures out[..] == Fit32(raw[..])
  {
    if raw.Length == 32 {
      return raw;
    }
    out := new Byte[32](_ => 0);
    var from, to, count := 0, 0, 0;
    if raw.Length == 33 && raw[0] == 0 {
      from, to, count := 1, 0, 32;
    } else if raw.Length < 32 {
      from, to, count := 0, 32 - raw.Length, raw.Length;
    } else {
      from, to, count := raw.Length - 32, 0, 32;
    }
    var i := 0;
    while i < count
      invariant 0 <= i <= count
      invariant forall k :: 0 <= k < 32 ==> out[k] == if to <= k < to + i then raw[from + k - to] else 0
    {
      out[to + i] := raw[from + i];
      i := i + 1;
    }
  }

  lemma Fit32BySize(v: int)
    ensures Fit32(ToBytes(v)) == BigEndian(v, 32) <==> v >= 0 || |ToBytes(v)| >= 32
  {
    var bs := ToBytes(v);
    if |bs| >= 32 {
      LowBytes(v, 32);
    } else {
      SignExtends(v, 32);
      if v < 0 {
        assert Fit32(bs)[0] == 0;
        assert BigEndian(v, 32)[0] == 255;
      }
    }
  }

  /** The 32 bytes are the value modulo 2^256, exactly when the value is not a negative number that fits in
      31 bytes: those are padded with zeros instead of their sign. */
  lemma Fit32IsModulo(v: int)
    ensures Fit32(ToBytes(v)) == BigEndian(v, 32) <==> v >= 0 || v < -128 * Power256(30)
  {
    Fit32BySize(v);
    SizeOf(v, 31);
  }

  // ----------------------------------------------------------------- the codec

  /** One INTEGER at offset `i`: its content octets and the offset after them, `None` on an exception. The
      length octet is read as a signed byte; an empty content or one past the end cannot be read. */
  function ReadInteger(d: seq<Byte>, i: nat): (r: Option<(seq<Byte>, nat)>)
    ensures r.Some? ==> r.value.1 <= |d| && r.value.0 != [] && i + 2 + |r.value.0| == r.value.1
  {
    if i + 1 < |d| && d[i] == 0x02 && 0 < Signed(d[i + 1]) && i + 2 + Signed(d[i + 1]) <= |d|
    then Some((d[i + 2..i + 2 + d[i + 1]], i + 2 + d[i + 1]))
    else None
  }

  /** `derToJose`: `None` when it throws. The sequence length octet and trailing bytes are not looked at. */
  function DerToJose(d: seq<Byte>): Option<seq<Byte>> {
    if d == [] || d[0] != 0x30 then None
    else match ReadInteger(d, 2)
      case None => None
      case Some((r, next)) =>
        match ReadInteger(d, next)
        case None => None
        case Some((s, _)) => Some(Fit32(ToBytes(FromBytes(r))) + Fit32(ToBytes(FromBytes(s))))
  }

  function Der(r: seq<Byte>, s: seq<Byte>): seq<Byte>
    requires |r| < 64 && |s| < 64
  {
    [0x30, 4 + |r| + |s|, 0x02, |r|] + r + [0x02, |s|] + s
  }

  lemma CoordinateSize(bs: seq<Byte>)
    requires |bs| == 32
    ensures 1 <= |ToBytes(FromUnsigned(bs))| <= 33
  {
    UnsignedRoundTrip(bs);
    SizeOf(FromUnsigned(bs), 33);
  }

  /** `joseToDer`: `None` when fewer than 64 bytes are given; bytes after the 64th are not looked at. */
  function JoseToDer(j: seq<Byte>): Option<seq<Byte>> {
    if |j| < 64 then None
    else
      CoordinateSize(j[..32]);
      CoordinateSize(j[32..64]);
      Some(Der(ToBytes(FromUnsigned(j[..32])), ToBytes(FromUnsigned(j[32..64]))))
  }

  /** One `require`, length and `copyOfRange` of the walk, from index `start`. */
  method WalkInteger(der: array<Byte>, start: nat) returns (content: Option<seq<Byte>>, idx: nat)
    ensures ReadInteger(der[..], start) == if content.Some? then Some((content.value, idx)) else None
  {
    content, idx := None, start;
    if idx < der.Length && der[idx] == 0x02 {
      idx := idx + 1;
      if idx < der.Length {
        var len := Signed(der[idx]);
        idx := idx + 1;
        if 0 < len && idx + len <= der.Length {
          content := Some(der[idx..idx + len]);
          assert der[..][idx..idx + len] == der[idx..idx + len];
          idx := idx + len;
        }
      }
    }
  }

  /** `derToJose`, walking the array with a moving index. */
  method DerToJoseWalk(der: array<Byte>) returns (jose: Option<seq<Byte>>)
    ensures jose == DerToJose(der[..])
  {
    hide ReadInteger, ToBytes, FromBytes, Fit32;
    if der.Length == 0 || der[0] != 0x30 { return None; }
    var rContent, idx := WalkInteger(der, 2);
    if rContent.None? { return None; }
    var sContent, _ := WalkInteger(der, idx);
    if sContent.None? { return None; }
    var r, s := ToBytes(FromBytes(rContent.value)), ToBytes(FromBytes(sContent.value));
    var rRaw := new Byte[|r|](i requires 0 <= i < |r| => r[i]);
    var sRaw := new Byte[|s|](i requires 0 <= i < |s| => s[i]);
    assert rRaw[..] == r && sRaw[..] == s;
    var rOut := To32Bytes(rRaw);
    var sOut := To32Bytes(sRaw);
    jose := Some(rOut[..] + sOut[..]);
  }

  /** `joseToDer`, writing the DER octets one after the other; `write(int)` keeps the low eight bits. */
  method JoseToDerWrite(jose: array<Byte>) returns (der: Option<seq<Byte>>)
    ensures der == JoseToDer(jose[..])
  {
    if jose.Length < 64 { return None; }
    var r, s := ToBytes(FromUnsigned(jose[..32])), ToBytes(FromUnsigned(jose[32..64]));
    assert jose[..][..32] == jose[..32] && jose[..][32..64] == jose[32..64];
    CoordinateSize(jose[..32]);
    CoordinateSize(jose[32..64]);
    var seqLen := 2 + |r| + 2 + |s|;
    var out: seq<Byte> := [];
    out := out + [0x30];
    out := out + [seqLen % 256];
    out := out + [0x02];
    out := out + [|r| % 256];
    out := out + r;
    out := out + [0x02];
    out := out + [|s| % 256];
    out := out + s;
    assert out == Der(r, s);
    der := Some(out);
  }

  // ------------------------------------------------------------------ theorems

  lemma ReadDer(r: seq<Byte>, s: seq<Byte>)
    requires 0 < |r| < 64 && 0 < |s| < 64
    ensures ReadInteger(Der(r, s), 2) == Some((r, 4 + |r|))
    ensures ReadInteger(Der(r, s), 4 + |r|) == Some((s, 6 + |r| + |s|))
  {
    var d := Der(r, s);
    assert d[4..4 + |r|] == r;
    assert d[4 + |r|] == 0x02 && d[5 + |r|] == |s|;
    assert d[6 + |r|..6 + |r| + |s|] == s;
  }

  lemma CoordinateFits(bs: seq<Byte>)
    requires |bs| == 32
    ensures Fit32(ToBytes(FromUnsigned(bs))) == bs
  {
    Fit32IsModulo(FromUnsigned(bs));
    UnsignedRoundTrip(bs);
  }

  /** Every raw signature survives the trip through DER. */
  lemma JoseRoundTrip(j: seq<Byte>)
    requires |j| == 64
    ensures JoseToDer(j).Some? && DerToJose(JoseToDer(j).value) == Some(j)
  {
    var r, s := ToBytes(FromUnsigned(j[..32])), ToBytes(FromUnsigned(j[32..64]));
    CoordinateSize(j[..32]);
    CoordinateSize(j[32..64]);
    ReadDer(r, s);
    FromToBytes(FromUnsigned(j[..32]));
    FromToBytes(FromUnsigned(j[32..64]));
    CoordinateFits(j[..32]);
    CoordinateFits(j[32..64]);
    assert j == j[..32] + j[32..64];
  }

  /** What `joseToDer` writes: short-form lengths that add up, minimal non-negative INTEGERs, the values of r and s. */
  lemma JoseToDerIsCanonical(j: seq<Byte>)
    requires |j| >= 64
    ensures Canonical(JoseToDer(j).value)
    ensures JoseToDer(j).value[1] < 128 && |JoseToDer(j).value| == 2 + JoseToDer(j).value[1]
  {
    CoordinateSize(j[..32]);
    CoordinateSize(j[32..64]);
    var r, s := ToBytes(FromUnsigned(j[..32])), ToBytes(FromUnsigned(j[32..64]));
    ReadDer(r, s);
    ToBytesMinimal(FromUnsigned(j[..32]));
    ToBytesMinimal(FromUnsigned(j[32..64]));
    FromToBytes(FromUnsigned(j[..32]));
    FromToBytes(FromUnsigned(j[32..64]));
    UnsignedRoundTrip(j[..32]);
    UnsignedRoundTrip(j[32..64]);
  }

  /** A signature value as DER prescribes it: minimal content, not negative, below 2^256. */
  predicate CanonicalInteger(bs: seq<Byte>) {
    Minimal(bs) && 0 <= FromBytes(bs) < Power256(32)
  }

  /** A canonical encoding, read off the octets: the two INTEGERs fill the sequence exactly. */
  predicate Canonical(d: seq<Byte>) {
    |d| >= 2 && d[0] == 0x30 && d[1] == |d| - 2 &&
    match ReadInteger(d, 2)
    case None => false
    case Some((r, next)) =>
      match ReadInteger(d, next)
      case None => false
      case Some((s, end)) => end == |d| && CanonicalInteger(r) && CanonicalInteger(s)
  }

  lemma UnsignedIsSigned(bs: seq<Byte>)
    requires CanonicalInteger(bs)
    ensures |bs| <= 33 && FromUnsigned(Fit32(ToBytes(FromBytes(bs)))) == FromBytes(bs)
  {
    var v := FromBytes(bs);
    ToFromBytes(bs);
    SizeOf(v, 33);
    Fit32IsModulo(v);
    BigEndianValue(v, 32);
  }

  lemma IntegerOctets(d: seq<Byte>, i: nat)
    requires ReadInteger(d, i).Some?
    ensures var (content, next) := ReadInteger(d, i).value;
            |content| < 128 && d[i..next] == [0x02, |content|] + content
  {
  }

  lemma OctetsAreDer(d: seq<Byte>, r: seq<Byte>, next: nat, s: seq<Byte>)
    requires |d| >= 2 && d[0] == 0x30 && d[1] == |d| - 2 && |r| < 64 && |s| < 64
    requires ReadInteger(d, 2) == Some((r, next)) && ReadInteger(d, next) == Some((s, |d|))
    ensures d == Der(r, s)
  {
    IntegerOctets(d, 2);
    IntegerOctets(d, next);
    assert d == d[..2] + d[2..next] + d[next..|d|];
    assert d[..2] == [0x30, 4 + |r| + |s|];
  }

  lemma CanonicalIsDer(d: seq<Byte>)
    requires Canonical(d)
    ensures var (r, next) := ReadInteger(d, 2).value;
            var (s, _) := ReadInteger(d, next).value;
            CanonicalInteger(r) && CanonicalInteger(s) && |r| <= 33 && |s| <= 33 && d == Der(r, s)
  {
    var (r, next) := ReadInteger(d, 2).value;
    var (s, _) := ReadInteger(d, next).value;
    UnsignedIsSigned(r);
    UnsignedIsSigned(s);
    OctetsAreDer(d, r, next, s);
  }

  lemma CanonicalComesBack(d: seq<Byte>)
    requires DerToJose(d).Some? && Canonical(d)
    ensures JoseToDer(DerToJose(d).value) == Some(d)
  {
    var j := DerToJose(d).value;
    CanonicalIsDer(d);
    var (r, next) := ReadInteger(d, 2).value;
    var (s, _) := ReadInteger(d, next).value;
    assert j == Fit32(ToBytes(FromBytes(r))) + Fit32(ToBytes(FromBytes(s)));
    hide ReadInteger, DerToJose, Canonical, Fit32, FromUnsigned, FromBytes, ToBytes, Der;
    UnsignedIsSigned(r);
    UnsignedIsSigned(s);
    ToFromBytes(r);
    ToFromBytes(s);
    assert j[..32] == Fit32(ToBytes(FromBytes(r))) && j[32..64] == Fit32(ToBytes(FromBytes(s)));
  }

  /** Whenever `derToJose` returns, coming back gives the same octets exactly for canonical encodings: a wrong
      sequence length, trailing bytes, padding, a negative or an oversized INTEGER are all accepted and lost. */
  lemma DerRoundTrip(d: seq<Byte>)
    requires DerToJose(d).Some?
    ensures JoseToDer(DerToJose(d).value) == Some(d) <==> Canonical(d)
  {
    var j := DerToJose(d).value;
    assert |j| == 64;
    hide DerToJose, Canonical;
    if JoseToDer(j) == Some(d) {
      JoseToDerIsCanonical(j);
    }
    if Canonical(d) {
      CanonicalComesBack(d);
    }
    hide JoseToDer;
  }

  /** Every canonical encoding is accepted. */
  lemma {:induction false} CanonicalIsAccepted(d: seq<Byte>)
    requires Canonical(d)
    ensures DerToJose(d).Some? && |DerToJose(d).value| == 64 && JoseToDer(DerToJose(d).value) == Some(d)
  {
    DerRoundTrip(d);
  }

  /** A concrete negative INTEGER: the 8-byte encoding of r = -1, s = 1 is accepted, and comes back as r = 255. */
  lemma NegativeIntegerIsMisread()
    ensures var d: seq<Byte> := [0x30, 6, 0x02, 1, 255, 0x02, 1, 1];
            && DerToJose(d) == Some(Padding(0, 31) + [255] + Padding(0, 31) + [1])
            && !Canonical(d)
  {
    var d: seq<Byte> := [0x30, 6, 0x02, 1, 255, 0x02, 1, 1];
    assert ReadInteger(d, 2) == Some(([255], 5)) by { assert d[4..5] == [255]; }
    assert ReadInteger(d, 5) == Some(([1], 8)) by { assert d[7..8] == [1]; }
    assert ToBytes(-1) == [255] && ToBytes(1) == [1];
    assert FromBytes([255]) == -1 && FromBytes([1]) == 1;
    var out := Fit32(ToBytes(-1)) + Fit32(ToBytes(1));
    assert out == Padding(0, 31) + [255] + Padding(0, 31) + [1];
  }

  // ------------------------------------------------- any input, octet by octet

  /** A SEQUENCE tag, any length octet, two INTEGERs of 1 to 127 content octets, and anything after them. */
  predicate Encodes(d: seq<Byte>, length: Byte, r: seq<Byte>, s: seq<Byte>, rest: seq<Byte>) {
    1 <= |r| < 128 && 1 <= |s| < 128 && d == [0x30, length, 0x02, |r|] + r + [0x02, |s|] + s + rest
  }

  lemma EncodedReads(d: seq<Byte>, length: Byte, r: seq<Byte>, s: seq<Byte>, rest: seq<Byte>)
    requires Encodes(d, length, r, s, rest)
    ensures ReadInteger(d, 2) == Some((r, 4 + |r|)) && ReadInteger(d, 4 + |r|) == Some((s, 6 + |r| + |s|)) && d[0] == 0x30
  {
    assert d[4..4 + |r|] == r;
    assert d[4 + |r|] == 0x02 && d[5 + |r|] == |s|;
    assert d[6 + |r|..6 + |r| + |s|] == s;
  }

  lemma PiecesEncode(d: seq<Byte>, r: seq<Byte>, next: nat, s: seq<Byte>, end: nat)
    requires 2 <= next <= end <= |d| && d[0] == 0x30 && 1 <= |r| < 128 && 1 <= |s| < 128
    requires d[2..next] == [0x02, |r|] + r && d[next..end] == [0x02, |s|] + s
    ensures Encodes(d, d[1], r, s, d[end..])
  {
    assert d[..2] == [0x30, d[1]];
    assert d == d[..2] + d[2..next] + d[next..end] + d[end..];
  }

  lemma AcceptedIsEncoded(d: seq<Byte>)
    requires DerToJose(d).Some?
    ensures exists length, r, s, rest :: Encodes(d, length, r, s, rest)
  {
    var (r, next) := ReadInteger(d, 2).value;
    var (s, end) := ReadInteger(d, next).value;
    assert d != [] && d[0] == 0x30;
    hide ReadInteger, DerToJose, Fit32, ToBytes, FromBytes, Encodes;
    IntegerOctets(d, 2);
    IntegerOctets(d, next);
    PiecesEncode(d, r, next, s, end);
  }

  /** Exactly such inputs are accepted. */
  lemma AcceptedExactly(d: seq<Byte>)
    ensures DerToJose(d).Some? <==> exists length, r, s, rest :: Encodes(d, length, r, s, rest)
  {
    if DerToJose(d).Some? {
      AcceptedIsEncoded(d);
      hide ReadInteger, DerToJose, Encodes;
    } else if length, r, s, rest :| Encodes(d, length, r, s, rest) {
      EncodedReads(d, length, r, s, rest);
      hide Fit32, ToBytes, FromBytes, ReadInteger, Encodes;
    }
  }

  /** What they give: r first and then s, each in 32 bytes that hold its value, unless that is negative or too large. */
  lemma AcceptedGives(d: seq<Byte>, length: Byte, r: seq<Byte>, s: seq<Byte>, rest: seq<Byte>)
    requires Encodes(d, length, r, s, rest)
    ensures DerToJose(d).Some? && |DerToJose(d).value| == 64
    ensures var j := DerToJose(d).value;
            && (0 <= FromBytes(r) < Power256(32) ==> FromUnsigned(j[..32]) == FromBytes(r))
            && (0 <= FromBytes(s) < Power256(32) ==> FromUnsigned(j[32..]) == FromBytes(s))
  {
    EncodedReads(d, length, r, s, rest);
    CoordinateHolds(r);
    CoordinateHolds(s);
    var j := DerToJose(d).value;
    assert j == Fit32(ToBytes(FromBytes(r))) + Fit32(ToBytes(FromBytes(s)));
    assert j[..32] == Fit32(ToBytes(FromBytes(r))) && j[32..] == Fit32(ToBytes(FromBytes(s)));
    hide DerToJose, Fit32, ToBytes, FromBytes, FromUnsigned, Power256, ReadInteger, Encodes;
  }

  lemma CoordinateHolds(bs: seq<Byte>)
    requires bs != []
    ensures 0 <= FromBytes(bs) < Power256(32) ==> FromUnsigned(Fit32(ToBytes(FromBytes(bs)))) == FromBytes(bs)
  {
    if 0 <= FromBytes(bs) < Power256(32) {
      Fit32IsModulo(FromBytes(bs));
      BigEndianValue(FromBytes(bs), 32);
    }
  }

  /** The way back is refused exactly below 64 bytes, and otherwise writes the values of the first two times 32, r first,
      in as few octets as their INTEGERs allow and with a length that counts them. */
  lemma WrittenExactly(j: seq<Byte>)
    ensures JoseToDer(j).Some? <==> |j| >= 64
    ensures JoseToDer(j).Some? ==>
              exists r, s ::
                && |r| <= 33 && |s| <= 33 && Encodes(JoseToDer(j).value, 4 + |r| + |s|, r, s, []) && Minimal(r) && Minimal(s)
                && FromBytes(r) == FromUnsigned(j[..32]) && FromBytes(s) == FromUnsigned(j[32..64])
  {
    if |j| >= 64 {
      var r, s := ToBytes(FromUnsigned(j[..32])), ToBytes(FromUnsigned(j[32..64]));
      CoordinateSize(j[..32]);
      CoordinateSize(j[32..64]);
      ToBytesMinimal(FromUnsigned(j[..32]));
      ToBytesMinimal(FromUnsigned(j[32..64]));
      FromToBytes(FromUnsigned(j[..32]));
      FromToBytes(FromUnsigned(j[32..64]));
      hide ToBytes, FromBytes, FromUnsigned, Minimal;
      assert Der(r, s) == Der(r, s) + [];
      assert Encodes(JoseToDer(j).value, 4 + |r| + |s|, r, s, []);
    }
  }
}
