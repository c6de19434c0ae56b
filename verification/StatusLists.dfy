/** The IETF Token Status List: one bit per credential, packed eight to a byte, published in a signed token. */
module StatusLists {
  import opened Basics
  import opened Crypto

  const STATUS_VALID := 0
  const STATUS_INVALID := 1
  const STATUS_LIST_TYP := "statuslist+jwt"

  // --------------------------------------------------------- index arithmetic

  /** `idx >> 3`. */
  function ByteIndex(idx: int): int {
    ToInt32(idx) / 8
  }

  /** `idx & 7`. */
  function BitIndex(idx: int): (k: nat)
    ensures k < 8
  {
    ToInt32(idx) % 8
  }

  /** `(bytes[idx >> 3] >> (idx & 7)) & 1`; reading past either end of a typed array gives 0 here. */
  function BitAt(bytes: seq<bv8>, idx: int): (bit: nat)
    ensures bit == 0 || bit == 1
  {
    var i := ByteIndex(idx);
    if 0 <= i < |bytes| && (bytes[i] >> BitIndex(idx)) & 1 == 1 then 1 else 0
  }

  function WithBit(byte: bv8, k: nat, on: bool): bv8
    requires k < 8
  {
    if on then byte | (1 << k) else byte & !(1 << k)
  }

  /** `bytes[idx >> 3] |= ...` or `&= ~...`; a write past either end of a typed array is ignored. */
  function SetBit(bytes: seq<bv8>, idx: int, on: bool): (r: seq<bv8>)
    ensures |r| == |bytes|
  {
    var i := ByteIndex(idx);
    if 0 <= i < |bytes| then bytes[i := WithBit(bytes[i], BitIndex(idx), on)] else bytes
  }

  function ByteLength(size: nat): nat {
    (size + 7) / 8
  }

  /** A fresh list: all bits off. */
  function Zeros(size: nat): seq<bv8> {
    seq(ByteLength(size), _ => 0)
  }

  // ----------------------------------------------------------------- the class

  class StatusList {
    const size: nat
    const bytes: array<bv8>

    ghost predicate Valid() {
      bytes.Length == ByteLength(size)
    }

    constructor (size: nat)
      ensures Valid() && this.size == size && fresh(bytes) && bytes[..] == Zeros(size)
    {
      this.size := size;
      bytes := new bv8[ByteLength(size)](_ => 0);
    }

    /** `get(idx)`; `None` when the index check throws. */
    method GetStatus(idx: int) returns (bit: Option<nat>)
      requires Valid()
      ensures bit == if 0 <= idx < size then Some(BitAt(bytes[..], idx)) else None
    {
      if idx < 0 || idx >= size { return None; }
      var i := ByteIndex(idx);
      if i < 0 || i >= bytes.Length { return Some(0); }
      bit := Some(if (bytes[i] >> BitIndex(idx)) & 1 == 1 then 1 else 0);
    }

    /** `set(idx, value)`; false when the index check throws. */
    method SetStatus(idx: int, on: bool) returns (ok: bool)
      requires Valid()
      modifies bytes
      ensures Valid() && ok == (0 <= idx < size)
      ensures bytes[..] == if ok then SetBit(old(bytes[..]), idx, on) else old(bytes[..])
    {
      if idx < 0 || idx >= size { return false; }
      var i := ByteIndex(idx);
      if 0 <= i < bytes.Length {
        if on {
          bytes[i] := bytes[i] | (1 << BitIndex(idx));
        } else {
          bytes[i] := bytes[i] & !(1 << BitIndex(idx));
        }
      }
      ok := true;
    }
  }

  // ------------------------------------------- refinement of a set of integers

  lemma OneBit(b: bv8, k: nat, j: nat, on: bool)
    requires k < 8 && j < 8
    ensures (WithBit(b, k, on) >> j) & 1 == if j == k then (if on then 1 else 0) else (b >> j) & 1
  {
  }

  /** One write changes the bit it addresses and no other; indices address modulo 2^32. */
  lemma SetThenGet(bytes: seq<bv8>, i: int, on: bool, j: int)
    requires 0 <= ByteIndex(i) < |bytes|
    ensures BitAt(SetBit(bytes, i, on), j) ==
            if ToInt32(i) == ToInt32(j) then (if on then 1 else 0) else BitAt(bytes, j)
  {
    OneBit(bytes[ByteIndex(i)], BitIndex(i), BitIndex(j), on);
  }

  /** One call of `set`. */
  datatype Op = Op(idx: int, on: bool)

  /** The bytes after a sequence of `set` calls on a fresh list; a call out of range throws and changes nothing. */
  function Apply(size: nat, ops: seq<Op>): (bytes: seq<bv8>)
    ensures |bytes| == ByteLength(size)
  {
    if ops == [] then Zeros(size)
    else
      var bytes, op := Apply(size, ops[..|ops| - 1]), ops[|ops| - 1];
      if 0 <= op.idx < size then SetBit(bytes, op.idx, op.on) else bytes
  }

  /** The same calls on a set of integers. */
  function Members(size: nat, ops: seq<Op>): set<int> {
    if ops == [] then {}
    else
      var members, op := Members(size, ops[..|ops| - 1]), ops[|ops| - 1];
      if 0 <= op.idx < size then (if op.on then members + {op.idx} else members - {op.idx}) else members
  }

  /** Up to 2^31 entries the packed list is the set: every index reads its membership, and the padding bits
      after the last entry read VALID whatever was written. */
  lemma {:induction false} ListIsSet(size: nat, ops: seq<Op>, idx: int)
    requires size <= TWO_31 && 0 <= idx < 8 * ByteLength(size)
    ensures BitAt(Apply(size, ops), idx) == 1 <==> idx in Members(size, ops)
    ensures forall i :: i in Members(size, ops) ==> 0 <= i < size
  {
    if ops == [] {
      assert BitAt(Zeros(size), idx) == 0;
    } else {
      ListIsSet(size, ops[..|ops| - 1], idx);
      var op := ops[|ops| - 1];
      if 0 <= op.idx < size {
        SetThenGet(Apply(size, ops[..|ops| - 1]), op.idx, op.on, idx);
      }
    }
  }

  /** Past 2^31 entries it is not: there `set` writes nowhere. The size bound is exact. */
  lemma ListIsSetExactlyUpToInt32(size: nat)
    ensures size <= TWO_31 <==>
            forall ops, idx :: 0 <= idx < size ==> (BitAt(Apply(size, ops), idx) == 1 <==> idx in Members(size, ops))
  {
    if size <= TWO_31 {
      forall ops, idx | 0 <= idx < size
        ensures BitAt(Apply(size, ops), idx) == 1 <==> idx in Members(size, ops)
      {
        ListIsSet(size, ops, idx);
      }
    } else {
      var ops := [Op(TWO_31, true)];
      assert ops[..0] == [];
      assert Members(size, ops) == {TWO_31};
      assert BitAt(Apply(size, ops), TWO_31) == 0;
    }
  }

  // ------------------------------------------------------- publish and read

  /** DEFLATE and base64url of the list bytes, and back; `None` when decoding throws. */
  datatype ListCodec = ListCodec(deflate: seq<bv8> -> string, inflate: string -> Option<seq<bv8>>)

  ghost predicate InflateUndoesDeflate(c: ListCodec) {
    forall bytes :: c.inflate(c.deflate(bytes)) == Some(bytes) && c.deflate(bytes) != ""
  }

  function StatusListClaims(c: ListCodec, issuer: string, uri: string, bytes: seq<bv8>, now: int, ttl: int): Payload {
    map["sub" := Str(uri), "iss" := Str(issuer), "iat" := Num(now), "exp" := Num(now + ttl),
        "status_list" := Obj(map["bits" := Num(1), "lst" := Str(c.deflate(bytes))])]
  }

  function BuildStatusListToken(s: Suite, c: ListCodec, key: PrivateKey, issuer: string, uri: string,
                                bytes: seq<bv8>, now: int, ttl: int): string
  {
    s.sign(key, STATUS_LIST_TYP, StatusListClaims(c, issuer, uri, bytes, now, ttl))
  }

  datatype StatusError = StatusUnavailable | InvalidRequest | DecodeFailure
  datatype StatusResult = Status(bit: nat) | StatusFailed(error: StatusError)

  /** `readStatus`: the guards in order, then the bit. */
  function ReadStatus(s: Suite, c: ListCodec, token: string, idx: int, issuerJwk: Json,
                      expectedIssuer: string, expectedUri: string, now: int): StatusResult
  {
    match s.open(token, issuerJwk, STATUS_LIST_TYP, now)
    case None => StatusFailed(StatusUnavailable)
    case Some(payload) =>
      var sl := Get(payload, "status_list");
      var lst := Field(sl, "lst");
      if Get(payload, "iss") != Some(Str(expectedIssuer)) then StatusFailed(StatusUnavailable)
      else if Get(payload, "sub") != Some(Str(expectedUri)) then StatusFailed(StatusUnavailable)
      else if !Truthy(lst) then StatusFailed(StatusUnavailable)
      else if Field(sl, "bits") != Some(Num(1)) then StatusFailed(StatusUnavailable)
      else if idx < 0 then StatusFailed(InvalidRequest)
      else match (if lst.value.Str? then c.inflate(lst.value.s) else None)
        case None => StatusFailed(DecodeFailure)
        case Some(bytes) =>
          if ByteIndex(idx) >= |bytes| then StatusFailed(InvalidRequest) else Status(BitAt(bytes, idx))
  }

  /** A published list, read back by its own issuer, URI and key before it expires, for every index at all. */
  lemma ReadOfPublished(s: Suite, c: ListCodec, key: PrivateKey, issuer: string, uri: string,
                        bytes: seq<bv8>, built: int, ttl: int, idx: int, now: int)
    requires SignaturesOpen(s) && InflateUndoesDeflate(c) && now < built + ttl
    ensures ReadStatus(s, c, BuildStatusListToken(s, c, key, issuer, uri, bytes, built, ttl), idx,
                       s.publicJwk(key), issuer, uri, now) ==
            if idx < 0 || ByteIndex(idx) >= |bytes| then StatusFailed(InvalidRequest) else Status(BitAt(bytes, idx))
  {
    var payload := StatusListClaims(c, issuer, uri, bytes, built, ttl);
    assert TimeClaimsHold(payload, now);
    assert s.open(BuildStatusListToken(s, c, key, issuer, uri, bytes, built, ttl), s.publicJwk(key), STATUS_LIST_TYP, now) == Some(payload);
    assert Get(payload, "status_list") == Some(Obj(map["bits" := Num(1), "lst" := Str(c.deflate(bytes))]));
  }

  /** What a verifier reads from a token agrees with the set the issuer keeps: members read INVALID, other entries
      and the padding read VALID, and indices past the last byte are refused. */
  lemma ReadStatusAgreesWithSet(s: Suite, c: ListCodec, key: PrivateKey, issuer: string, uri: string,
                                size: nat, ops: seq<Op>, built: int, ttl: int, idx: int, now: int)
    requires SignaturesOpen(s) && InflateUndoesDeflate(c) && now < built + ttl
    requires size <= TWO_31 && idx < TWO_31
    ensures var token := BuildStatusListToken(s, c, key, issuer, uri, Apply(size, ops), built, ttl);
            ReadStatus(s, c, token, idx, s.publicJwk(key), issuer, uri, now) ==
            if 0 <= idx < 8 * ByteLength(size)
            then Status(if idx in Members(size, ops) then STATUS_INVALID else STATUS_VALID)
            else StatusFailed(InvalidRequest)
  {
    ReadOfPublished(s, c, key, issuer, uri, Apply(size, ops), built, ttl, idx, now);
    if 0 <= idx < 8 * ByteLength(size) {
      ListIsSet(size, ops, idx);
    }
  }

  /** An index from 2^31 up to 2^32 turns negative in `idx >> 3`: it is not refused, it reads VALID in every list. */
  lemma IndexPastInt32ReadsValid(s: Suite, c: ListCodec, key: PrivateKey, issuer: string, uri: string,
                                 bytes: seq<bv8>, built: int, ttl: int, idx: int, now: int)
    requires SignaturesOpen(s) && InflateUndoesDeflate(c) && now < built + ttl
    requires TWO_31 <= idx < TWO_32
    ensures ReadStatus(s, c, BuildStatusListToken(s, c, key, issuer, uri, bytes, built, ttl), idx,
                       s.publicJwk(key), issuer, uri, now) == Status(STATUS_VALID)
  {
    ReadOfPublished(s, c, key, issuer, uri, bytes, built, ttl, idx, now);
  }

  // ------------------------------------------------------- any token at all

  /** The entry of an index in packed bytes: eight to a byte, the lowest bit of a byte first. */
  predicate IsOn(bytes: seq<bv8>, idx: nat) {
    idx / 8 < |bytes| && (bytes[idx / 8] >> (idx % 8)) & 1 == 1
  }

  /** The layout that writers and readers share. */
  lemma LowestBitFirst(bytes: seq<bv8>, idx: nat)
    requires idx < 0x8000_0000
    ensures BitAt(bytes, idx) == 1 <==> IsOn(bytes, idx)
  {
    assert ByteIndex(idx) == idx / 8 && BitIndex(idx) == idx % 8;
  }

  /** A write turns its own entry on or off, and leaves every other as it was. */
  lemma WritesItsOwnEntry(bytes: seq<bv8>, idx: nat, on: bool, i: nat)
    requires idx < 8 * |bytes| <= 0x8000_0000 && i < 8 * |bytes|
    ensures IsOn(SetBit(bytes, idx, on), i) <==> if i == idx then on else IsOn(bytes, i)
  {
    LowestBitFirst(SetBit(bytes, idx, on), i);
    LowestBitFirst(bytes, i);
    assert ToInt32(idx) == idx && ToInt32(i) == i;
    assert 0 <= ByteIndex(idx) < |bytes|;
    hide SetBit, BitAt, IsOn, ByteIndex, ToInt32;
    SetThenGet(bytes, idx, on, i);
  }

  /** The token is one for this issuer and list: it opens under the key, names both, and carries one-bit entries. */
  ghost predicate IsListOf(s: Suite, token: string, issuerJwk: Json, expectedIssuer: string, expectedUri: string, now: int) {
    var payload := s.open(token, issuerJwk, "statuslist+jwt", now);
    && payload.Some? && Get(payload.value, "iss") == Some(Str(expectedIssuer)) && Get(payload.value, "sub") == Some(Str(expectedUri))
    && Truthy(Field(Get(payload.value, "status_list"), "lst")) && Field(Get(payload.value, "status_list"), "bits") == Some(Num(1))
  }

  /** The bytes that such a token carries; `None` when they do not decode. */
  ghost function BytesOf(s: Suite, c: ListCodec, token: string, issuerJwk: Json, now: int): Option<seq<bv8>> {
    var payload := s.open(token, issuerJwk, "statuslist+jwt", now);
    var lst := if payload.Some? then Field(Get(payload.value, "status_list"), "lst") else None;
    if lst.Some? && lst.value.Str? then c.inflate(lst.value.s) else None
  }

  /** What is read from any token, for any index below 2^31: the entry, when the token is one for the issuer and list that
      the credential names and the index is in range; and otherwise exactly what is wrong. */
  lemma ReadsExactly(s: Suite, c: ListCodec, token: string, idx: int, issuerJwk: Json, expectedIssuer: string, expectedUri: string, now: int)
    requires idx < 0x8000_0000
    ensures var bytes := BytesOf(s, c, token, issuerJwk, now);
            ReadStatus(s, c, token, idx, issuerJwk, expectedIssuer, expectedUri, now) ==
            if !IsListOf(s, token, issuerJwk, expectedIssuer, expectedUri, now) then StatusFailed(StatusUnavailable)
            else if idx < 0 then StatusFailed(InvalidRequest)
            else if bytes.None? then StatusFailed(DecodeFailure)
            else if idx >= 8 * |bytes.value| then StatusFailed(InvalidRequest)
            else Status(if IsOn(bytes.value, idx) then 1 else 0)
  {
    var bytes := BytesOf(s, c, token, issuerJwk, now);
    if idx >= 0 && bytes.Some? {
      assert ByteIndex(idx) == idx / 8;
      assert BitAt(bytes.value, idx) == 1 <==> IsOn(bytes.value, idx) by { LowestBitFirst(bytes.value, idx); }
      hide BitAt, ByteIndex, IsOn;
    }
  }
}
