/** Strict DER signatures and low-s normalisation (client/lib/chain/signer-kms.ts). */
module Der {
  import opened Wrappers

  /** secp256k1 group order. */
  const SECP256K1_N: nat := 0xfffffffffffffffffffffffffffffffebaaedce6af48a03bbfd25e8cd0364141
  const HALF_N: nat := SECP256K1_N / 2

  const SEQUENCE: byte := 0x30
  const INTEGER: byte := 0x02

  type byte = x: int | 0 <= x < 256

  datatype DerError =
    | Truncated | ExpectedTag(tag: byte) | BadLength | NonMinimalLength
    | BadIntegerLength | NegativeInteger | NonMinimalInteger
    | TrailingAfter | TrailingIn | OutOfRange

  type Parsed<T> = Result<T, DerError>

  datatype Signature = Signature(r: nat, s: nat)

  // ---------------------------------------------------------------- big-endian numbers

  function FromBytes(b: seq<byte>): nat {
    if b == [] then 0 else FromBytes(b[..|b| - 1]) * 256 + b[|b| - 1]
  }

  /** The shortest big-endian form; 0 is the empty sequence. */
  function ToBytes(v: nat): (b: seq<byte>)
    ensures v > 0 ==> |b| > 0 && b[0] > 0
    ensures FromBytes(b) == v
  {
    if v == 0 then []
    else
      var b := ToBytes(v / 256) + [v % 256];
      assert b[..|b| - 1] == ToBytes(v / 256);
      b
  }

  lemma {:induction false} FromBytesPositive(b: seq<byte>)
    requires |b| > 0 && b[0] > 0
    ensures FromBytes(b) > 0
  {
    if |b| > 1 { FromBytesPositive(b[..|b| - 1]); }
  }

  lemma ShiftBack(v: nat, d: nat)
    requires d < 256
    ensures (v * 256 + d) / 256 == v && (v * 256 + d) % 256 == d
  {}

  /** With no leading zero there is only one way to write a number. */
  lemma {:induction false} ToBytesUnique(b: seq<byte>)
    requires |b| > 0 ==> b[0] > 0
    ensures ToBytes(FromBytes(b)) == b
  {
    if |b| > 0 {
      var init, last := b[..|b| - 1], b[|b| - 1];
      FromBytesPositive(b);
      ToBytesUnique(init);
      ShiftBack(FromBytes(init), last);
      assert b == init + [last];
    }
  }

  function Pow256(n: nat): (r: nat)
    ensures r >= 1
  {
    if n == 0 then 1 else 256 * Pow256(n - 1)
  }

  lemma {:induction false} ToBytesLength(v: nat, n: nat)
    requires v < Pow256(n)
    ensures |ToBytes(v)| <= n
  {
    if v > 0 { ToBytesLength(v / 256, n - 1); }
  }

  lemma OrderFits()
    ensures SECP256K1_N < Pow256(32)
  {
    assert Pow256(1) == 256;
    hide Pow256;
    PowAdds(1, 1);
    PowAdds(2, 2);
    assert Pow256(4) == 0x1_0000_0000;
    PowAdds(4, 4);
    assert Pow256(8) == 0x1_0000_0000_0000_0000;
    PowAdds(8, 8);
    assert Pow256(16) == 0x1_0000_0000_0000_0000_0000_0000_0000_0000;
    PowAdds(16, 16);
  }

  lemma Associates(a: int, b: int)
    ensures (256 * a) * b == 256 * (a * b)
  {}

  lemma {:induction false} PowAdds(a: nat, b: nat)
    ensures Pow256(a + b) == Pow256(a) * Pow256(b)
  {
    if a > 0 {
      PowAdds(a - 1, b);
      Associates(Pow256(a - 1), Pow256(b));
    }
  }

  // ---------------------------------------------------------------- the reader, on values

  /** A length field and what follows it: one octet below 128, or one or two octets announced by a count. */
  function ReadLength(b: seq<byte>): (r: Parsed<(nat, seq<byte>)>)
    requires b != []
  {
    if b[0] < 0x80 then Ok((b[0], b[1..]))
    else
      var n := b[0] - 0x80;
      if n == 0 || n > 2 || 1 + n > |b| then Err(BadLength)
      else
        var len := FromBytes(b[1..1 + n]);
        if len < 0x80 then Err(NonMinimalLength) else Ok((len, b[1 + n..]))
  }

  /** One tag-length-value with the tag expected: its value, and the bytes after it. */
  function ReadTlv(b: seq<byte>, tag: byte): (r: Parsed<(seq<byte>, seq<byte>)>)
    ensures r.Ok? ==> |r.value.1| < |b|
  {
    if |b| < 2 then Err(Truncated)
    else if b[0] != tag then Err(ExpectedTag(tag))
    else
      var head := ReadLength(b[1..]);
      if head.Err? then Err(head.error)
      else
        var (len, rest) := head.value;
        if len > |rest| then Err(Truncated) else Ok((rest[..len], rest[len..]))
  }

  function DerInteger(v: seq<byte>): Parsed<nat> {
    if |v| == 0 || |v| > 33 then Err(BadIntegerLength)
    else if v[0] >= 0x80 then Err(NegativeInteger)
    else if |v| > 1 && v[0] == 0 && v[1] < 0x80 then Err(NonMinimalInteger)
    else Ok(FromBytes(v))
  }

  function ReadInteger(b: seq<byte>): Parsed<(nat, seq<byte>)> {
    var tlv := ReadTlv(b, INTEGER);
    if tlv.Err? then Err(tlv.error)
    else
      var v := DerInteger(tlv.value.0);
      if v.Err? then Err(v.error) else Ok((v.value, tlv.value.1))
  }

  function ParseBody(body: seq<byte>): Parsed<Signature> {
    var r := ReadInteger(body);
    if r.Err? then Err(r.error)
    else
      var s := ReadInteger(r.value.1);
      if s.Err? then Err(s.error)
      else if s.value.1 != [] then Err(TrailingIn)
      else if InRange(Signature(r.value.0, s.value.0)) then Ok(Signature(r.value.0, s.value.0))
      else Err(OutOfRange)
  }

  function Parse(der: seq<byte>): Parsed<Signature> {
    var outer := ReadTlv(der, SEQUENCE);
    if outer.Err? then Err(outer.error)
    else if outer.value.1 != [] then Err(TrailingAfter)
    else ParseBody(outer.value.0)
  }

  predicate InRange(sig: Signature) {
    0 < sig.r < SECP256K1_N && 0 < sig.s < SECP256K1_N
  }

  // ---------------------------------------------------------------- the reader, as the code runs it

  lemma SliceOfSuffix(b: seq<byte>, i: nat, from: nat, to: nat)
    requires from <= to && i + to <= |b|
    ensures b[i..][from..to] == b[i + from..i + to] && b[i..][to..] == b[i + to..]
  {}

  class DerReader {
    const b: seq<byte>
    var i: nat

    ghost predicate Valid()
      reads this
    {
      i <= |b|
    }

    /** The bytes not read yet. */
    ghost function Rest(): seq<byte>
      reads this
      requires Valid()
    {
      b[i..]
    }

    constructor (b: seq<byte>)
      ensures Valid() && this.b == b && Rest() == b
    {
      this.b, i := b, 0;
    }

    predicate Done()
      reads this
      requires Valid()
      ensures Done() <==> Rest() == []
    {
      i == |b|
    }

    /** The length octets of `Read`. */
    method ReadLen() returns (r: Parsed<nat>)
      requires Valid() && Rest() != []
      modifies this`i
      ensures Valid()
      ensures r.Err? ==> ReadLength(old(Rest())) == Err(r.error)
      ensures r.Ok? ==> ReadLength(old(Rest())) == Ok((r.value, Rest()))
    {
      ghost var rest := Rest();
      var len: nat := b[i];
      i := i + 1;
      if len < 0x80 { return Ok(len); }
      var n := len - 0x80;
      if n == 0 || n > 2 || i + n > |b| { return Err(BadLength); }
      len := 0;
      ghost var start := i;
      for k := 0 to n
        invariant i == start + k
        invariant len == FromBytes(b[start..start + k])
      {
        assert b[start..start + k + 1][..k] == b[start..start + k];
        len := len * 256 + b[i];
        i := i + 1;
      }
      SliceOfSuffix(b, start - 1, 1, 1 + n);
      if len < 0x80 { return Err(NonMinimalLength); }
      return Ok(len);
    }

    /** Reads one tag-length-value; where it fails, no reader uses the cursor again. */
    method Read(tag: byte) returns (r: Parsed<seq<byte>>)
      requires Valid()
      modifies this`i
      ensures Valid()
      ensures r.Err? ==> ReadTlv(old(Rest()), tag) == Err(r.error)
      ensures r.Ok? ==> ReadTlv(old(Rest()), tag) == Ok((r.value, Rest()))
    {
      hide ReadLength;
      ghost var rest := Rest();
      if i + 2 > |b| { return Err(Truncated); }
      if b[i] != tag { return Err(ExpectedTag(tag)); }
      i := i + 1;
      assert Rest() == rest[1..];
      var len := ReadLen();
      if len.Err? { return Err(len.error); }
      if i + len.value > |b| { return Err(Truncated); }
      var v := b[i..i + len.value];
      assert v == b[i..][..len.value] && b[i + len.value..] == b[i..][len.value..];
      i := i + len.value;
      return Ok(v);
    }
  }

  method ParseDerSignature(der: seq<byte>) returns (r: Parsed<Signature>)
    ensures r == Parse(der)
  {
    hide ReadTlv, DerInteger;
    var outer := new DerReader(der);
    var body := outer.Read(SEQUENCE);
    if body.Err? { return Err(body.error); }
    if !outer.Done() { return Err(TrailingAfter); }
    r := ReadPair(body.value);
  }

  /** derInteger(inner.read(0x02)). */
  method NextInteger(inner: DerReader) returns (r: Parsed<nat>)
    requires inner.Valid()
    modifies inner`i
    ensures inner.Valid()
    ensures r.Err? ==> ReadInteger(old(inner.Rest())) == Err(r.error)
    ensures r.Ok? ==> ReadInteger(old(inner.Rest())) == Ok((r.value, inner.Rest()))
  {
    hide ReadTlv, DerInteger;
    var bytes := inner.Read(INTEGER);
    if bytes.Err? { return Err(bytes.error); }
    r := DerInteger(bytes.value);
  }

  /** The inner SEQUENCE of `ParseDerSignature`. */
  method ReadPair(body: seq<byte>) returns (r: Parsed<Signature>)
    ensures r == ParseBody(body)
  {
    hide ReadInteger, InRange;
    var inner := new DerReader(body);
    var rv := NextInteger(inner);
    if rv.Err? { return Err(rv.error); }
    var sv := NextInteger(inner);
    if sv.Err? { return Err(sv.error); }
    if !inner.Done() { return Err(TrailingIn); }
    var sig := Signature(rv.value, sv.value);
    if !InRange(sig) { return Err(OutOfRange); }
    return Ok(sig);
  }

  // ---------------------------------------------------------------- the canonical form

  /** The contents octets of a positive INTEGER: shortest, with a zero in front where the top bit is set. */
  function IntegerBytes(v: nat): (b: seq<byte>)
    requires v > 0
    ensures |b| > 0 && b[0] < 0x80
  {
    if ToBytes(v)[0] >= 0x80 then [0] + ToBytes(v) else ToBytes(v)
  }

  /** Tag, one length octet, value. */
  function Tlv(tag: byte, v: seq<byte>): seq<byte>
    requires |v| < 0x80
  {
    [tag, |v|] + v
  }

  lemma IntegerFits(v: nat)
    requires 0 < v < SECP256K1_N
    ensures |IntegerBytes(v)| <= 33
  {
    OrderFits();
    ToBytesLength(v, 32);
  }

  function Encode(sig: Signature): seq<byte>
    requires InRange(sig)
  {
    IntegerFits(sig.r);
    IntegerFits(sig.s);
    Tlv(SEQUENCE, Tlv(INTEGER, IntegerBytes(sig.r)) + Tlv(INTEGER, IntegerBytes(sig.s)))
  }

  // ---------------------------------------------------------------- parse and encode are inverse

  lemma FromBytesLeadingZero(b: seq<byte>)
    ensures FromBytes([0] + b) == FromBytes(b)
    decreases |b|
  {
    var z: seq<byte> := [0] + b;
    if b == [] {
      assert z[..0] == [];
    } else {
      FromBytesLeadingZero(b[..|b| - 1]);
      assert z[..|z| - 1] == [0] + b[..|b| - 1];
    }
  }

  /** The integer reader accepts, of all the forms of a positive number, the canonical one only. */
  lemma IntegerIsCanonical(b: seq<byte>, v: nat)
    requires v > 0
    ensures DerInteger(b) == Ok(v) <==> |b| <= 33 && b == IntegerBytes(v)
  {
    FromBytesLeadingZero(ToBytes(v));
    if DerInteger(b) == Ok(v) {
      if b[0] > 0 {
        ToBytesUnique(b);
      } else {
        assert b == [0] + b[1..];
        FromBytesLeadingZero(b[1..]);
        ToBytesUnique(b[1..]);
      }
    }
  }

  /** Of values shorter than 128 octets the reader accepts the short form only. */
  lemma ReadIsTlv(b: seq<byte>, tag: byte, v: seq<byte>, rest: seq<byte>)
    requires |v| < 0x80
    ensures ReadTlv(b, tag) == Ok((v, rest)) <==> b == Tlv(tag, v) + rest
  {
    if b == Tlv(tag, v) + rest {
      assert b[1..] == [|v|] + (v + rest);
      assert b[1..][1..] == v + rest;
    }
    if ReadTlv(b, tag) == Ok((v, rest)) {
      assert b[1..][1..] == v + rest;
      assert b == [b[0], b[1]] + b[1..][1..];
    }
  }

  lemma ReadIntegerIs(b: seq<byte>, v: nat, rest: seq<byte>)
    requires v > 0
    ensures ReadInteger(b) == Ok((v, rest)) <==>
      |IntegerBytes(v)| <= 33 && b == Tlv(INTEGER, IntegerBytes(v)) + rest
  {
    hide ReadTlv, DerInteger, IntegerBytes;
    if ReadInteger(b) == Ok((v, rest)) {
      var bytes := ReadTlv(b, INTEGER).value.0;
      IntegerIsCanonical(bytes, v);
      ReadIsTlv(b, INTEGER, bytes, rest);
    }
    if |IntegerBytes(v)| <= 33 && b == Tlv(INTEGER, IntegerBytes(v)) + rest {
      IntegerIsCanonical(IntegerBytes(v), v);
      ReadIsTlv(b, INTEGER, IntegerBytes(v), rest);
    }
  }

  lemma BodyIs(body: seq<byte>, sig: Signature)
    requires InRange(sig)
    ensures |IntegerBytes(sig.r)| <= 33 && |IntegerBytes(sig.s)| <= 33
    ensures ParseBody(body) == Ok(sig) <==>
      body == Tlv(INTEGER, IntegerBytes(sig.r)) + Tlv(INTEGER, IntegerBytes(sig.s))
  {
    IntegerFits(sig.r);
    IntegerFits(sig.s);
    hide ReadInteger, IntegerBytes, Tlv;
    var first, second := Tlv(INTEGER, IntegerBytes(sig.r)), Tlv(INTEGER, IntegerBytes(sig.s));
    ReadIntegerIs(body, sig.r, second);
    ReadIntegerIs(second, sig.s, []);
    assert second + [] == second;
    if ParseBody(body) == Ok(sig) {
      var rest := ReadInteger(body).value.1;
      ReadIntegerIs(body, sig.r, rest);
      ReadIntegerIs(rest, sig.s, []);
    }
  }

  /** A signature parses to (r, s) exactly when both lie in (0, n) and the bytes are its canonical encoding. */
  lemma ParsesExactlyCanonical(der: seq<byte>, sig: Signature)
    ensures Parse(der) == Ok(sig) <==> InRange(sig) && der == Encode(sig)
  {
    if InRange(sig) {
      IntegerFits(sig.r);
      IntegerFits(sig.s);
      hide ReadTlv, ParseBody, IntegerBytes;
      var body := Tlv(INTEGER, IntegerBytes(sig.r)) + Tlv(INTEGER, IntegerBytes(sig.s));
      BodyIs(body, sig);
      ReadIsTlv(der, SEQUENCE, body, []);
      assert Tlv(SEQUENCE, body) + [] == Tlv(SEQUENCE, body);
      if Parse(der) == Ok(sig) { BodyIs(ReadTlv(der, SEQUENCE).value.0, sig); }
    }
  }

  /** Encoding and parsing undo each other, and no two byte strings parse to one signature. */
  lemma EncodeParse(sig: Signature)
    requires InRange(sig)
    ensures Parse(Encode(sig)) == Ok(sig)
  {
    ParsesExactlyCanonical(Encode(sig), sig);
  }

  lemma ParseInjective(a: seq<byte>, b: seq<byte>)
    requires Parse(a).Ok? && Parse(a) == Parse(b)
    ensures a == b
  {
    ParsesExactlyCanonical(a, Parse(a).value);
    ParsesExactlyCanonical(b, Parse(a).value);
  }

  /** What the parser accepts is at most 72 octets long. */
  lemma SignatureLength(der: seq<byte>)
    requires Parse(der).Ok?
    ensures 8 <= |der| <= 72
  {
    var sig := Parse(der).value;
    ParsesExactlyCanonical(der, sig);
    IntegerFits(sig.r);
    IntegerFits(sig.s);
  }

  // ---------------------------------------------------------------- longer lengths

  /** The shortest length octets, for lengths of up to two octets. */
  function LengthBytes(len: nat): seq<byte>
    requires len < 0x1_0000
  {
    if len < 0x80 then [len] else if len < 0x100 then [0x81, len] else [0x82, len / 256, len % 256]
  }

  /**
    * Beyond signatures the length check is not exact: of the lengths it accepts, all are in shortest form
    * but those of two octets that start with a zero octet.
    */
  lemma LengthShortestIff(b: seq<byte>)
    requires b != [] && ReadLength(b).Ok?
    ensures var (len, rest) := ReadLength(b).value;
      len < 0x1_0000 && (b == LengthBytes(len) + rest <==> !(b[0] == 0x82 && b[1] == 0))
  {
    if b[0] >= 0x80 {
      var n := b[0] - 0x80;
      var digits := b[1..1 + n];
      assert n == 1 ==> digits == [b[1]] && FromBytes([b[1]]) == b[1];
      assert n == 2 ==> digits == [b[1], b[2]] && digits[..1] == [b[1]] && FromBytes([b[1]]) == b[1];
      assert b == b[..1 + n] + b[1 + n..];
      assert b[..1 + n] == [b[0]] + digits;
    }
  }

  /** The octets 82 00 85 read as 133, whose shortest form is 81 85. */
  lemma LongLengthRead(rest: seq<byte>)
    ensures ReadLength([0x82, 0x00, 0x85] + rest) == Ok((133, rest))
    ensures LengthBytes(133) == [0x81, 0x85]
  {
    var b: seq<byte> := [0x82, 0x00, 0x85] + rest;
    assert b[1..3] == [0x00, 0x85] && b[3..] == rest;
    assert FromBytes([0x00, 0x85]) == 133 by {
      var d: seq<byte> := [0x00, 0x85];
      assert d[..1] == [0x00] && FromBytes([0x00]) == 0;
    }
    assert FromBytes([0x85]) == 133;
  }

  /** Every shortest form of a length is accepted, with its length. */
  lemma ShortestAccepted(len: nat, rest: seq<byte>)
    requires len < 0x1_0000
    ensures ReadLength(LengthBytes(len) + rest) == Ok((len, rest))
  {
    var b := LengthBytes(len) + rest;
    if len >= 0x80 {
      var n := b[0] - 0x80;
      assert b[1..1 + n] == LengthBytes(len)[1..] && b[1 + n..] == rest;
      assert n == 1 ==> LengthBytes(len)[1..] == [len] && FromBytes([len]) == len;
      assert n == 2 ==> LengthBytes(len)[1..] == [len / 256, len % 256];
      assert n == 2 ==> [len / 256, len % 256][..1] == [len / 256] && FromBytes([len / 256]) == len / 256;
    }
  }

  // ---------------------------------------------------------------- low s

  function LowS(s: nat): nat
    requires s < SECP256K1_N
  {
    if s > HALF_N then SECP256K1_N - s else s
  }

  /** What signDigest returns of the parsed pair. */
  function Normalised(sig: Signature): (r: Signature)
    requires InRange(sig)
  {
    Signature(sig.r, LowS(sig.s))
  }

  /** The two signatures a key can give for one (r, digest) normalise to one, and normalising is idempotent. */
  lemma LowSIsCanonical(sig: Signature, other: Signature)
    requires InRange(sig) && InRange(other) && sig.r == other.r
    ensures 1 <= Normalised(sig).s <= HALF_N && InRange(Normalised(sig))
    ensures Normalised(Normalised(sig)) == Normalised(sig)
    ensures Normalised(sig) == Normalised(other) <==> other.s == sig.s || other.s == SECP256K1_N - sig.s
  {
  }
}
