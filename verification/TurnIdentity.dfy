/** `decision_agent/application/turn_identity.py`: the hash input that identifies a turn. */
module TurnIdentity {
  import opened Texts

  newtype byte = x: int | 0 <= x < 0x100

  datatype IdentityError = SessionBlank | RequestBlank | FieldTooLong

  const LENGTH_BYTES: nat := 8

  // ---------------------------------------------------------------- UTF-8

  /** The bytes of one Unicode scalar value. */
  function EncodeChar(c: char): (bs: seq<byte>)
    ensures 1 <= |bs| <= 4
  {
    var n := c as int;
    if n < 0x80 then [n as byte]
    else if n < 0x800 then [(0xC0 + n / 0x40) as byte, (0x80 + n % 0x40) as byte]
    else if n < 0x10000 then [(0xE0 + n / 0x1000) as byte, (0x80 + n / 0x40 % 0x40) as byte, (0x80 + n % 0x40) as byte]
    else
      [(0xF0 + n / 0x40000) as byte, (0x80 + n / 0x1000 % 0x40) as byte, (0x80 + n / 0x40 % 0x40) as byte,
       (0x80 + n % 0x40) as byte]
  }

  function Utf8(s: string): (bs: seq<byte>)
    ensures |bs| >= |s|
  {
    if s == [] then [] else EncodeChar(s[0]) + Utf8(s[1..])
  }

  /** The length that a leading byte announces. */
  function Announced(lead: byte): nat
  {
    if lead < 0x80 then 1 else if lead < 0xE0 then 2 else if lead < 0xF0 then 3 else 4
  }

  /** The number that the first `Announced` bytes spell. */
  function Spelled(bs: seq<byte>): int
    requires bs != [] && Announced(bs[0]) <= |bs|
  {
    var b0 := bs[0] as int;
    match Announced(bs[0])
    case 1 => b0
    case 2 => (b0 - 0xC0) * 0x40 + (bs[1] as int - 0x80)
    case 3 => (b0 - 0xE0) * 0x1000 + (bs[1] as int - 0x80) * 0x40 + (bs[2] as int - 0x80)
    case _ =>
      (b0 - 0xF0) * 0x40000 + (bs[1] as int - 0x80) * 0x1000 + (bs[2] as int - 0x80) * 0x40 + (bs[3] as int - 0x80)
  }

  lemma {:induction false} DigitsOf(n: nat)
    ensures n == n / 0x40 * 0x40 + n % 0x40
    ensures n == n / 0x1000 * 0x1000 + n / 0x40 % 0x40 * 0x40 + n % 0x40
    ensures n == n / 0x40000 * 0x40000 + n / 0x1000 % 0x40 * 0x1000 + n / 0x40 % 0x40 * 0x40 + n % 0x40
  {
    assert n / 0x40 / 0x40 == n / 0x1000;
    assert n / 0x1000 / 0x40 == n / 0x40000;
  }

  /** Whatever follows, the bytes of a character spell that character. */
  lemma {:induction false} CharIsSpelled(c: char, rest: seq<byte>)
    ensures Announced(EncodeChar(c)[0]) == |EncodeChar(c)|
    ensures Spelled(EncodeChar(c) + rest) == c as int
  {
    DigitsOf(c as int);
  }

  /** Different texts have different encodings. */
  lemma {:induction false} Utf8IsInjective(s: string, t: string)
    requires Utf8(s) == Utf8(t)
    ensures s == t
  {
    if s != [] {
      CharIsSpelled(s[0], Utf8(s[1..]));
      CharIsSpelled(t[0], Utf8(t[1..]));
      assert EncodeChar(s[0])[0] == Utf8(s)[0] == Utf8(t)[0] == EncodeChar(t[0])[0];
      assert s[0] == t[0];
      assert Utf8(s[1..]) == Utf8(s)[|EncodeChar(s[0])|..] == Utf8(t)[|EncodeChar(t[0])|..] == Utf8(t[1..]);
      Utf8IsInjective(s[1..], t[1..]);
      assert s == [s[0]] + s[1..] && t == [t[0]] + t[1..];
    }
  }

  // ---------------------------------------------------------------- big-endian lengths

  function Power256(width: nat): (p: nat)
    ensures p > 0
  {
    if width == 0 then 1 else 0x100 * Power256(width - 1)
  }

  /** `n.to_bytes(width, byteorder="big")` */
  function BigEndian(n: nat, width: nat): (bs: seq<byte>)
    ensures |bs| == width
  {
    if width == 0 then [] else BigEndian(n / 0x100, width - 1) + [(n % 0x100) as byte]
  }

  function Number(bs: seq<byte>): nat
  {
    if bs == [] then 0 else 0x100 * Number(bs[..|bs| - 1]) + bs[|bs| - 1] as int
  }

  lemma {:induction false} NumberOfBigEndian(n: nat, width: nat)
    requires n < Power256(width)
    ensures Number(BigEndian(n, width)) == n
  {
    if width > 0 {
      assert n / 0x100 < Power256(width - 1);
      NumberOfBigEndian(n / 0x100, width - 1);
      var bs := BigEndian(n, width);
      assert bs[..width - 1] == BigEndian(n / 0x100, width - 1);
      assert bs[width - 1] == (n % 0x100) as byte;
    }
  }

  lemma {:induction false} BigEndianOfNumber(bs: seq<byte>)
    ensures Number(bs) < Power256(|bs|) && BigEndian(Number(bs), |bs|) == bs
  {
    if bs != [] {
      var n := |bs| - 1;
      BigEndianOfNumber(bs[..n]);
      assert Number(bs) / 0x100 == Number(bs[..n]) && Number(bs) % 0x100 == bs[n] as int;
      assert bs == bs[..n] + [bs[n]];
    }
  }

  // ---------------------------------------------------------------- length-prefixed fields

  /** `_encode_field` */
  function EncodeField(value: seq<byte>): Result<seq<byte>, IdentityError>
  {
    if |value| < Power256(LENGTH_BYTES) then Ok(BigEndian(|value|, LENGTH_BYTES) + value) else Err(FieldTooLong)
  }

  /** Read one field off the front: the field and what follows it. */
  function ReadField(bs: seq<byte>): Option<(seq<byte>, seq<byte>)>
  {
    if |bs| < LENGTH_BYTES then None
    else
      var end := LENGTH_BYTES + Number(bs[..LENGTH_BYTES]);
      if |bs| < end then None else Some((bs[LENGTH_BYTES..end], bs[end..]))
  }

  lemma {:induction false} ReadUndoesEncode(value: seq<byte>, rest: seq<byte>)
    requires EncodeField(value).Ok?
    ensures ReadField(EncodeField(value).value + rest) == Some((value, rest))
  {
    NumberOfBigEndian(|value|, LENGTH_BYTES);
    var bs := EncodeField(value).value + rest;
    assert bs[..LENGTH_BYTES] == BigEndian(|value|, LENGTH_BYTES);
    assert bs[LENGTH_BYTES..LENGTH_BYTES + |value|] == value;
    assert bs[LENGTH_BYTES + |value|..] == rest;
  }

  lemma {:induction false} EncodeUndoesRead(bs: seq<byte>)
    requires ReadField(bs).Some?
    ensures var (value, rest) := ReadField(bs).value;
            EncodeField(value).Ok? && EncodeField(value).value + rest == bs
  {
    BigEndianOfNumber(bs[..LENGTH_BYTES]);
    var end := LENGTH_BYTES + Number(bs[..LENGTH_BYTES]);
    assert bs == bs[..LENGTH_BYTES] + bs[LENGTH_BYTES..end] + bs[end..];
  }

  // ---------------------------------------------------------------- the payload

  const TAG: seq<byte> := [116, 117, 114, 110, 45, 118, 49, 0]

  /** What is hashed for a session and a request. */
  function Payload(session: seq<byte>, request: seq<byte>): Result<seq<byte>, IdentityError>
  {
    match EncodeField(session)
    case Err(e) => Err(e)
    case Ok(s) =>
      match EncodeField(request)
      case Err(e) => Err(e)
      case Ok(r) => Ok(TAG + s + r)
  }

  /** The session and the request that a payload encodes. */
  function ReadPayload(bs: seq<byte>): Option<(seq<byte>, seq<byte>)>
  {
    if |bs| < |TAG| || bs[..|TAG|] != TAG then None
    else
      match ReadField(bs[|TAG|..])
      case None => None
      case Some((session, rest)) =>
        match ReadField(rest)
        case None => None
        case Some((request, end)) => if end == [] then Some((session, request)) else None
  }

  /** The payload decodes to the pair it was made from. */
  lemma {:induction false} ReadPayloadUndoesPayload(session: seq<byte>, request: seq<byte>)
    requires Payload(session, request).Ok?
    ensures ReadPayload(Payload(session, request).value) == Some((session, request))
  {
    var s, r := EncodeField(session).value, EncodeField(request).value;
    var bs := TAG + s + r;
    assert bs[..|TAG|] == TAG && bs[|TAG|..] == s + r;
    ReadUndoesEncode(session, r);
    ReadUndoesEncode(request, []);
    assert r + [] == r;
  }

  /** Only payloads decode: there is exactly one payload for each pair. */
  lemma {:induction false} PayloadUndoesReadPayload(bs: seq<byte>)
    requires ReadPayload(bs).Some?
    ensures Payload(ReadPayload(bs).value.0, ReadPayload(bs).value.1) == Ok(bs)
  {
    var (session, rest) := ReadField(bs[|TAG|..]).value;
    EncodeUndoesRead(bs[|TAG|..]);
    var (request, end) := ReadField(rest).value;
    EncodeUndoesRead(rest);
    assert EncodeField(request).value + [] == EncodeField(request).value;
    assert bs == TAG + bs[|TAG|..];
    assert TAG + (EncodeField(session).value + rest) == TAG + EncodeField(session).value + rest;
  }

  /** `derive_turn_id`, for any hash function. */
  function DeriveTurnId(session: string, request: string, hash: seq<byte> -> string): Result<string, IdentityError>
  {
    if Blank(session) then Err(SessionBlank)
    else if Blank(request) then Err(RequestBlank)
    else
      match Payload(Utf8(session), Utf8(request))
      case Err(e) => Err(e)
      case Ok(payload) => Ok("turn-v1-" + hash(payload))
  }

  /** Two turns get the same identifier only if they are the same turn, or the hash collides on two
      different inputs. */
  lemma {:induction false} SameIdMeansSameTurnOrCollision(
    session: string, request: string, session': string, request': string, hash: seq<byte> -> string)
    requires DeriveTurnId(session, request, hash).Ok? && DeriveTurnId(session', request', hash).Ok?
    ensures var p, q := Payload(Utf8(session), Utf8(request)).value, Payload(Utf8(session'), Utf8(request')).value;
            && (p == q <==> session == session' && request == request')
            && (DeriveTurnId(session, request, hash) == DeriveTurnId(session', request', hash) <==> hash(p) == hash(q))
  {
    var p, q := Payload(Utf8(session), Utf8(request)).value, Payload(Utf8(session'), Utf8(request')).value;
    ReadPayloadUndoesPayload(Utf8(session), Utf8(request));
    ReadPayloadUndoesPayload(Utf8(session'), Utf8(request'));
    if p == q {
      Utf8IsInjective(session, session');
      Utf8IsInjective(request, request');
    }
    assert ("turn-v1-" + hash(p))[8..] == hash(p);
    assert ("turn-v1-" + hash(q))[8..] == hash(q);
  }

  /** An identifier is refused exactly for a blank session, a blank request, or a field whose length does
      not fit in eight bytes. */
  lemma {:induction false} RefusedExactlyWhen(session: string, request: string, hash: seq<byte> -> string)
    ensures DeriveTurnId(session, request, hash).Ok? <==>
              Strip(session) != "" && Strip(request) != ""
              && |Utf8(session)| < Power256(LENGTH_BYTES) && |Utf8(request)| < Power256(LENGTH_BYTES)
    ensures DeriveTurnId(session, request, hash) == Err(SessionBlank) <==> Strip(session) == ""
    ensures DeriveTurnId(session, request, hash) == Err(RequestBlank) <==> Strip(session) != "" && Strip(request) == ""
  {
    StripIsEmptyForBlank(session);
    StripIsEmptyForBlank(request);
  }

  lemma {:induction false} StripIsEmptyForBlank(s: string)
    ensures Strip(s) == "" <==> Blank(s)
  {
    LStripSplits(s);
    RStripSplits(LStrip(s));
  }

  /** Byte `i` of a length is its digit to the base 256, the highest first. */
  lemma {:induction false} BigEndianDigit(n: nat, width: nat, i: nat)
    requires i < width
    ensures BigEndian(n, width)[i] as int == n / Power256(width - 1 - i) % 0x100
  {
    if i == width - 1 {
      assert Power256(0) == 1;
    } else {
      BigEndianDigit(n / 0x100, width - 1, i);
      DivideTwice(n, Power256(width - 2 - i));
    }
  }

  lemma {:induction false} DivideTwice(n: nat, p: nat)
    requires p > 0
    ensures n / 0x100 / p == n / (0x100 * p)
  {
    var q := n / 0x100 / p;
    assert n == 0x100 * (n / 0x100) + n % 0x100;
    assert n / 0x100 == p * q + n / 0x100 % p;
    assert 0x100 * (p * q) <= n < 0x100 * (p * q) + 0x100 * p;
    QuotientIs(n, 0x100 * p, q);
  }

  lemma {:induction false} QuotientIs(n: nat, d: nat, q: nat)
    requires d > 0 && d * q <= n < d * q + d
    ensures n / d == q
  {
    var k := n / d;
    assert n == d * k + n % d;
    SmallerFactor(d, k, q + 1);
    SmallerFactor(d, q, k + 1);
  }

  lemma {:induction false} SmallerFactor(d: nat, a: nat, b: nat)
    requires d > 0
    ensures d * a < d * b <==> a < b
  {
    assert d * (b - a) == d * b - d * a;
  }

  /** Eight bytes give the digits of a length to the base 256, the highest first. */
  predicate GivesLength(bs: seq<byte>, n: nat)
  {
    |bs| == 8 && forall i :: 0 <= i < 8 ==> bs[i] as int == n / Power256(7 - i) % 0x100
  }

  lemma {:induction false} LengthIsGiven(n: nat)
    ensures GivesLength(BigEndian(n, LENGTH_BYTES), n)
  {
    forall i | 0 <= i < 8 ensures BigEndian(n, 8)[i] as int == n / Power256(7 - i) % 0x100 {
      BigEndianDigit(n, 8, i);
    }
  }

  /** What is hashed, byte by byte: the tag `turn-v1` and a zero byte, and for each field eight bytes for its
      length and then its own bytes. */
  lemma {:induction false} PayloadSpelled(session: seq<byte>, request: seq<byte>)
    requires Payload(session, request).Ok?
    ensures var p, n, m := Payload(session, request).value, |session|, |request|;
            && |p| == 24 + n + m
            && (forall i :: 0 <= i < 7 ==> p[i] as int == "turn-v1"[i] as int) && p[7] == 0
            && GivesLength(p[8..16], n) && p[16..16 + n] == session
            && GivesLength(p[16 + n..24 + n], m) && p[24 + n..] == request
  {
    hide GivesLength, BigEndian, Power256;
    var p, n, m := Payload(session, request).value, |session|, |request|;
    LengthIsGiven(n);
    LengthIsGiven(m);
    PayloadParts(TAG, BigEndian(n, 8), session, BigEndian(m, 8), request);
    TagIsText();
  }

  lemma {:induction false} PayloadParts(
    tag: seq<byte>, n: seq<byte>, session: seq<byte>, m: seq<byte>, request: seq<byte>)
    requires |tag| == |n| == |m| == 8
    ensures var p := tag + (n + session) + (m + request);
            && |p| == 24 + |session| + |request| && p[..8] == tag
            && p[8..16] == n && p[16..16 + |session|] == session
            && p[16 + |session|..24 + |session|] == m && p[24 + |session|..] == request
  {
    var p := tag + (n + session) + (m + request);
    assert p == tag + n + (session + m + request);
    Middle(tag, n, session + m + request);
    assert p == tag + n + session + (m + request);
    Middle(tag + n, session, m + request);
    assert p == tag + n + session + m + request;
    Middle(tag + n + session, m, request);
  }

  lemma {:induction false} Middle(a: seq<byte>, b: seq<byte>, c: seq<byte>)
    ensures (a + b + c)[..|a|] == a && (a + b + c)[|a|..|a| + |b|] == b && (a + b + c)[|a| + |b|..] == c
  {
  }

  lemma {:induction false} TagIsText()
    ensures |TAG| == 8 && (forall i :: 0 <= i < 7 ==> TAG[i] as int == "turn-v1"[i] as int) && TAG[7] == 0
  {
  }
}
