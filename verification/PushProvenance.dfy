/**
 Signed Push records: field checks, the signing frame, signing, verification and the key ring.
 SHA-256, Ed25519 and protobuf decoding are parameters; what is assumed of them is named where used.
 */
module PushProvenance {
  import opened Options
  import opened Integers
  import opened Bytes

  const VERSION: nat := 1
  /** "flare.im.push.signed-record.v1" and a NUL. */
  const SIGNING_DOMAIN: Bytes :=
    [0x66, 0x6C, 0x61, 0x72, 0x65, 0x2E, 0x69, 0x6D, 0x2E, 0x70, 0x75, 0x73, 0x68, 0x2E, 0x73, 0x69,
     0x67, 0x6E, 0x65, 0x64, 0x2D, 0x72, 0x65, 0x63, 0x6F, 0x72, 0x64, 0x2E, 0x76, 0x31, 0x00]
  const MAX_WIRE_OVERHEAD: nat := 8 * 1024
  const MAX_PAYLOAD: nat := 10 * 1024 * 1024
  const MAX_TTL: int := 24 * 60 * 60 * 1000
  const MAX_SKEW: int := 30 * 1000

  datatype FieldName =
    | LogicalTopic | LogicalKey | TenantId | ProducerId | KeyId | EventId | PayloadSchema | SourceEventId
    | Times | Payload | PayloadSha | AllowedTopics

  datatype Error =
    | InvalidField(field: FieldName)
    | InvalidKeyWindow | SigningKeyInactive | UnknownKey | DuplicateKey | KeyReuseAcrossProducers
    | TopicNotAllowed | WrongTopic | WrongKey | WrongSchema | NotYetValid | Expired | LifetimeTooLong
    | PayloadTooLarge | DigestMismatch | InvalidSignature | UnsupportedVersion | InvalidWire

  type U32 = n: nat | n < 0x1_0000_0000

  datatype Record = Record(
    version: U32, logicalTopic: string, logicalKey: string, tenantId: string, producerId: string, keyId: string,
    eventId: string, payloadSchema: string, payloadSha: Bytes, issuedAt: I64, expiresAt: I64,
    sourceEventId: string, payload: Bytes, signature: Bytes)

  // Field checks.

  /** Unicode White_Space, which `trim` removes. */
  predicate IsWhite(c: char) {
    var n := c as int;
    || 0x09 <= n <= 0x0D || n == 0x20 || n == 0x85 || n == 0xA0 || n == 0x1680 || 0x2000 <= n <= 0x200A
    || n == 0x2028 || n == 0x2029 || n == 0x202F || n == 0x205F || n == 0x3000
  }

  predicate IsControl(c: char) {
    var n := c as int;
    n <= 0x1F || 0x7F <= n <= 0x9F
  }

  predicate ValidIdentifier(value: string, max: nat) {
    && value != [] && |Utf8(value)| <= max
    && !IsWhite(value[0]) && !IsWhite(value[|value| - 1])
    && (forall i :: 0 <= i < |value| ==> !IsControl(value[i]))
  }

  predicate EndsWithV1(s: string) {
    var n := |s|;
    n >= 3 && s[n - 3] == '.' && s[n - 2] == 'v' && s[n - 1] == '1'
  }

  predicate ValidTopicShape(s: string) {
    '*' !in s && '>' !in s && EndsWithV1(s)
  }

  /** The identifier part of `validate_record_fields`: the first complaint, if any. */
  function NameComplaint(topic: string, key: string, tenant: string, producer: string, keyId: string, event: string,
                         schema: string, source: string): Option<Error>
  {
    if !ValidIdentifier(topic, 256) || !ValidTopicShape(topic) then Some(InvalidField(LogicalTopic))
    else if !ValidIdentifier(key, 512) then Some(InvalidField(LogicalKey))
    else if !ValidIdentifier(tenant, 256) || tenant == "*" then Some(InvalidField(TenantId))
    else if !ValidIdentifier(producer, 256) then Some(InvalidField(ProducerId))
    else if !ValidIdentifier(keyId, 128) then Some(InvalidField(KeyId))
    else if !ValidIdentifier(event, 256) then Some(InvalidField(EventId))
    else if !ValidIdentifier(schema, 256) then Some(InvalidField(PayloadSchema))
    else if source != [] && !ValidIdentifier(source, 256) then Some(InvalidField(SourceEventId))
    else None
  }

  /** `validate_record_fields`. */
  function Complaint(r: Record): Option<Error> {
    var names := NameComplaint(r.logicalTopic, r.logicalKey, r.tenantId, r.producerId, r.keyId, r.eventId,
                               r.payloadSchema, r.sourceEventId);
    if r.version != VERSION then Some(UnsupportedVersion)
    else if names.Some? then names
    else if r.issuedAt <= 0 || r.expiresAt <= 0 then Some(InvalidField(Times))
    else if |r.payload| > MAX_PAYLOAD then Some(PayloadTooLarge)
    else if r.payload == [] then Some(InvalidField(Payload))
    else if |r.payloadSha| != 32 then Some(InvalidField(PayloadSha))
    else if r.signature != [] && |r.signature| != 64 then Some(InvalidSignature)
    else None
  }

  /** The byte lengths the field checks allow. */
  predicate WithinLimits(r: Record) {
    && |Utf8(r.logicalTopic)| <= 256 && |Utf8(r.logicalKey)| <= 512 && |Utf8(r.tenantId)| <= 256
    && |Utf8(r.producerId)| <= 256 && |Utf8(r.keyId)| <= 128 && |Utf8(r.eventId)| <= 256
    && |Utf8(r.payloadSchema)| <= 256 && |Utf8(r.sourceEventId)| <= 256
    && |r.payloadSha| == 32 && |r.payload| <= MAX_PAYLOAD && |r.signature| <= 64
  }

  lemma AcceptableLengths(r: Record)
    requires Complaint(r) == None
    ensures WithinLimits(r)
  {
    assert r.sourceEventId == [] || ValidIdentifier(r.sourceEventId, 256);
  }

  // The signing frame.

  function FramedFields(r: Record): (vs: seq<Bytes>)
    ensures |vs| == 9
  {
    [Utf8(r.logicalTopic), Utf8(r.logicalKey), Utf8(r.tenantId), Utf8(r.producerId), Utf8(r.keyId),
     Utf8(r.eventId), Utf8(r.payloadSchema), r.payloadSha, Utf8(r.sourceEventId)]
  }

  function Trailer(r: Record): (b: Bytes)
    ensures |b| == 24
  {
    BigEndian(TwosComplement(r.issuedAt), 8) + BigEndian(TwosComplement(r.expiresAt), 8) + BigEndian(|r.payload|, 8)
  }

  function Frame(r: Record): Bytes {
    SIGNING_DOMAIN + (BigEndian(r.version, 4) + (Fields(FramedFields(r), 4) + Trailer(r)))
  }

  lemma Regroup(a: Bytes, b: Bytes, c: Bytes, d: Bytes, e: Bytes, f: Bytes)
    ensures a + b + c + d + e + f == a + (b + (c + (d + e + f)))
  {
  }

  /** `signing_frame`: the buffer filled part by part. */
  method SigningFrame(r: Record) returns (frame: Bytes)
    ensures frame == Frame(r)
  {
    var domain, version := SIGNING_DOMAIN, BigEndian(r.version, 4);
    var issued, expires := BigEndian(TwosComplement(r.issuedAt), 8), BigEndian(TwosComplement(r.expiresAt), 8);
    var length := BigEndian(|r.payload|, 8);
    frame := AppendFields(domain + version, FramedFields(r), 4);
    frame := frame + issued;
    frame := frame + expires;
    frame := frame + length;
    Regroup(domain, version, Fields(FramedFields(r), 4), issued, expires, length);
  }

  /** Every framed length fits its four bytes, and the payload length its eight. */
  ghost predicate FitsFrame(r: Record) {
    && (forall i :: 0 <= i < 9 ==> |FramedFields(r)[i]| < 0x1_0000_0000)
    && |r.payload| < TWO_64
  }

  /** Agreement on everything the frame covers. */
  ghost predicate SameFramed(a: Record, b: Record) {
    a.(payload := [], signature := []) == b.(payload := [], signature := []) && |a.payload| == |b.payload|
  }

  lemma SplitEqual(a: Bytes, b: Bytes, x: Bytes, y: Bytes)
    requires |a| == |b| && a + x == b + y
    ensures a == b && x == y
  {
    assert a == (a + x)[..|a|] && b == (b + y)[..|b|];
    assert x == (a + x)[|a|..] && y == (b + y)[|b|..];
  }

  lemma TrailerInjective(a: Record, b: Record)
    requires Trailer(a) == Trailer(b) && |a.payload| < TWO_64 && |b.payload| < TWO_64
    ensures a.issuedAt == b.issuedAt && a.expiresAt == b.expiresAt && |a.payload| == |b.payload|
  {
    PowersOf256();
    var ta, tb := BigEndian(TwosComplement(a.issuedAt), 8), BigEndian(TwosComplement(b.issuedAt), 8);
    var ea, eb := BigEndian(TwosComplement(a.expiresAt), 8), BigEndian(TwosComplement(b.expiresAt), 8);
    SplitEqual(ta + ea, tb + eb, BigEndian(|a.payload|, 8), BigEndian(|b.payload|, 8));
    SplitEqual(ta, tb, ea, eb);
    TwosComplementBytes(a.issuedAt, b.issuedAt);
    TwosComplementBytes(a.expiresAt, b.expiresAt);
    BigEndianInjective(|a.payload|, |b.payload|, 8);
  }

  lemma FramedFieldsInjective(a: Record, b: Record)
    requires FramedFields(a) == FramedFields(b)
    ensures a.logicalTopic == b.logicalTopic && a.logicalKey == b.logicalKey && a.tenantId == b.tenantId
    ensures a.producerId == b.producerId && a.keyId == b.keyId && a.eventId == b.eventId
    ensures a.payloadSchema == b.payloadSchema && a.payloadSha == b.payloadSha && a.sourceEventId == b.sourceEventId
  {
    var f, g := FramedFields(a), FramedFields(b);
    assert forall i :: 0 <= i < 9 ==> f[i] == g[i];
    Utf8Injective(a.logicalTopic, b.logicalTopic);
    Utf8Injective(a.logicalKey, b.logicalKey);
    Utf8Injective(a.tenantId, b.tenantId);
    Utf8Injective(a.producerId, b.producerId);
    Utf8Injective(a.keyId, b.keyId);
    Utf8Injective(a.eventId, b.eventId);
    Utf8Injective(a.payloadSchema, b.payloadSchema);
    Utf8Injective(a.sourceEventId, b.sourceEventId);
  }

  /** Records with equal frames agree on version, identifiers, digest, both times and payload length. */
  lemma FrameInjective(a: Record, b: Record)
    requires FitsFrame(a) && FitsFrame(b) && Frame(a) == Frame(b)
    ensures SameFramed(a, b)
  {
    PowersOf256();
    var d := SIGNING_DOMAIN;
    var fa, fb := FramedFields(a), FramedFields(b);
    var xa, xb := Fields(fa, 4) + Trailer(a), Fields(fb, 4) + Trailer(b);
    SplitEqual(d, d, BigEndian(a.version, 4) + xa, BigEndian(b.version, 4) + xb);
    SplitEqual(BigEndian(a.version, 4), BigEndian(b.version, 4), xa, xb);
    BigEndianInjective(a.version, b.version, 4);
    FieldsInjective(fa, fb, 4, Trailer(a), Trailer(b));
    FramedFieldsInjective(a, b);
    TrailerInjective(a, b);
  }

  lemma LimitsFit(r: Record)
    requires WithinLimits(r)
    ensures FitsFrame(r)
  {
    var f := FramedFields(r);
    assert |f[0]| <= 512 && |f[1]| <= 512 && |f[2]| <= 512 && |f[3]| <= 512 && |f[4]| <= 512;
    assert |f[5]| <= 512 && |f[6]| <= 512 && |f[7]| <= 512 && |f[8]| <= 512;
  }

  lemma AcceptableFits(r: Record)
    requires Complaint(r) == None
    ensures FitsFrame(r)
  {
    AcceptableLengths(r);
    LimitsFit(r);
  }
}
