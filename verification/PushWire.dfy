/** The canonical protobuf encoding of a record, for any numbering of its fields. */
module PushWire {
  import opened Options
  import opened Bytes
  import opened PushProvenance

  /** A proto3 field of length-delimited type, omitted when empty. */
  function Delimited(number: nat, b: Bytes): Bytes {
    if b == [] then [] else Varint(8 * number + 2) + Varint(|b|) + b
  }

  /** A proto3 varint field, omitted when zero. */
  function Scalar(number: nat, n: nat): Bytes {
    if n == 0 then [] else Varint(8 * number) + Varint(n)
  }

  predicate ValidNumbers(numbers: seq<nat>) {
    |numbers| == 14 && forall i :: 0 <= i < 14 ==> numbers[i] < 0x2000_0000
  }

  /** The canonical encoding, in the order of the record's fields. */
  function Encode(numbers: seq<nat>, r: Record): Bytes
    requires ValidNumbers(numbers)
  {
    EncodeNames(numbers, r) + EncodeRest(numbers, r)
  }

  function EncodeNames(numbers: seq<nat>, r: Record): Bytes
    requires ValidNumbers(numbers)
  {
    Scalar(numbers[0], r.version)
    + Delimited(numbers[1], Utf8(r.logicalTopic)) + Delimited(numbers[2], Utf8(r.logicalKey))
    + Delimited(numbers[3], Utf8(r.tenantId)) + Delimited(numbers[4], Utf8(r.producerId))
    + Delimited(numbers[5], Utf8(r.keyId)) + Delimited(numbers[6], Utf8(r.eventId))
  }

  function EncodeRest(numbers: seq<nat>, r: Record): Bytes
    requires ValidNumbers(numbers)
  {
    Delimited(numbers[7], Utf8(r.payloadSchema)) + Delimited(numbers[8], r.payloadSha)
    + Scalar(numbers[9], TwosComplement(r.issuedAt)) + Scalar(numbers[10], TwosComplement(r.expiresAt))
    + Delimited(numbers[11], Utf8(r.sourceEventId)) + Delimited(numbers[12], r.payload)
    + Delimited(numbers[13], r.signature)
  }

  lemma DelimitedLength(number: nat, b: Bytes)
    requires number < 0x2000_0000 && |b| < 0x1_0000_0000
    ensures |Delimited(number, b)| <= 10 + |b|
  {
    assert Pow128(5) == 128 * 128 * 128 * 128 * Pow128(1);
    VarintLength(8 * number + 2, 5);
    VarintLength(|b|, 5);
  }

  lemma ScalarLength(number: nat, n: nat)
    requires number < 0x2000_0000 && n < TWO_64
    ensures |Scalar(number, n)| <= 15
  {
    assert Pow128(5) == 128 * 128 * 128 * 128 * Pow128(1);
    assert Pow128(10) == 128 * 128 * 128 * 128 * 128 * Pow128(5);
    VarintLength(8 * number, 5);
    VarintLength(n, 10);
  }

  lemma NamesLength(numbers: seq<nat>, r: Record)
    requires ValidNumbers(numbers) && WithinLimits(r)
    ensures |EncodeNames(numbers, r)| <= 75 + 256 + 512 + 256 + 256 + 128 + 256
  {
    ScalarLength(numbers[0], r.version);
    DelimitedLength(numbers[1], Utf8(r.logicalTopic));
    DelimitedLength(numbers[2], Utf8(r.logicalKey));
    DelimitedLength(numbers[3], Utf8(r.tenantId));
    DelimitedLength(numbers[4], Utf8(r.producerId));
    DelimitedLength(numbers[5], Utf8(r.keyId));
    DelimitedLength(numbers[6], Utf8(r.eventId));
  }

  lemma RestLength(numbers: seq<nat>, r: Record)
    requires ValidNumbers(numbers) && WithinLimits(r)
    ensures |EncodeRest(numbers, r)| <= 80 + 256 + 32 + 256 + |r.payload| + 64
  {
    DelimitedLength(numbers[7], Utf8(r.payloadSchema));
    DelimitedLength(numbers[8], r.payloadSha);
    ScalarLength(numbers[9], TwosComplement(r.issuedAt));
    ScalarLength(numbers[10], TwosComplement(r.expiresAt));
    DelimitedLength(numbers[11], Utf8(r.sourceEventId));
    DelimitedLength(numbers[12], r.payload);
    DelimitedLength(numbers[13], r.signature);
  }

  /** The field limits keep every acceptable record's encoding under the wire cap, whatever its field numbers. */
  lemma EncodingUnderCap(numbers: seq<nat>, r: Record)
    requires ValidNumbers(numbers) && Complaint(r) == None
    ensures |Encode(numbers, r)| <= MAX_PAYLOAD + MAX_WIRE_OVERHEAD
  {
    AcceptableLengths(r);
    NamesLength(numbers, r);
    RestLength(numbers, r);
  }
}
