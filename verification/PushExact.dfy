/**
 What signing, verification and the key ring decide, said from the values they are given: exactly
 when each succeeds, what it then produces, and which refusal each failing check gets.
 */
module PushExact {
  import opened Options
  import opened Integers
  import opened Bytes
  import opened PushProvenance
  import opened PushRecords

  // Field checks.

  /** The code points `trim` removes. */
  const WHITE: set<int> :=
    {9, 10, 11, 12, 13, 32, 133, 160, 5760, 8192, 8193, 8194, 8195, 8196, 8197, 8198, 8199, 8200, 8201, 8202,
     8232, 8233, 8239, 8287, 12288}

  lemma WhiteIff(c: char)
    ensures IsWhite(c) <==> c as int in WHITE
  {
  }

  /** A name of one to `max` bytes, without control characters and not to be trimmed. */
  ghost predicate Name(value: string, max: nat) {
    && 1 <= |Utf8(value)| <= max
    && (value != [] ==> value[0] as int !in WHITE && value[|value| - 1] as int !in WHITE)
    && (forall i :: 0 <= i < |value| ==> 32 <= value[i] as int < 127 || 160 <= value[i] as int)
  }

  lemma NameIff(value: string, max: nat)
    ensures ValidIdentifier(value, max) <==> Name(value, max)
  {
    if value != [] {
      WhiteIff(value[0]);
      WhiteIff(value[|value| - 1]);
    }
  }

  ghost predicate Topic(value: string) {
    && Name(value, 256) && '*' !in value && '>' !in value
    && |value| >= 3 && value[|value| - 3..] == ".v1"
  }

  lemma TopicIff(value: string)
    ensures ValidIdentifier(value, 256) && ValidTopicShape(value) <==> Topic(value)
  {
    NameIff(value, 256);
    var n := |value|;
    if n >= 3 {
      var last, v1 := value[n - 3..], ".v1";
      assert last[0] == value[n - 3] && last[1] == value[n - 2] && last[2] == value[n - 1];
      assert v1[0] == '.' && v1[1] == 'v' && v1[2] == '1';
      assert EndsWithV1(value) <==> last == v1;
    }
  }

  ghost predicate Tenant(value: string) {
    Name(value, 256) && value != "*"
  }

  /** The optional source event. */
  ghost predicate Source(value: string) {
    value == [] || Name(value, 256)
  }

  /** Each bad name gets its own complaint, and the first bad one in this order gets it. */
  lemma NameReasons(topic: string, key: string, tenant: string, producer: string, keyId: string, event: string,
                    schema: string, source: string)
    ensures NameComplaint(topic, key, tenant, producer, keyId, event, schema, source) ==
      if !Topic(topic) then Some(InvalidField(LogicalTopic))
      else if !Name(key, 512) then Some(InvalidField(LogicalKey))
      else if !Tenant(tenant) then Some(InvalidField(TenantId))
      else if !Name(producer, 256) then Some(InvalidField(ProducerId))
      else if !Name(keyId, 128) then Some(InvalidField(KeyId))
      else if !Name(event, 256) then Some(InvalidField(EventId))
      else if !Name(schema, 256) then Some(InvalidField(PayloadSchema))
      else if !Source(source) then Some(InvalidField(SourceEventId))
      else None
  {
    TopicIff(topic);
    NameIff(key, 512);
    NameIff(tenant, 256);
    NameIff(producer, 256);
    NameIff(keyId, 128);
    NameIff(event, 256);
    NameIff(schema, 256);
    NameIff(source, 256);
  }

  ghost predicate Named(r: Record) {
    && Topic(r.logicalTopic) && Name(r.logicalKey, 512) && Tenant(r.tenantId) && Name(r.producerId, 256)
    && Name(r.keyId, 128) && Name(r.eventId, 256) && Name(r.payloadSchema, 256) && Source(r.sourceEventId)
  }

  /** A record passes the field checks iff every field is as it should be. */
  ghost predicate Sound(r: Record) {
    && r.version == 1 && Named(r) && r.issuedAt > 0 && r.expiresAt > 0
    && 1 <= |r.payload| <= 10_485_760 && |r.payloadSha| == 32 && |r.signature| in {0, 64}
  }

  lemma SoundIff(r: Record)
    ensures Complaint(r) == None <==> Sound(r)
  {
    NamedIff(r);
  }

  function NamesOf(r: Record): Option<Error> {
    NameComplaint(r.logicalTopic, r.logicalKey, r.tenantId, r.producerId, r.keyId, r.eventId, r.payloadSchema, r.sourceEventId)
  }

  lemma NamedIff(r: Record)
    ensures NamesOf(r) == None <==> Named(r)
    ensures NamesOf(r).Some? ==> NamesOf(r).value.InvalidField?
  {
    NameReasons(r.logicalTopic, r.logicalKey, r.tenantId, r.producerId, r.keyId, r.eventId, r.payloadSchema, r.sourceEventId);
  }

  /** Which complaint a record gets: that of the first check it fails. */
  lemma ComplaintReasons(r: Record)
    ensures var c := Complaint(r);
      && (r.version != 1 ==> c == Some(UnsupportedVersion))
      && (r.version == 1 && !Named(r) ==> c.Some? && c.value.InvalidField?)
      && (r.version == 1 && Named(r) && (r.issuedAt <= 0 || r.expiresAt <= 0) ==> c == Some(InvalidField(Times)))
    ensures r.version == 1 && Named(r) && r.issuedAt > 0 && r.expiresAt > 0 ==>
      var c := Complaint(r);
      && (|r.payload| > 10_485_760 ==> c == Some(PayloadTooLarge))
      && (|r.payload| == 0 ==> c == Some(InvalidField(Payload)))
      && (1 <= |r.payload| <= 10_485_760 && |r.payloadSha| != 32 ==> c == Some(InvalidField(PayloadSha)))
      && (1 <= |r.payload| <= 10_485_760 && |r.payloadSha| == 32 && |r.signature| !in {0, 64} ==> c == Some(InvalidSignature))
  {
    NamedIff(r);
  }

  // The frame.

  /** The domain is the ASCII of its name, and a NUL. */
  lemma DomainSpells(name: string)
    requires name == "flare.im.push.signed-record.v1"
    ensures |SIGNING_DOMAIN| == |name| + 1 && SIGNING_DOMAIN[|name|] == 0
    ensures forall i :: 0 <= i < |name| ==> SIGNING_DOMAIN[i] == name[i] as int
  {
  }

  /** The bytes to be signed, written out. */
  lemma FrameLayout(r: Record)
    ensures Frame(r) ==
      SIGNING_DOMAIN + (BigEndian(r.version, 4)
      + ((Field(Utf8(r.logicalTopic), 4) + (Field(Utf8(r.logicalKey), 4) + (Field(Utf8(r.tenantId), 4)
      + (Field(Utf8(r.producerId), 4) + (Field(Utf8(r.keyId), 4) + (Field(Utf8(r.eventId), 4)
      + (Field(Utf8(r.payloadSchema), 4) + (Field(r.payloadSha, 4) + Field(Utf8(r.sourceEventId), 4)))))))))
      + (BigEndian(TwosComplement(r.issuedAt), 8) + BigEndian(TwosComplement(r.expiresAt), 8) + BigEndian(|r.payload|, 8))))
  {
    var w := 4;
    NineFields(Utf8(r.logicalTopic), Utf8(r.logicalKey), Utf8(r.tenantId), Utf8(r.producerId), Utf8(r.keyId),
               Utf8(r.eventId), Utf8(r.payloadSchema), r.payloadSha, Utf8(r.sourceEventId), w);
  }

  lemma OneField(v: Bytes, rest: seq<Bytes>, w: nat)
    ensures Fields([v] + rest, w) == Field(v, w) + Fields(rest, w)
  {
    assert ([v] + rest)[0] == v && ([v] + rest)[1..] == rest;
  }

  lemma ThreeFields(a: Bytes, b: Bytes, c: Bytes, rest: seq<Bytes>, w: nat)
    ensures Fields([a, b, c] + rest, w) == Field(a, w) + (Field(b, w) + (Field(c, w) + Fields(rest, w)))
  {
    OneField(c, rest, w);
    OneField(b, [c] + rest, w);
    OneField(a, [b] + ([c] + rest), w);
    assert [a, b, c] + rest == [a] + ([b] + ([c] + rest));
  }

  lemma NineFields(a: Bytes, b: Bytes, c: Bytes, d: Bytes, e: Bytes, f: Bytes, g: Bytes, h: Bytes, i: Bytes, w: nat)
    ensures Fields([a, b, c, d, e, f, g, h, i], w) ==
      Field(a, w) + (Field(b, w) + (Field(c, w) + (Field(d, w) + (Field(e, w) + (Field(f, w)
      + (Field(g, w) + (Field(h, w) + Field(i, w))))))))
  {
    var none: seq<Bytes> := [];
    ThreeFields(g, h, i, none, w);
    assert [g, h, i] + none == [g, h, i];
    assert Field(i, w) + Fields(none, w) == Field(i, w);
    ThreeFields(d, e, f, [g, h, i], w);
    ThreeFields(a, b, c, [d, e, f] + [g, h, i], w);
    assert [a, b, c] + ([d, e, f] + [g, h, i]) == [a, b, c, d, e, f, g, h, i];
  }

  // Signing.

  /** The record carries what the caller gave, under the signer's names, and is signed over its frame. */
  lemma SignedCarriesInput(x: Foreign, s: Signer, input: Input, ttl: I64, issuedAt: I64)
    requires SignAt(x, s, input, ttl, issuedAt).Ok?
    ensures var r := SignAt(x, s, input, ttl, issuedAt).value;
      && r.version == 1 && r.logicalTopic == input.topic && r.logicalKey == input.logicalKey
      && r.tenantId == input.tenantId && r.eventId == input.eventId && r.payloadSchema == input.schema
      && r.payload == input.payload && r.payloadSha == x.sha(input.payload)
      && (match input.sourceEventId case Some(e) => r.sourceEventId == e case None => r.sourceEventId == "")
      && r.producerId == s.producerId && r.keyId == s.keyId
      && r.issuedAt == issuedAt && r.expiresAt == issuedAt + ttl
      && r.signature == x.sign(s.key, Frame(r))
  {
    var u := Unsigned(x, s, input, issuedAt, issuedAt + ttl);
    assert FramedFields(u.(signature := x.sign(s.key, Frame(u)))) == FramedFields(u);
  }

  /** What a caller may ask of a signer. */
  ghost predicate GoodInput(x: Foreign, s: Signer, input: Input) {
    && Topic(input.topic) && Name(input.logicalKey, 512) && Tenant(input.tenantId) && Name(s.producerId, 256)
    && Name(s.keyId, 128) && Name(input.eventId, 256) && Name(input.schema, 256)
    && (input.sourceEventId.Some? ==> Source(input.sourceEventId.value))
    && 1 <= |input.payload| <= 10_485_760 && |x.sha(input.payload)| == 32
  }

  lemma UnsignedSound(x: Foreign, s: Signer, input: Input, ttl: I64, issuedAt: I64)
    requires ttl > 0 && issuedAt + ttl <= I64_MAX
    ensures Complaint(Unsigned(x, s, input, issuedAt, issuedAt + ttl)) == None <==> GoodInput(x, s, input) && issuedAt > 0
  {
    SoundIff(Unsigned(x, s, input, issuedAt, issuedAt + ttl));
  }

  /** Which of the checks on topic, window and lifetime refuses: the first that fails. */
  lemma SignerReasons(s: Signer, topic: string, ttl: I64, issuedAt: I64)
    ensures var e := SignerError(s, topic, ttl, issuedAt);
      var allowed := topic in s.allowedTopics;
      var active := s.window.signingFrom <= issuedAt <= s.window.signingUntil;
      var short := 1 <= ttl <= 86_400_000 && issuedAt + ttl <= 0x7FFF_FFFF_FFFF_FFFF;
      var covered := issuedAt + ttl <= s.window.verifyUntil;
      && (e == Some(TopicNotAllowed) <==> !allowed)
      && (e == Some(SigningKeyInactive) <==> allowed && !active)
      && (e == Some(LifetimeTooLong) <==> allowed && active && !short)
      && (e == Some(InvalidKeyWindow) <==> allowed && active && short && !covered)
      && (e == None <==> allowed && active && short && covered)
  {
  }

  /** Exactly when signing succeeds; the signer's checks refuse before those of the fields. */
  lemma SignSucceedsIff(x: Foreign, s: Signer, input: Input, ttl: I64, issuedAt: I64)
    ensures var v, e := SignAt(x, s, input, ttl, issuedAt), SignerError(s, input.topic, ttl, issuedAt);
      && (v.Ok? <==> e == None && GoodInput(x, s, input) && issuedAt > 0)
      && (e.Some? ==> v == Err(e.value))
  {
    SignerReasons(s, input.topic, ttl, issuedAt);
    if SignerError(s, input.topic, ttl, issuedAt) == None {
      UnsignedSound(x, s, input, ttl, issuedAt);
    }
  }

  // Verification.

  /** The bytes are the canonical encoding of the record, under the cap. */
  ghost predicate Canonical(x: Foreign, wire: Bytes, r: Record) {
    |wire| <= 10_493_952 && x.decode(wire) == Some(r) && x.encode(r) == wire
  }

  /** The record is for this topic, key and schema. */
  ghost predicate Addressed(r: Record, topic: string, brokerKey: Option<string>, schema: string) {
    r.logicalTopic == topic && brokerKey == Some(r.logicalKey) && r.payloadSchema == schema
  }

  ghost predicate InTime(r: Record, now: I64) {
    0 < r.expiresAt - r.issuedAt <= 86_400_000 && r.issuedAt - 30_000 <= now < r.expiresAt
  }

  /** The ring holds a policy under the record's names that permits its topic and covers its times. */
  ghost predicate Permitted(keys: Keys, r: Record, now: I64) {
    && (r.producerId, r.keyId) in keys
    && var p := keys[(r.producerId, r.keyId)];
    && r.logicalTopic in p.allowedTopics
    && p.window.signingFrom <= r.issuedAt <= p.window.signingUntil && now <= p.window.verifyUntil
  }

  ghost predicate Genuine(x: Foreign, keys: Keys, r: Record) {
    && r.payloadSha == x.sha(r.payload) && |r.signature| == 64
    && (r.producerId, r.keyId) in keys && x.verify(keys[(r.producerId, r.keyId)].key, Frame(r), r.signature)
  }

  lemma EnvelopeIff(keys: Keys, r: Record, topic: string, brokerKey: Option<string>, schema: string, now: I64)
    ensures EnvelopeError(Lookup(keys, (r.producerId, r.keyId)), r, topic, brokerKey, schema, now) == None <==>
      Addressed(r, topic, brokerKey, schema) && InTime(r, now) && Permitted(keys, r, now)
  {
  }

  /** Exactly which bytes are accepted. */
  lemma VerifyAcceptsIff(x: Foreign, keys: Keys, wire: Bytes, topic: string, brokerKey: Option<string>, schema: string,
                         now: I64, r: Record)
    ensures VerifyAt(x, keys, wire, topic, brokerKey, schema, now) == Ok(r) <==>
      && Canonical(x, wire, r) && Sound(r) && Addressed(r, topic, brokerKey, schema) && InTime(r, now)
      && Permitted(keys, r, now) && Genuine(x, keys, r)
  {
    RecordAcceptedIff(x, keys, r, topic, brokerKey, schema, now);
  }

  lemma RecordAcceptedIff(x: Foreign, keys: Keys, r: Record, topic: string, brokerKey: Option<string>, schema: string, now: I64)
    ensures RecordError(x, Lookup(keys, (r.producerId, r.keyId)), r, topic, brokerKey, schema, now) == None <==>
      && Sound(r) && Addressed(r, topic, brokerKey, schema) && InTime(r, now)
      && Permitted(keys, r, now) && Genuine(x, keys, r)
  {
    SoundIff(r);
    EnvelopeIff(keys, r, topic, brokerKey, schema, now);
  }

  /** Which refusal a canonical, sound record gets: that of the first check it fails. */
  lemma EnvelopeReasons(keys: Keys, r: Record, topic: string, brokerKey: Option<string>, schema: string, now: I64)
    ensures var id := (r.producerId, r.keyId);
      EnvelopeError(Lookup(keys, id), r, topic, brokerKey, schema, now) ==
        if r.logicalTopic != topic then Some(WrongTopic)
        else if brokerKey == None || brokerKey.value != r.logicalKey then Some(WrongKey)
        else if r.payloadSchema != schema then Some(WrongSchema)
        else if !(1 <= r.expiresAt - r.issuedAt <= 86_400_000) then Some(LifetimeTooLong)
        else if now < r.issuedAt - 30_000 then Some(NotYetValid)
        else if r.expiresAt <= now then Some(Expired)
        else if id !in keys then Some(UnknownKey)
        else if r.logicalTopic !in keys[id].allowedTopics then Some(TopicNotAllowed)
        else if !Permitted(keys, r, now) then Some(SigningKeyInactive)
        else None
  {
  }

  /** Which refusal any bytes get. */
  lemma VerifyReasons(x: Foreign, keys: Keys, wire: Bytes, topic: string, brokerKey: Option<string>, schema: string, now: I64)
    ensures var v := VerifyAt(x, keys, wire, topic, brokerKey, schema, now);
      && (|wire| > 10_493_952 ==> v == Err(PayloadTooLarge))
      && (|wire| <= 10_493_952 && (x.decode(wire) == None || x.encode(x.decode(wire).value) != wire) ==> v == Err(InvalidWire))
    ensures var v := VerifyAt(x, keys, wire, topic, brokerKey, schema, now);
      forall r :: Canonical(x, wire, r) ==>
        var envelope := EnvelopeError(Lookup(keys, (r.producerId, r.keyId)), r, topic, brokerKey, schema, now);
        && (!Sound(r) ==> v.Err? && Some(v.error) == Complaint(r))
        && (Sound(r) && envelope.Some? ==> v == Err(envelope.value))
        && (Sound(r) && envelope == None && r.payloadSha != x.sha(r.payload) ==> v == Err(DigestMismatch))
        && (Sound(r) && envelope == None && r.payloadSha == x.sha(r.payload) && !Genuine(x, keys, r) ==>
              v == Err(InvalidSignature))
  {
    forall r | Canonical(x, wire, r) ensures Complaint(r) == None <==> Sound(r) {
      SoundIff(r);
    }
  }

  // The key ring.

  /** Topics are accepted iff there is one and each is well formed, and then as exactly that set. */
  lemma {:induction false} TopicsAcceptedIff(topics: seq<string>)
    ensures CheckedTopics(topics).Ok? <==> topics != [] && forall i :: 0 <= i < |topics| ==> Topic(topics[i])
    ensures CheckedTopics(topics).Ok? ==> forall t :: t in CheckedTopics(topics).value <==> t in topics
  {
    GoodTopics(topics);
  }

  lemma ComplaintIff(topic: string)
    ensures TopicComplaint(topic) == None <==> Topic(topic)
  {
    TopicIff(topic);
  }

  lemma {:induction false} GoodTopics(topics: seq<string>)
    ensures BadTopic(topics) == None <==> forall i :: 0 <= i < |topics| ==> Topic(topics[i])
    decreases |topics|
  {
    if topics != [] {
      var first, rest := topics[0], topics[1..];
      ComplaintIff(first);
      GoodTopics(rest);
      AllTopics(first, rest, topics);
    }
  }

  lemma AllTopics(first: string, rest: seq<string>, topics: seq<string>)
    requires topics == [first] + rest
    ensures (forall i :: 0 <= i < |topics| ==> Topic(topics[i])) <==> Topic(first) && forall i :: 0 <= i < |rest| ==> Topic(rest[i])
  {
    if forall i :: 0 <= i < |topics| ==> Topic(topics[i]) {
      forall i | 0 <= i < |rest| ensures Topic(rest[i]) {
        assert rest[i] == topics[i + 1];
      }
      assert topics[0] == first;
    }
  }

  /** An add succeeds iff its names and topics are good, the identity is free, and no other producer holds the key. */
  lemma AddSucceedsIff(keys: Keys, c: Change)
    requires c.Add?
    ensures AddError(keys, c) == None <==>
      && Name(c.producer, 256) && Name(c.keyId, 128)
      && c.topics != [] && (forall i :: 0 <= i < |c.topics| ==> Topic(c.topics[i]))
      && (c.producer, c.keyId) !in keys
      && (forall id :: id in keys && keys[id].key == c.key ==> id.0 == c.producer)
  {
    NameIff(c.producer, 256);
    NameIff(c.keyId, 128);
    TopicsAcceptedIff(c.topics);
  }

  /** The complaint about a topic list is that about its first bad topic. */
  lemma {:induction false} BadTopicReason(topics: seq<string>, k: nat)
    requires k < |topics| && !Topic(topics[k]) && forall i :: 0 <= i < k ==> Topic(topics[i])
    ensures CheckedTopics(topics) ==
      Err(if !Name(topics[k], 256) then InvalidField(LogicalTopic) else InvalidField(AllowedTopics))
    decreases k
  {
    TopicIff(topics[0]);
    NameIff(topics[0], 256);
    if k > 0 {
      assert topics[1..][k - 1] == topics[k];
      BadTopicReason(topics[1..], k - 1);
    }
  }

  /** Which refusal an add gets: that of the first check it fails. */
  lemma AddReasons(keys: Keys, c: Change)
    requires c.Add?
    ensures AddError(keys, c) ==
      if !Name(c.producer, 256) then Some(InvalidField(ProducerId))
      else if !Name(c.keyId, 128) then Some(InvalidField(KeyId))
      else if CheckedTopics(c.topics).Err? then Some(CheckedTopics(c.topics).error)
      else if (c.producer, c.keyId) in keys then Some(DuplicateKey)
      else if exists id :: id in keys && id.0 != c.producer && keys[id].key == c.key then Some(KeyReuseAcrossProducers)
      else None
  {
    NameIff(c.producer, 256);
    NameIff(c.keyId, 128);
  }

  /** What a successful add puts in the ring, and that it touches nothing else. */
  lemma AddPuts(keys: Keys, c: Change)
    requires c.Add? && AddError(keys, c) == None
    ensures var keys', id := Changed(keys, c), (c.producer, c.keyId);
      && keys'.Keys == keys.Keys + {id} && (forall other :: other in keys ==> keys'[other] == keys[other])
      && keys'[id].key == c.key && keys'[id].window == c.window
      && (forall t :: t in keys'[id].allowedTopics <==> t in c.topics)
  {
    TopicsAcceptedIff(c.topics);
  }

  /** A registered policy is never overwritten: until its identity is revoked it stays what it was. */
  lemma {:induction false} PolicyStays(keys: Keys, cs: seq<Change>, id: (string, string))
    requires id in keys && forall i :: 0 <= i < |cs| ==> !(cs[i].Revoke? && cs[i].Identity() == id)
    ensures Lookup(AfterChanges(keys, cs), id) == Some(keys[id])
    decreases |cs|
  {
    if cs != [] {
      var c := cs[0];
      assert !(c.Revoke? && c.Identity() == id);
      if c.Add? && AddError(keys, c) == None {
        AddPuts(keys, c);
      }
      assert Lookup(Changed(keys, c), id) == Some(keys[id]);
      PolicyStays(Changed(keys, c), cs[1..], id);
    }
  }
}
