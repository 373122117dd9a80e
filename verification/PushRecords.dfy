/** Signing and verifying Push records, and the key ring over all its changes. */
module PushRecords {
  import opened Options
  import opened Integers
  import opened Bytes
  import opened PushProvenance
  import PushWire

  type Key = Bytes

  /** Foreign code: the digest, the signature scheme and the protobuf codec. */
  datatype Foreign = Foreign(
    sha: Bytes -> Bytes,
    sign: (Key, Bytes) -> Bytes,
    verify: (Key, Bytes, Bytes) -> bool,
    encode: Record -> Bytes,
    decode: Bytes -> Option<Record>)

  // Signing.

  datatype Window = Window(signingFrom: I64, signingUntil: I64, verifyUntil: I64)

  datatype Signer = Signer(producerId: string, keyId: string, key: Key, allowedTopics: set<string>, window: Window)

  datatype Input = Input(topic: string, logicalKey: string, tenantId: string, eventId: string, schema: string,
                         sourceEventId: Option<string>, payload: Bytes)

  function Unsigned(x: Foreign, s: Signer, input: Input, issuedAt: I64, expiresAt: I64): Record {
    Record(VERSION, input.topic, input.logicalKey, input.tenantId, s.producerId, s.keyId, input.eventId, input.schema,
           x.sha(input.payload), issuedAt, expiresAt,
           if input.sourceEventId.Some? then input.sourceEventId.value else "", input.payload, [])
  }

  /** The checks of `sign_at` on topic, key window and lifetime. */
  function SignerError(s: Signer, topic: string, ttl: I64, issuedAt: I64): (e: Option<Error>)
    ensures e == None ==> issuedAt + ttl <= I64_MAX
  {
    if topic !in s.allowedTopics then Some(TopicNotAllowed)
    else if issuedAt < s.window.signingFrom || issuedAt > s.window.signingUntil then Some(SigningKeyInactive)
    else if ttl <= 0 || ttl > MAX_TTL then Some(LifetimeTooLong)
    else if issuedAt + ttl > I64_MAX then Some(LifetimeTooLong)
    else if issuedAt + ttl > s.window.verifyUntil then Some(InvalidKeyWindow)
    else None
  }

  /** `sign_at`: the signed record; its wire form is `Encode` of it. */
  function SignAt(x: Foreign, s: Signer, input: Input, ttl: I64, issuedAt: I64): Result<Record, Error> {
    if SignerError(s, input.topic, ttl, issuedAt).Some? then Err(SignerError(s, input.topic, ttl, issuedAt).value)
    else
      var r := Unsigned(x, s, input, issuedAt, issuedAt + ttl);
      match Complaint(r)
      case Some(e) => Err(e)
      case None => Ok(r.(signature := x.sign(s.key, Frame(r))))
  }

  // Verification.

  datatype Policy = Policy(key: Key, allowedTopics: set<string>, window: Window)

  type Keys = map<(string, string), Policy>

  function SaturatingAdd(now: I64, d: nat): I64 {
    if now + d > I64_MAX then I64_MAX else now + d
  }

  function Lookup(keys: Keys, id: (string, string)): Option<Policy> {
    if id in keys then Some(keys[id]) else None
  }

  /** The checks of `verify_at` that need neither digest nor signature. */
  function EnvelopeError(policy: Option<Policy>, r: Record, topic: string, brokerKey: Option<string>, schema: string, now: I64)
    : Option<Error>
  {
    if r.logicalTopic != topic then Some(WrongTopic)
    else if brokerKey != Some(r.logicalKey) then Some(WrongKey)
    else if r.payloadSchema != schema then Some(WrongSchema)
    else if r.expiresAt - r.issuedAt <= 0 || r.expiresAt - r.issuedAt > MAX_TTL then Some(LifetimeTooLong)
    else if r.issuedAt > SaturatingAdd(now, MAX_SKEW) then Some(NotYetValid)
    else if now >= r.expiresAt then Some(Expired)
    else
      match policy
      case None => Some(UnknownKey)
      case Some(p) =>
        if r.logicalTopic !in p.allowedTopics then Some(TopicNotAllowed)
        else if r.issuedAt < p.window.signingFrom || r.issuedAt > p.window.signingUntil || now > p.window.verifyUntil
          then Some(SigningKeyInactive)
        else None
  }

  /** All checks on a decoded, canonically encoded record under the policy it names. */
  function RecordError(x: Foreign, policy: Option<Policy>, r: Record, topic: string, brokerKey: Option<string>,
                       schema: string, now: I64): Option<Error>
  {
    if Complaint(r).Some? then Complaint(r)
    else if EnvelopeError(policy, r, topic, brokerKey, schema, now).Some?
      then EnvelopeError(policy, r, topic, brokerKey, schema, now)
    else if x.sha(r.payload) != r.payloadSha then Some(DigestMismatch)
    else if policy == None || |r.signature| != 64 || !x.verify(policy.value.key, Frame(r), r.signature)
      then Some(InvalidSignature)
    else None
  }

  function VerifyAt(x: Foreign, keys: Keys, wire: Bytes, topic: string, brokerKey: Option<string>, schema: string, now: I64)
    : Result<Record, Error>
  {
    if |wire| > MAX_PAYLOAD + MAX_WIRE_OVERHEAD then Err(PayloadTooLarge)
    else
      match x.decode(wire)
      case None => Err(InvalidWire)
      case Some(r) =>
        if x.encode(r) != wire then Err(InvalidWire)
        else
          match RecordError(x, Lookup(keys, (r.producerId, r.keyId)), r, topic, brokerKey, schema, now)
          case Some(e) => Err(e)
          case None => Ok(r)
  }

  /** What is assumed of foreign code on one signed record: decoding inverts encoding, its signature verifies. */
  ghost predicate Works(x: Foreign, key: Key, r: Record) {
    x.decode(x.encode(r)) == Some(r) && |r.signature| == 64 && x.verify(key, Frame(r), r.signature)
  }

  /** The encoder writes proto3 under some numbering of the fields. */
  ghost predicate Proto3(x: Foreign, numbers: seq<nat>) {
    PushWire.ValidNumbers(numbers) && forall r :: x.encode(r) == PushWire.Encode(numbers, r)
  }

  lemma WireFits(x: Foreign, numbers: seq<nat>, r: Record)
    requires Proto3(x, numbers) && Complaint(r) == None
    ensures |x.encode(r)| <= MAX_PAYLOAD + MAX_WIRE_OVERHEAD
  {
    PushWire.EncodingUnderCap(numbers, r);
  }

  /** Neither the frame nor the field checks depend on the signature that is put in. */
  lemma SignatureOutsideFrame(r: Record, signature: Bytes)
    requires |signature| == 64 && Complaint(r) == None
    ensures Frame(r.(signature := signature)) == Frame(r) && Complaint(r.(signature := signature)) == None
  {
    var s := r.(signature := signature);
    assert FramedFields(s) == FramedFields(r);
  }

  lemma SignedFacts(x: Foreign, s: Signer, input: Input, ttl: I64, issuedAt: I64)
    requires SignAt(x, s, input, ttl, issuedAt).Ok? && |SignAt(x, s, input, ttl, issuedAt).value.signature| == 64
    ensures var r := SignAt(x, s, input, ttl, issuedAt).value;
      && Complaint(r) == None && r.payloadSha == x.sha(r.payload)
      && r.logicalTopic == input.topic && r.logicalKey == input.logicalKey && r.payloadSchema == input.schema
      && r.producerId == s.producerId && r.keyId == s.keyId
      && r.issuedAt == issuedAt && r.expiresAt == issuedAt + ttl
  {
    var u := Unsigned(x, s, input, issuedAt, issuedAt + ttl);
    SignatureOutsideFrame(u, x.sign(s.key, Frame(u)));
  }

  lemma EnvelopeOfSigned(x: Foreign, s: Signer, input: Input, ttl: I64, issuedAt: I64, r: Record, now: I64)
    requires SignAt(x, s, input, ttl, issuedAt).Ok?
    requires r.logicalTopic == input.topic && r.logicalKey == input.logicalKey && r.payloadSchema == input.schema
    requires r.issuedAt == issuedAt && r.expiresAt == issuedAt + ttl
    ensures EnvelopeError(Some(Policy(s.key, s.allowedTopics, s.window)), r, input.topic, Some(input.logicalKey), input.schema, now) ==
      if now < issuedAt - MAX_SKEW then Some(NotYetValid) else if now >= issuedAt + ttl then Some(Expired) else None
  {
  }

  /** Digest and signature being right, the envelope alone decides. */
  lemma HonestVerdict(x: Foreign, keys: Keys, policy: Policy, r: Record, topic: string, brokerKey: Option<string>,
                      schema: string, now: I64)
    requires Lookup(keys, (r.producerId, r.keyId)) == Some(policy)
    requires x.decode(x.encode(r)) == Some(r) && |x.encode(r)| <= MAX_PAYLOAD + MAX_WIRE_OVERHEAD
    requires Complaint(r) == None && r.payloadSha == x.sha(r.payload)
    requires |r.signature| == 64 && x.verify(policy.key, Frame(r), r.signature)
    ensures VerifyAt(x, keys, x.encode(r), topic, brokerKey, schema, now) ==
      match EnvelopeError(Some(policy), r, topic, brokerKey, schema, now)
      case Some(e) => Err(e)
      case None => Ok(r)
  {
  }

  /**
   Every record `sign_at` produces is accepted by a verifier holding the same key policy, with the
   same topic, key and schema, exactly when issued_at - 30000 <= now < expires_at.
   */
  lemma SignVerifyAgree(x: Foreign, numbers: seq<nat>, s: Signer, input: Input, ttl: I64, issuedAt: I64, keys: Keys, now: I64)
    requires SignAt(x, s, input, ttl, issuedAt).Ok?
    requires Works(x, s.key, SignAt(x, s, input, ttl, issuedAt).value) && Proto3(x, numbers)
    requires Lookup(keys, (s.producerId, s.keyId)) == Some(Policy(s.key, s.allowedTopics, s.window))
    ensures var r := SignAt(x, s, input, ttl, issuedAt).value;
      VerifyAt(x, keys, x.encode(r), input.topic, Some(input.logicalKey), input.schema, now) ==
        if now < issuedAt - MAX_SKEW then Err(NotYetValid)
        else if now >= issuedAt + ttl then Err(Expired)
        else Ok(r)
  {
    var r, policy := SignAt(x, s, input, ttl, issuedAt).value, Policy(s.key, s.allowedTopics, s.window);
    SignedFacts(x, s, input, ttl, issuedAt);
    EnvelopeOfSigned(x, s, input, ttl, issuedAt, r, now);
    WireFits(x, numbers, r);
    HonestVerdict(x, keys, policy, r, input.topic, Some(input.logicalKey), input.schema, now);
  }

  /** An ideal signature verifies only frames of records that a holder of the key signed. */
  ghost predicate Unforgeable(x: Foreign, signed: set<(Key, Record)>) {
    forall k, f, sig :: x.verify(k, f, sig) ==> exists r :: (k, r) in signed && Frame(r) == f
  }

  /** Signed records passed the field checks and carry their payload's digest. */
  ghost predicate HonestLog(x: Foreign, signed: set<(Key, Record)>) {
    forall k, r :: (k, r) in signed ==> Complaint(r) == None && r.payloadSha == x.sha(r.payload)
  }

  /** No signed payload shares its digest with a different accepted one. */
  ghost predicate CollisionFree(x: Foreign, signed: set<(Key, Record)>, payload: Bytes) {
    forall k, o :: (k, o) in signed && x.sha(o.payload) == x.sha(payload) ==> o.payload == payload
  }

  lemma AcceptedFacts(x: Foreign, policy: Option<Policy>, r: Record, topic: string, brokerKey: Option<string>,
                      schema: string, now: I64)
    requires RecordError(x, policy, r, topic, brokerKey, schema, now) == None
    ensures Complaint(r) == None && r.payloadSha == x.sha(r.payload)
    ensures policy.Some? && x.verify(policy.value.key, Frame(r), r.signature)
    ensures r.logicalTopic == topic && brokerKey == Some(r.logicalKey) && r.payloadSchema == schema
    ensures r.issuedAt - MAX_SKEW <= now < r.expiresAt
  {
  }

  lemma SameRecord(x: Foreign, o: Record, r: Record)
    requires Complaint(o) == None && Complaint(r) == None && Frame(o) == Frame(r)
    requires x.sha(o.payload) == x.sha(r.payload) ==> o.payload == r.payload
    requires o.payloadSha == x.sha(o.payload) && r.payloadSha == x.sha(r.payload)
    ensures o.(signature := []) == r.(signature := [])
  {
    AcceptableFits(r);
    AcceptableFits(o);
    FrameInjective(o, r);
  }

  /** The record is, field for field, one signed with the key its producer registered. */
  ghost predicate InLog(keys: Keys, r: Record, signed: set<(Key, Record)>) {
    && (r.producerId, r.keyId) in keys
    && exists o :: (keys[(r.producerId, r.keyId)].key, o) in signed && o.(signature := []) == r.(signature := [])
  }

  /** Accepted, and no signed payload collides with the accepted one. */
  ghost predicate AcceptedFreely(x: Foreign, keys: Keys, wire: Bytes, topic: string, brokerKey: Option<string>,
                                 schema: string, now: I64, signed: set<(Key, Record)>)
  {
    var v := VerifyAt(x, keys, wire, topic, brokerKey, schema, now);
    v.Ok? && CollisionFree(x, signed, v.value.payload)
  }

  /** An accepted record is, field for field, one that was signed with the key its producer registered. */
  lemma AcceptedWasSigned(x: Foreign, keys: Keys, wire: Bytes, topic: string, brokerKey: Option<string>, schema: string,
                          now: I64, signed: set<(Key, Record)>)
    requires Unforgeable(x, signed) && HonestLog(x, signed)
    requires AcceptedFreely(x, keys, wire, topic, brokerKey, schema, now, signed)
    ensures InLog(keys, VerifyAt(x, keys, wire, topic, brokerKey, schema, now).value, signed)
  {
    var r := VerifyAt(x, keys, wire, topic, brokerKey, schema, now).value;
    VerifiedUnderPolicy(x, keys, wire, topic, brokerKey, schema, now);
    SignedLike(x, keys[(r.producerId, r.keyId)].key, r, signed);
  }

  /** What acceptance says of the record, apart from topic, key, schema and time. */
  lemma VerifiedUnderPolicy(x: Foreign, keys: Keys, wire: Bytes, topic: string, brokerKey: Option<string>, schema: string,
                            now: I64)
    requires VerifyAt(x, keys, wire, topic, brokerKey, schema, now).Ok?
    ensures var r := VerifyAt(x, keys, wire, topic, brokerKey, schema, now).value;
      && (r.producerId, r.keyId) in keys && Complaint(r) == None && r.payloadSha == x.sha(r.payload)
      && x.verify(keys[(r.producerId, r.keyId)].key, Frame(r), r.signature)
  {
    var r := VerifyAt(x, keys, wire, topic, brokerKey, schema, now).value;
    AcceptedFacts(x, Lookup(keys, (r.producerId, r.keyId)), r, topic, brokerKey, schema, now);
  }

  lemma SignedLike(x: Foreign, k: Key, r: Record, signed: set<(Key, Record)>)
    requires Unforgeable(x, signed) && HonestLog(x, signed) && CollisionFree(x, signed, r.payload)
    requires Complaint(r) == None && r.payloadSha == x.sha(r.payload) && x.verify(k, Frame(r), r.signature)
    ensures exists o :: (k, o) in signed && o.(signature := []) == r.(signature := [])
  {
    var o :| (k, o) in signed && Frame(o) == Frame(r);
    SameRecord(x, o, r);
  }

  /**
   Both halves under one ideal signature: a signed record is accepted exactly inside its interval,
   and whatever bytes are accepted at any time, for any topic, carry a record of the log.
   */
  lemma SignedLogDecides(x: Foreign, numbers: seq<nat>, s: Signer, input: Input, ttl: I64, issuedAt: I64, keys: Keys,
                         signed: set<(Key, Record)>)
    requires Unforgeable(x, signed) && HonestLog(x, signed) && Proto3(x, numbers)
    requires SignAt(x, s, input, ttl, issuedAt).Ok? && (s.key, SignAt(x, s, input, ttl, issuedAt).value) in signed
    requires Works(x, s.key, SignAt(x, s, input, ttl, issuedAt).value)
    requires Lookup(keys, (s.producerId, s.keyId)) == Some(Policy(s.key, s.allowedTopics, s.window))
    ensures var r := SignAt(x, s, input, ttl, issuedAt).value;
      forall now: I64 :: issuedAt - MAX_SKEW <= now < issuedAt + ttl <==>
        VerifyAt(x, keys, x.encode(r), input.topic, Some(input.logicalKey), input.schema, now) == Ok(r)
    ensures forall wire, topic, brokerKey, schema, now: I64 ::
      AcceptedFreely(x, keys, wire, topic, brokerKey, schema, now, signed) ==>
        InLog(keys, VerifyAt(x, keys, wire, topic, brokerKey, schema, now).value, signed)
  {
    var r := SignAt(x, s, input, ttl, issuedAt).value;
    forall now: I64 ensures issuedAt - MAX_SKEW <= now < issuedAt + ttl <==>
      VerifyAt(x, keys, x.encode(r), input.topic, Some(input.logicalKey), input.schema, now) == Ok(r)
    {
      SignVerifyAgree(x, numbers, s, input, ttl, issuedAt, keys, now);
    }
    forall wire, topic, brokerKey, schema, now: I64 | AcceptedFreely(x, keys, wire, topic, brokerKey, schema, now, signed)
      ensures InLog(keys, VerifyAt(x, keys, wire, topic, brokerKey, schema, now).value, signed)
    {
      AcceptedWasSigned(x, keys, wire, topic, brokerKey, schema, now, signed);
    }
  }

  /** An ideal signature that verifies one record and no other. */
  function Ideal(sha: Bytes -> Bytes, encode: Record -> Bytes, key: Key, frame: Bytes, only: Record): Foreign {
    Foreign(sha, (k, f) => only.signature, (k, f, g) => k == key && f == frame && g == only.signature,
            encode, wire => if wire == encode(only) then Some(only) else None)
  }

  lemma IdealUnforgeable(sha: Bytes -> Bytes, encode: Record -> Bytes, key: Key, frame: Bytes, r: Record)
    requires Frame(r) == frame
    ensures Unforgeable(Ideal(sha, encode, key, frame, r), {(key, r)})
  {
    var x, signed := Ideal(sha, encode, key, frame, r), {(key, r)};
    forall k, f, g | x.verify(k, f, g) ensures exists o :: (k, o) in signed && Frame(o) == f {
      assert (k, r) in signed && Frame(r) == f;
    }
  }

  lemma IdealWorks(sha: Bytes -> Bytes, encode: Record -> Bytes, key: Key, r: Record)
    requires |r.signature| == 64 && Complaint(r) == None && r.payloadSha == sha(r.payload)
    ensures var x := Ideal(sha, encode, key, Frame(r), r); Works(x, key, r) && HonestLog(x, {(key, r)})
  {
  }

  /** The assumptions describe a possible world: for every acceptable record some foreign code and log meet them all. */
  lemma AssumptionsMeet(sha: Bytes -> Bytes, numbers: seq<nat>, key: Key, u: Record) returns (x: Foreign, r: Record)
    requires PushWire.ValidNumbers(numbers) && Complaint(u) == None && u.payloadSha == sha(u.payload)
    ensures x.sha == sha && r == u.(signature := x.sign(key, Frame(u)))
    ensures Works(x, key, r) && Proto3(x, numbers)
    ensures Unforgeable(x, {(key, r)}) && HonestLog(x, {(key, r)})
  {
    r := u.(signature := seq(64, _ => 0));
    SignatureOutsideFrame(u, r.signature);
    var encode := a => PushWire.Encode(numbers, a);
    x := Ideal(sha, encode, key, Frame(r), r);
    IdealUnforgeable(sha, encode, key, Frame(r), r);
    IdealWorks(sha, encode, key, r);
  }

  // The key ring.

  function CheckedTopics(topics: seq<string>): Result<set<string>, Error> {
    if topics == [] then Err(InvalidField(AllowedTopics))
    else
      match BadTopic(topics)
      case Some(e) => Err(e)
      case None => Ok(TopicSet(topics))
  }

  function TopicSet(topics: seq<string>): set<string> {
    set t | t in topics
  }

  lemma TopicSetSnoc(topics: seq<string>, t: string)
    ensures TopicSet(topics + [t]) == TopicSet(topics) + {t}
  {
  }

  function TopicComplaint(topic: string): Option<Error> {
    if !ValidIdentifier(topic, 256) then Some(InvalidField(LogicalTopic))
    else if !ValidTopicShape(topic) then Some(InvalidField(AllowedTopics))
    else None
  }

  function BadTopic(topics: seq<string>): Option<Error> {
    if topics == [] then None
    else if TopicComplaint(topics[0]).Some? then TopicComplaint(topics[0])
    else BadTopic(topics[1..])
  }

  lemma BadTopicAt(topics: seq<string>, i: nat)
    requires i < |topics|
    ensures BadTopic(topics[i..]) ==
      if TopicComplaint(topics[i]).Some? then TopicComplaint(topics[i]) else BadTopic(topics[i + 1..])
  {
    assert topics[i..][0] == topics[i] && topics[i..][1..] == topics[i + 1..];
  }

  /** The first i topics are in order and collected. */
  ghost predicate Checking(topics: seq<string>, i: nat, checked: set<string>) {
    i <= |topics| && checked == TopicSet(topics[..i]) && BadTopic(topics[i..]) == BadTopic(topics)
  }

  lemma CheckingStarts(topics: seq<string>)
    ensures Checking(topics, 0, {})
  {
    assert topics[0..] == topics;
  }

  lemma CheckingStep(topics: seq<string>, i: nat, checked: set<string>)
    requires Checking(topics, i, checked) && i < |topics|
    ensures TopicComplaint(topics[i]).Some? ==> CheckedTopics(topics) == Err(TopicComplaint(topics[i]).value)
    ensures TopicComplaint(topics[i]) == None ==> Checking(topics, i + 1, checked + {topics[i]})
  {
    BadTopicAt(topics, i);
    TopicSetSnoc(topics[..i], topics[i]);
    assert topics[..i + 1] == topics[..i] + [topics[i]];
  }

  lemma CheckingEnds(topics: seq<string>, checked: set<string>)
    requires Checking(topics, |topics|, checked)
    ensures CheckedTopics(topics) == if topics == [] then Err(InvalidField(AllowedTopics)) else Ok(checked)
  {
    assert topics[..|topics|] == topics && topics[|topics|..] == [];
  }

  /** `checked_topics`: its loop. */
  method CheckTopics(topics: seq<string>) returns (r: Result<set<string>, Error>)
    ensures r == CheckedTopics(topics)
  {
    var checked: set<string> := {};
    var i := 0;
    CheckingStarts(topics);
    while i < |topics|
      invariant Checking(topics, i, checked)
    {
      CheckingStep(topics, i, checked);
      var complaint := TopicComplaint(topics[i]);
      if complaint.Some? {
        return Err(complaint.value);
      }
      checked := checked + {topics[i]};
      i := i + 1;
    }
    CheckingEnds(topics, checked);
    if |topics| == 0 {
      return Err(InvalidField(AllowedTopics));
    }
    r := Ok(checked);
  }

  datatype Change =
    | Add(producer: string, keyId: string, key: Key, topics: seq<string>, window: Window)
    | Revoke(producer: string, keyId: string)
  {
    function Identity(): (string, string) {
      (producer, keyId)
    }
  }

  ghost predicate ReusedElsewhere(keys: Keys, producer: string, key: Key) {
    exists id :: id in keys && id.0 != producer && keys[id].key == key
  }

  /** Why an add is refused, if it is. */
  ghost function AddError(keys: Keys, c: Change): Option<Error>
    requires c.Add?
  {
    if !ValidIdentifier(c.producer, 256) then Some(InvalidField(ProducerId))
    else if !ValidIdentifier(c.keyId, 128) then Some(InvalidField(KeyId))
    else if CheckedTopics(c.topics).Err? then Some(CheckedTopics(c.topics).error)
    else if c.Identity() in keys then Some(DuplicateKey)
    else if ReusedElsewhere(keys, c.producer, c.key) then Some(KeyReuseAcrossProducers)
    else None
  }

  /** The ring after a change. */
  ghost function Changed(keys: Keys, c: Change): Keys {
    match c
    case Revoke(producer, keyId) => keys - {c.Identity()}
    case Add(producer, keyId, key, topics, window) =>
      if AddError(keys, c).Some? then keys
      else keys[c.Identity() := Policy(key, CheckedTopics(topics).value, window)]
  }

  class PushRecordVerifier {
    var keys: Keys

    constructor ()
      ensures keys == map[]
    {
      keys := map[];
    }

    method AddKey(producer: string, keyId: string, key: Key, topics: seq<string>, window: Window)
      returns (r: Result<(), Error>)
      modifies this
      ensures keys == Changed(old(keys), Add(producer, keyId, key, topics, window))
      ensures var e := AddError(old(keys), Add(producer, keyId, key, topics, window));
        if e.Some? then r == Err(e.value) && keys == old(keys) else r.Ok?
    {
      if !ValidIdentifier(producer, 256) { return Err(InvalidField(ProducerId)); }
      if !ValidIdentifier(keyId, 128) { return Err(InvalidField(KeyId)); }
      var checked := CheckTopics(topics);
      if checked.Err? { return Err(checked.error); }
      var identity := (producer, keyId);
      if identity in keys { return Err(DuplicateKey); }
      var rest := keys.Keys;
      while rest != {}
        invariant rest <= keys.Keys && keys == old(keys)
        invariant forall id :: id in keys && id !in rest ==> id.0 == producer || keys[id].key != key
        decreases |rest|
      {
        var id :| id in rest;
        if id.0 != producer && keys[id].key == key { return Err(KeyReuseAcrossProducers); }
        rest := rest - {id};
      }
      keys := keys[identity := Policy(key, checked.value, window)];
      r := Ok(());
    }

    method RevokeKey(producer: string, keyId: string) returns (removed: bool)
      modifies this
      ensures keys == Changed(old(keys), Revoke(producer, keyId))
      ensures removed == ((producer, keyId) in old(keys))
    {
      removed := (producer, keyId) in keys;
      keys := keys - {(producer, keyId)};
    }
  }

  ghost function AfterChanges(keys: Keys, cs: seq<Change>): Keys
    decreases |cs|
  {
    if cs == [] then keys else AfterChanges(Changed(keys, cs[0]), cs[1..])
  }

  /** No public key belongs to two producers. */
  ghost predicate OneProducerPerKey(keys: Keys) {
    forall id, other :: id in keys && other in keys && keys[id].key == keys[other].key ==> id.0 == other.0
  }

  lemma {:induction false} OneProducerAlways(keys: Keys, cs: seq<Change>)
    requires OneProducerPerKey(keys)
    ensures OneProducerPerKey(AfterChanges(keys, cs))
    decreases |cs|
  {
    if cs != [] {
      OneProducerAlways(Changed(keys, cs[0]), cs[1..]);
    }
  }

  lemma {:induction false} UntouchedKey(keys: Keys, cs: seq<Change>, id: (string, string))
    requires forall i :: 0 <= i < |cs| ==> cs[i].Identity() != id
    ensures Lookup(AfterChanges(keys, cs), id) == Lookup(keys, id)
    decreases |cs|
  {
    if cs != [] {
      assert cs[0].Identity() != id;
      UntouchedKey(Changed(keys, cs[0]), cs[1..], id);
    }
  }

  /** Changes to other identities never change the verdict on a record naming this one. */
  lemma OthersDoNotMatter(x: Foreign, keys: Keys, cs: seq<Change>, wire: Bytes, topic: string, brokerKey: Option<string>,
                          schema: string, now: I64)
    requires x.decode(wire).Some? ==>
      forall i :: 0 <= i < |cs| ==> cs[i].Identity() != (x.decode(wire).value.producerId, x.decode(wire).value.keyId)
    ensures VerifyAt(x, AfterChanges(keys, cs), wire, topic, brokerKey, schema, now) ==
            VerifyAt(x, keys, wire, topic, brokerKey, schema, now)
  {
    if x.decode(wire).Some? {
      var r := x.decode(wire).value;
      UntouchedKey(keys, cs, (r.producerId, r.keyId));
    }
  }

  lemma NoPolicyRejects(x: Foreign, keys: Keys, wire: Bytes, r: Record, topic: string, brokerKey: Option<string>,
                        schema: string, now: I64)
    requires x.decode(wire) == Some(r) && (r.producerId, r.keyId) !in keys
    ensures VerifyAt(x, keys, wire, topic, brokerKey, schema, now).Err?
  {
    assert EnvelopeError(None, r, topic, brokerKey, schema, now).Some?;
  }

  /** No add of the identity succeeds along the changes; it may be tried and refused. */
  ghost predicate NeverAdded(keys: Keys, cs: seq<Change>, id: (string, string))
    decreases |cs|
  {
    cs == [] ||
    (&& (cs[0].Add? && cs[0].Identity() == id ==> AddError(keys, cs[0]).Some?)
     && NeverAdded(Changed(keys, cs[0]), cs[1..], id))
  }

  /** After a revocation every record naming the key is refused until an add of it succeeds. */
  lemma RevokedRejects(x: Foreign, keys: Keys, later: seq<Change>, wire: Bytes, r: Record, topic: string,
                       brokerKey: Option<string>, schema: string, now: I64)
    requires x.decode(wire) == Some(r)
    requires NeverAdded(Changed(keys, Revoke(r.producerId, r.keyId)), later, (r.producerId, r.keyId))
    ensures var keys' := AfterChanges(Changed(keys, Revoke(r.producerId, r.keyId)), later);
      VerifyAt(x, keys', wire, topic, brokerKey, schema, now).Err?
  {
    var keys' := AfterChanges(Changed(keys, Revoke(r.producerId, r.keyId)), later);
    RevokedIsAbsent(keys, later, (r.producerId, r.keyId));
    NoPolicyRejects(x, keys', wire, r, topic, brokerKey, schema, now);
  }

  lemma RevokedIsAbsent(keys: Keys, later: seq<Change>, id: (string, string))
    requires NeverAdded(Changed(keys, Revoke(id.0, id.1)), later, id)
    ensures id !in AfterChanges(Changed(keys, Revoke(id.0, id.1)), later)
  {
    StaysAbsent(Changed(keys, Revoke(id.0, id.1)), later, id);
  }

  lemma {:induction false} StaysAbsent(keys: Keys, cs: seq<Change>, id: (string, string))
    requires id !in keys && NeverAdded(keys, cs, id)
    ensures id !in AfterChanges(keys, cs)
    decreases |cs|
  {
    if cs != [] {
      StaysAbsent(Changed(keys, cs[0]), cs[1..], id);
    }
  }
}
