/** The platform's card post: one signed context admits one card message. */
module PluginCard {
  import opened Options
  import opened Bytes
  import Decimal

  const PLUGIN_CARD_TYPE: string := "flare.plugin.message.v1"
  const PLUGIN_CARD_PAYLOAD_SCHEMA: string := "flare.plugin.message/v1"
  const CARD_POST_ROLE: string := "plugin.card.post"
  const CARD_CLIENT_MSG_ID_PREFIX: string := "pcard-"
  const CARD_POST_REQUEST_PREFIX: string := "pcard2-"

  /** Constants and code of other crates: Capability's key id, two enum numbers, SHA-256. */
  datatype Platform = Platform(capabilityKid: string, sourceUser: int, typeAppCard: int, sha: Bytes -> Bytes)

  datatype ActorType = User | System | Service

  datatype Claims = Claims(kid: string, actorType: ActorType, actorId: string, tenantId: string,
                           roles: seq<string>, credentialId: Option<string>, requestId: string)

  /** `rest` stands for the fields of the wire type that the check does not name. */
  datatype Card = Card(
    appId: string, cardType: string, payloadSchema: string, title: string, summary: string, payload: Bytes,
    subtitle: string, thumbnailUrl: string, actions: seq<string>, attributes: map<string, string>, rest: Bytes)

  datatype Content = AppCard(card: Card) | Custom(kind: string, body: Bytes) | OtherContent(body: Bytes)

  datatype Message = Message(
    senderId: string, conversationId: string, clientMsgId: string, conversationType: int, channelId: string,
    content: Option<Option<Content>>, source: int, messageType: int, attributes: map<string, string>,
    serverId: string, conversationSeq: nat, messageSeq: Option<nat>, createdAt: int, status: int,
    senderName: string, senderAvatar: string, threadId: Option<string>, retentionPolicy: Option<Bytes>,
    retentionState: Option<Bytes>, offlinePushInfo: Option<Bytes>, extensions: seq<Bytes>, rest: Bytes)

  function TopLevelCard(m: Message): Option<Card> {
    if m.content.Some? && m.content.value.Some? && m.content.value.value.AppCard?
       && m.content.value.value.card.cardType == PLUGIN_CARD_TYPE
    then Some(m.content.value.value.card) else None
  }

  // The request id.

  function HexDigit(n: nat): (c: char)
    requires n < 16
    ensures c as int == if n < 10 then '0' as int + n else 'a' as int + (n - 10)
  {
    if n < 10 then ('0' as int + n) as char else ('a' as int + (n - 10)) as char
  }

  function Hex(b: Bytes): string {
    if b == [] then [] else [HexDigit(b[0] / 16), HexDigit(b[0] % 16)] + Hex(b[1..])
  }

  lemma {:induction false} HexInjective(a: Bytes, b: Bytes)
    requires Hex(a) == Hex(b)
    ensures a == b
    decreases |a|
  {
    if a != [] && b != [] {
      assert Hex(a)[0] == Hex(b)[0] && Hex(a)[1] == Hex(b)[1];
      assert a[0] / 16 == b[0] / 16 && a[0] % 16 == b[0] % 16;
      assert Hex(a)[2..] == Hex(a[1..]) && Hex(b)[2..] == Hex(b[1..]);
      HexInjective(a[1..], b[1..]);
      assert a == [a[0]] + a[1..] && b == [b[0]] + b[1..];
    }
  }

  /** The strings that are hashed, in order. */
  function NameStrings(tenant: string, m: Message, card: Card): (vs: seq<string>)
    ensures |vs| == 11
  {
    [tenant, m.senderId, m.conversationId, m.clientMsgId, Decimal.PrintSigned(m.conversationType), m.channelId,
     card.appId, card.cardType, card.payloadSchema, card.title, card.summary]
  }

  function Encoded(vs: seq<string>): (bs: seq<Bytes>)
    ensures |bs| == |vs| && forall i :: 0 <= i < |vs| ==> bs[i] == Utf8(vs[i])
  {
    seq(|vs|, i requires 0 <= i < |vs| => Utf8(vs[i]))
  }

  function Names(tenant: string, m: Message, card: Card): (vs: seq<Bytes>)
    ensures |vs| == 11
  {
    Encoded(NameStrings(tenant, m, card))
  }

  function Hashed(tenant: string, m: Message, card: Card): Bytes {
    Fields(Names(tenant, m, card), 8) + Field(card.payload, 8)
  }

  function RequestId(p: Platform, tenant: string, m: Message): Option<string> {
    match TopLevelCard(m)
    case None => None
    case Some(card) => Some(CARD_POST_REQUEST_PREFIX + Hex(p.sha(Hashed(tenant, m, card))))
  }

  /** `card_post_request_id`: the hasher fed field by field. */
  method CardPostRequestId(p: Platform, tenant: string, m: Message) returns (id: Option<string>)
    ensures id == RequestId(p, tenant, m)
  {
    var card := TopLevelCard(m);
    if card == None {
      return None;
    }
    var c := card.value;
    var values := [tenant, m.senderId, m.conversationId, m.clientMsgId, Decimal.PrintSigned(m.conversationType), m.channelId,
                   c.appId, c.cardType, c.payloadSchema, c.title, c.summary];
    var fed := FeedHasher(Encoded(values), c.payload, 8);
    id := Some(CARD_POST_REQUEST_PREFIX + Hex(p.sha(fed)));
  }

  // The check.

  datatype Refusal = NotPlatformIdentity | NotACard | WrongShape | ForbiddenField | WrongContext

  predicate CardShape(p: Platform, claims: Claims, m: Message, card: Card) {
    && m.senderId == claims.actorId && m.source == p.sourceUser && m.messageType == p.typeAppCard
    && m.attributes == map[] && CARD_CLIENT_MSG_ID_PREFIX <= m.clientMsgId && m.conversationId != []
    && card.appId != [] && card.payloadSchema == PLUGIN_CARD_PAYLOAD_SCHEMA
    && card.subtitle == [] && card.thumbnailUrl == [] && card.actions == [] && card.attributes == map[]
  }

  predicate UnsetFields(m: Message) {
    && m.serverId == [] && m.conversationSeq == 0 && m.messageSeq == None && m.createdAt == 0 && m.status == 0
    && m.senderName == [] && m.senderAvatar == [] && m.threadId == None && m.retentionPolicy == None
    && m.retentionState == None && m.offlinePushInfo == None && m.extensions == []
  }

  /** The checks of `verify_card_post` on the identity and on the shape of the message. */
  function ShapeRefusal(p: Platform, claims: Claims, m: Message): (r: Option<Refusal>)
    ensures r == None ==> TopLevelCard(m).Some?
  {
    if claims.kid != p.capabilityKid || claims.actorType != User || claims.roles != [CARD_POST_ROLE]
       || claims.credentialId.Some? then Some(NotPlatformIdentity)
    else
      match TopLevelCard(m)
      case None => Some(NotACard)
      case Some(card) =>
        if !CardShape(p, claims, m, card) then Some(WrongShape)
        else if !UnsetFields(m) then Some(ForbiddenField)
        else None
  }

  /** `verify_card_post`: why the post is refused, if it is. */
  function VerifyCardPost(p: Platform, claims: Claims, m: Message): Option<Refusal> {
    if ShapeRefusal(p, claims, m).Some? then ShapeRefusal(p, claims, m)
    else if RequestId(p, claims.tenantId, m) != Some(claims.requestId) then Some(WrongContext)
    else None
  }

  /** The digest tells the two apart if they differ. */
  ghost predicate NoCollision(p: Platform, x: Bytes, y: Bytes) {
    p.sha(x) == p.sha(y) ==> x == y
  }

  /** Every hashed field is shorter than 2^64 bytes, as any string in memory is. */
  ghost predicate InMemory(tenant: string, m: Message, card: Card) {
    && (forall i :: 0 <= i < 11 ==> |Names(tenant, m, card)[i]| < TWO_64)
    && |card.payload| < TWO_64
  }

  lemma NamesInjective(tenant: string, a: Message, c: Card, b: Message, d: Card)
    requires Names(tenant, a, c) == Names(tenant, b, d)
    ensures a.senderId == b.senderId && a.conversationId == b.conversationId && a.clientMsgId == b.clientMsgId
    ensures a.conversationType == b.conversationType && a.channelId == b.channelId && c.appId == d.appId
    ensures c.cardType == d.cardType && c.payloadSchema == d.payloadSchema && c.title == d.title && c.summary == d.summary
  {
    var f, g := NameStrings(tenant, a, c), NameStrings(tenant, b, d);
    EncodedInjective(f, g);
    assert f[0] == g[0] && f[1] == g[1] && f[2] == g[2] && f[3] == g[3] && f[4] == g[4] && f[5] == g[5];
    assert f[6] == g[6] && f[7] == g[7] && f[8] == g[8] && f[9] == g[9] && f[10] == g[10];
    Decimal.PrintSignedInjective(a.conversationType, b.conversationType);
  }

  lemma EncodedInjective(vs: seq<string>, us: seq<string>)
    requires Encoded(vs) == Encoded(us)
    ensures vs == us
  {
    assert |vs| == |Encoded(vs)| == |us|;
    forall i | 0 <= i < |vs| ensures vs[i] == us[i] {
      assert Encoded(vs)[i] == Encoded(us)[i];
      Utf8Injective(vs[i], us[i]);
    }
  }

  lemma HashedInjective(tenant: string, a: Message, c: Card, b: Message, d: Card)
    requires InMemory(tenant, a, c) && InMemory(tenant, b, d) && Hashed(tenant, a, c) == Hashed(tenant, b, d)
    ensures Names(tenant, a, c) == Names(tenant, b, d) && c.payload == d.payload
  {
    PowersOf256();
    FedInjective(Names(tenant, a, c), Names(tenant, b, d), c.payload, d.payload, 8);
  }

  lemma FedInjective(vs: seq<Bytes>, us: seq<Bytes>, p: Bytes, q: Bytes, w: nat)
    requires |vs| == |us| && forall i :: 0 <= i < |vs| ==> |vs[i]| < Pow256(w) && |us[i]| < Pow256(w)
    requires |p| < Pow256(w) && |q| < Pow256(w) && Fields(vs, w) + Field(p, w) == Fields(us, w) + Field(q, w)
    ensures vs == us && p == q
  {
    FieldsInjective(vs, us, w, Field(p, w), Field(q, w));
    assert Field(p, w) + [] == Field(q, w) + [];
    FieldPrefix(p, q, w, [], []);
  }

  /** The same request id means the same hashed bytes. */
  lemma SameIdSameBytes(p: Platform, x: Bytes, y: Bytes)
    requires NoCollision(p, x, y)
    requires CARD_POST_REQUEST_PREFIX + Hex(p.sha(x)) == CARD_POST_REQUEST_PREFIX + Hex(p.sha(y))
    ensures x == y
  {
    var n := |CARD_POST_REQUEST_PREFIX|;
    assert Hex(p.sha(x)) == (CARD_POST_REQUEST_PREFIX + Hex(p.sha(x)))[n..];
    assert Hex(p.sha(y)) == (CARD_POST_REQUEST_PREFIX + Hex(p.sha(y)))[n..];
    HexInjective(p.sha(x), p.sha(y));
  }

  lemma AcceptedParts(p: Platform, claims: Claims, m: Message)
    requires VerifyCardPost(p, claims, m) == None
    ensures TopLevelCard(m).Some?
    ensures CardShape(p, claims, m, TopLevelCard(m).value) && UnsetFields(m)
    ensures claims.requestId == CARD_POST_REQUEST_PREFIX + Hex(p.sha(Hashed(claims.tenantId, m, TopLevelCard(m).value)))
  {
  }

  /** Equality on every field the check names. */
  ghost predicate SameNamed(a: Message, b: Message) {
    && TopLevelCard(a).Some? && TopLevelCard(b).Some?
    && TopLevelCard(a).value.(rest := []) == TopLevelCard(b).value.(rest := [])
    && a.(content := None, rest := []) == b.(content := None, rest := [])
  }

  lemma Assemble(p: Platform, claims: Claims, a: Message, c: Card, b: Message, d: Card)
    requires TopLevelCard(a) == Some(c) && TopLevelCard(b) == Some(d)
    requires CardShape(p, claims, a, c) && CardShape(p, claims, b, d) && UnsetFields(a) && UnsetFields(b)
    requires a.conversationId == b.conversationId && a.clientMsgId == b.clientMsgId && a.channelId == b.channelId
    requires a.conversationType == b.conversationType && c.appId == d.appId && c.title == d.title
    requires c.summary == d.summary && c.payload == d.payload
    ensures SameNamed(a, b)
  {
  }

  /** One context, one card: two messages accepted under the same claims agree on every named field. */
  lemma OneContextOneCard(p: Platform, claims: Claims, a: Message, b: Message)
    requires VerifyCardPost(p, claims, a) == None && VerifyCardPost(p, claims, b) == None
    requires NoCollision(p, Hashed(claims.tenantId, a, TopLevelCard(a).value), Hashed(claims.tenantId, b, TopLevelCard(b).value))
    requires InMemory(claims.tenantId, a, TopLevelCard(a).value) && InMemory(claims.tenantId, b, TopLevelCard(b).value)
    ensures SameNamed(a, b)
  {
    AcceptedParts(p, claims, a);
    AcceptedParts(p, claims, b);
    var c, d := TopLevelCard(a).value, TopLevelCard(b).value;
    SameIdSameBytes(p, Hashed(claims.tenantId, a, c), Hashed(claims.tenantId, b, d));
    HashedInjective(claims.tenantId, a, c, b, d);
    NamesInjective(claims.tenantId, a, c, b, d);
    Assemble(p, claims, a, c, b, d);
  }

  // Which message it is.

  /** What Capability chooses when it posts a card; the last two are the fields the check does not name. */
  datatype Post = Post(conversationId: string, clientMsgId: string, conversationType: int, channelId: string, appId: string,
                       title: string, summary: string, payload: Bytes, cardRest: Bytes, messageRest: Bytes)
  {
    predicate Good() {
      conversationId != "" && appId != "" && |clientMsgId| >= 6 && clientMsgId[..6] == "pcard-"
    }
  }

  function CardOf(post: Post): Card {
    Card(post.appId, "flare.plugin.message.v1", "flare.plugin.message/v1", post.title, post.summary, post.payload,
         "", "", [], map[], post.cardRest)
  }

  /** The message Capability sends for an actor: nothing set beyond the post itself. */
  function Posted(p: Platform, actor: string, post: Post): Message {
    Message(actor, post.conversationId, post.clientMsgId, post.conversationType, post.channelId,
            Some(Some(AppCard(CardOf(post)))), p.sourceUser, p.typeAppCard, map[],
            "", 0, None, 0, 0, "", "", None, None, None, None, [], post.messageRest)
  }

  /** The context Capability signs for that post. */
  function Signed(p: Platform, actor: string, tenant: string, post: Post): Claims {
    Claims(p.capabilityKid, User, actor, tenant, ["plugin.card.post"], None,
           "pcard2-" + Hex(p.sha(Hashed(tenant, Posted(p, actor, post), CardOf(post)))))
  }

  ghost predicate Honest(p: Platform, claims: Claims, m: Message, post: Post) {
    post.Good() && m == Posted(p, claims.actorId, post) && claims == Signed(p, claims.actorId, claims.tenantId, post)
  }

  /** The post behind a card message. */
  function PostOf(m: Message, card: Card): Post {
    Post(m.conversationId, m.clientMsgId, m.conversationType, m.channelId, card.appId, card.title, card.summary,
         card.payload, card.rest, m.rest)
  }

  lemma PrefixIs(s: string)
    ensures CARD_CLIENT_MSG_ID_PREFIX <= s <==> |s| >= 6 && s[..6] == "pcard-"
  {
  }

  lemma HonestShape(p: Platform, claims: Claims, m: Message, card: Card)
    requires TopLevelCard(m) == Some(card)
    ensures CardShape(p, claims, m, card) && UnsetFields(m) <==>
      PostOf(m, card).Good() && m == Posted(p, claims.actorId, PostOf(m, card))
  {
    PrefixIs(m.clientMsgId);
  }

  lemma HonestAccepted(p: Platform, claims: Claims, m: Message, post: Post)
    requires Honest(p, claims, m, post)
    ensures VerifyCardPost(p, claims, m) == None
  {
    var card := CardOf(post);
    assert TopLevelCard(m) == Some(card) && PostOf(m, card) == post;
    HonestShape(p, claims, m, card);
    assert ShapeRefusal(p, claims, m) == None;
    IdOfCard(p, claims.tenantId, m, card);
  }

  lemma IdOfCard(p: Platform, tenant: string, m: Message, card: Card)
    requires TopLevelCard(m) == Some(card)
    ensures RequestId(p, tenant, m) == Some("pcard2-" + Hex(p.sha(Hashed(tenant, m, card))))
  {
  }

  lemma AcceptedIsHonest(p: Platform, claims: Claims, m: Message)
    requires VerifyCardPost(p, claims, m) == None
    ensures TopLevelCard(m).Some? && Honest(p, claims, m, PostOf(m, TopLevelCard(m).value))
  {
    AcceptedParts(p, claims, m);
    var card := TopLevelCard(m).value;
    HonestShape(p, claims, m, card);
    assert CardOf(PostOf(m, card)) == card;
  }

  /** A message is accepted iff it is, field by field, the one Capability posts for the context it signed. */
  lemma AcceptedIffPosted(p: Platform, claims: Claims, m: Message)
    ensures VerifyCardPost(p, claims, m) == None <==> exists post :: Honest(p, claims, m, post)
  {
    if VerifyCardPost(p, claims, m) == None {
      AcceptedIsHonest(p, claims, m);
    }
    if post :| Honest(p, claims, m, post) {
      HonestAccepted(p, claims, m, post);
    }
  }

  /** Which refusal a message gets before its request id is looked at: that of the first check it fails. */
  lemma RefusalReasons(p: Platform, claims: Claims, m: Message)
    ensures var v := ShapeRefusal(p, claims, m);
      var platform := claims.kid == p.capabilityKid && claims.actorType == User && claims.roles == [CARD_POST_ROLE]
                      && claims.credentialId == None;
      && (v == Some(NotPlatformIdentity) <==> !platform)
      && (v == Some(NotACard) <==> platform && TopLevelCard(m) == None)
      && (v == Some(WrongShape) <==> platform && TopLevelCard(m).Some? && !CardShape(p, claims, m, TopLevelCard(m).value))
      && (v == Some(ForbiddenField) <==>
            platform && TopLevelCard(m).Some? && CardShape(p, claims, m, TopLevelCard(m).value) && !UnsetFields(m))
      && (v == None || v.value in {NotPlatformIdentity, NotACard, WrongShape, ForbiddenField})
  {
  }

  /** A message of the right shape under another request id was not the one signed for. */
  lemma OtherContextRefused(p: Platform, claims: Claims, m: Message)
    requires ShapeRefusal(p, claims, m) == None
    ensures VerifyCardPost(p, claims, m) == Some(WrongContext) <==> RequestId(p, claims.tenantId, m) != Some(claims.requestId)
  {
  }

  /** The eleven names that are hashed, each in its place. */
  lemma NamesInOrder(tenant: string, m: Message, card: Card)
    ensures var vs := NameStrings(tenant, m, card);
      && vs[0] == tenant && vs[1] == m.senderId && vs[2] == m.conversationId && vs[3] == m.clientMsgId
      && vs[4] == Decimal.PrintSigned(m.conversationType) && vs[5] == m.channelId
      && vs[6] == card.appId && vs[7] == card.cardType && vs[8] == card.payloadSchema
      && vs[9] == card.title && vs[10] == card.summary
  {
  }
}
