/**
 The request handlers of backend/src/routes/webhook.routes.ts, each a pure
 function from the store (and the clock reading, and the generated UUIDs) to
 the HTTP response and the next store. Express routing, JSON serialisation and
 the body parsers are not modelled: each handler receives the path parameter
 and the already-parsed request parts.
 */
module WebhookRoutes {
  import opened WebhookModel
  import opened InsertionOrder
  import opened StableSort
  import opened MemoryStorage

  /** Lifetime of a new link: 30 days in milliseconds. */
  const LinkTtlMillis: int := 30 * 24 * 60 * 60 * 1000

  /** The JSON body of a response. */
  datatype Payload =
    | LinkJson(link: WebhookLink)
    | LinkListJson(links: seq<WebhookLink>)
    | RequestListJson(requests: seq<WebhookRequest>)
    | ErrorJson(error: string)
    | MessageJson(message: string)
    | ReceivedJson(message: string, requestId: string)

  datatype Response = Response(status: int, payload: Payload)

  /** The parts of an inbound delivery that `handleWebhook` records. */
  datatype Inbound = Inbound(
    httpMethod: string,
    linkId: Key,
    headers: map<string, string>,
    body: Body,
    query: map<string, string>,
    ip: Option<string>,
    remoteAddress: Option<string>)

  predicate IsLowerHex(c: char) {
    '0' <= c <= '9' || 'a' <= c <= 'f'
  }

  /**
   The text `uuidv4()` returns: 36 characters, lower-case hex digits in groups
   of 8-4-4-4-12 separated by hyphens, version digit 4.
   */
  predicate IsUuidV4Text(u: string) {
    && |u| == 36
    && (forall i | 0 <= i < 36 :: if i in {8, 13, 18, 23} then u[i] == '-' else IsLowerHex(u[i]))
    && u[14] == '4'
  }

  /**
   Every link-scoped request log belongs to a present link and holds only
   requests captured for it: the state the handlers keep, so no captured
   request is ever left without its link.
   */
  ghost predicate ApiValid(s: Store) {
    && Valid(s)
    && s.logs.Keys == s.links.Keys
    && (forall k, i | k in s.logs && 0 <= i < |s.logs[k]| :: s.logs[k][i].linkId == k)
  }

  /**
   POST /links: a link whose short code is the first 8 characters of one
   UUID and whose id is another, created now and expiring 30 days later.
   */
  function PostLinks(s: Store, now: int, linkUuid: string, idUuid: string): (r: (Response, Store))
    requires IsUuidV4Text(linkUuid)
    ensures r.0.status == 200 && r.0.payload.LinkJson?
    ensures r.0.payload.link.createdAt == now
    ensures r.0.payload.link.expiresAt == now + 2_592_000_000
    ensures r.0.payload.link.isActive && r.0.payload.link.id == idUuid
    ensures r.0.payload.link.linkId == linkUuid[..8]
    ensures |r.0.payload.link.linkId| == 8
    ensures forall i | 0 <= i < 8 :: IsLowerHex(r.0.payload.link.linkId[i])
    ensures var k := r.0.payload.link.linkId;
      && k in r.1.links && r.1.links[k] == r.0.payload.link
      && k in r.1.logs && r.1.logs[k] == []
      && AgreeOutside(s.links, r.1.links, {k})
      && AgreeOutside(s.logs, r.1.logs, {k})
    ensures linkUuid[..8] in s.linkOrder ==> r.1.linkOrder == s.linkOrder
    ensures linkUuid[..8] !in s.linkOrder ==> r.1.linkOrder == s.linkOrder + [linkUuid[..8]]
    ensures ApiValid(s) ==> ApiValid(r.1)
  {
    var linkId := linkUuid[..8];
    var link := WebhookLink(idUuid, linkId, now, now + LinkTtlMillis, true);
    ShortCodeIsHex(linkUuid);
    CreateKeepsApiValid(s, link);
    (Response(200, LinkJson(link)), CreateLink(s, link))
  }

  /** The first 8 characters of a v4 UUID are lower-case hex digits. */
  lemma ShortCodeIsHex(u: string)
    requires IsUuidV4Text(u)
    ensures |u[..8]| == 8 && forall i | 0 <= i < 8 :: IsLowerHex(u[..8][i])
  {
    forall i | 0 <= i < 8
      ensures IsLowerHex(u[i])
    {
      assert i !in {8, 13, 18, 23};
    }
  }

  lemma CreateKeepsApiValid(s: Store, link: WebhookLink)
    ensures ApiValid(s) ==> ApiValid(CreateLink(s, link))
  {
    if ApiValid(s) {
      var t := CreateLink(s, link);
      assert t.logs.Keys == t.links.Keys;
      forall k, i | k in t.logs && 0 <= i < |t.logs[k]|
        ensures t.logs[k][i].linkId == k
      {
        assert k != link.linkId && t.logs[k] == s.logs[k];
      }
    }
  }

  /** The empty store of a fresh process already keeps the handlers' invariant. */
  lemma EmptyIsApiValid()
    ensures ApiValid(Empty)
  {
    EmptyIsValid();
  }

  /** GET /links: sweep expired links, then list what is left, newest first. */
  function GetLinks(s: Store, now: int): (r: (Response, Store))
    requires Valid(s)
    ensures r.0.status == 200 && r.0.payload.LinkListJson?
    ensures forall l :: l in r.0.payload.links <==> l in s.links.Values && !IsExpired(l, now)
    ensures Descending(r.0.payload.links, CreatedAtOf)
    ensures |r.0.payload.links| == |r.1.links|
    ensures forall k :: k in r.1.links <==> k in s.links && !IsExpired(s.links[k], now)
    ensures forall k | k in r.1.links :: r.1.links[k] == s.links[k]
    ensures forall k :: k in r.1.logs <==> k in s.logs && !(k in s.links && IsExpired(s.links[k], now))
    ensures forall k | k in r.1.logs :: r.1.logs[k] == s.logs[k]
    ensures r.1.linkOrder == Without(s.linkOrder, Expiring(s, s.linkOrder, now))
    ensures SameTies(r.0.payload.links, LinksInOrder(r.1.linkOrder, r.1.links), CreatedAtOf)
    ensures ApiValid(s) ==> ApiValid(r.1)
  {
    var swept := CleanupExpiredLinks(s, now).1;
    var links := GetAllLinks(swept);
    SweptValues(s, swept, now);
    SweepKeepsApiValid(s, now);
    (Response(200, LinkListJson(links)), swept)
  }

  lemma SweepKeepsApiValid(s: Store, now: int)
    requires Valid(s)
    ensures ApiValid(s) ==> ApiValid(CleanupExpiredLinks(s, now).1)
  {
    if ApiValid(s) {
      var t := CleanupExpiredLinks(s, now).1;
      assert t.logs.Keys == t.links.Keys;
      forall k, i | k in t.logs && 0 <= i < |t.logs[k]|
        ensures t.logs[k][i].linkId == k
      {
        assert t.logs[k] == s.logs[k];
      }
    }
  }

  lemma SweptValues(s: Store, swept: Store, now: int)
    requires Valid(s) && swept == CleanupExpiredLinks(s, now).1
    ensures forall l :: l in swept.links.Values <==> l in s.links.Values && !IsExpired(l, now)
  {
    forall l | l in s.links.Values && !IsExpired(l, now)
      ensures l in swept.links.Values
    {
      var k :| k in s.links && s.links[k] == l;
      assert swept.links[k] == l;
    }
  }

  /** GET /links/:linkId: 404 before 410; the store is only read. */
  function GetLinkById(s: Store, now: int, linkId: Key): (r: (Response, Store))
    ensures r.1 == s
    ensures r.0.status == 404 <==> linkId !in s.links
    ensures r.0.status == 410 <==> linkId in s.links && IsExpired(s.links[linkId], now)
    ensures r.0.status == 200 <==> linkId in s.links && !IsExpired(s.links[linkId], now)
    ensures r.0.status == 200 ==> r.0.payload == LinkJson(s.links[linkId])
    ensures r.0.status == 404 ==> r.0.payload == ErrorJson("Link not found")
    ensures r.0.status == 410 ==> r.0.payload == ErrorJson("Link expired")
  {
    match GetLink(s, linkId)
    case None => (Response(404, ErrorJson("Link not found")), s)
    case Some(link) =>
      if IsExpired(link, now) then (Response(410, ErrorJson("Link expired")), s)
      else (Response(200, LinkJson(link)), s)
  }

  /**
   DELETE /links/:linkId: 404 when no link was there. The log under the key
   is deleted in either case, since `deleteLink` drops it before looking.
   */
  function DeleteLinkById(s: Store, linkId: Key): (r: (Response, Store))
    ensures r.0.status == 404 <==> linkId !in s.links
    ensures r.0.status == 200 <==> linkId in s.links
    ensures linkId !in r.1.links && linkId !in r.1.logs
    ensures AgreeOutside(s.links, r.1.links, {linkId})
    ensures AgreeOutside(s.logs, r.1.logs, {linkId})
    ensures r.0.status == 404 ==> r.0.payload == ErrorJson("Link not found")
    ensures r.0.status == 200 ==> r.0.payload == MessageJson("Link deleted successfully")
    ensures r.1.linkOrder == Without(s.linkOrder, {linkId})
    ensures ApiValid(s) ==> ApiValid(r.1)
  {
    var (deleted, t) := DeleteLink(s, linkId);
    if !deleted then (Response(404, ErrorJson("Link not found")), t)
    else (Response(200, MessageJson("Link deleted successfully")), t)
  }

  /**
   GET /links/:linkId/requests: 404 when the link is absent; no expiry check,
   so an expired but unswept link still lists its log. The listing sorts the
   stored log in place.
   */
  function GetLinkRequests(s: Store, linkId: Key): (r: (Response, Store))
    ensures r.0.status == 404 <==> linkId !in s.links
    ensures r.0.status == 200 <==> linkId in s.links
    ensures r.0.status == 404 ==> r.1 == s
    ensures r.0.status == 404 ==> r.0.payload == ErrorJson("Link not found")
    ensures r.0.status == 200 ==> r.0.payload.RequestListJson?
    ensures r.0.status == 200 ==> multiset(r.0.payload.requests) == multiset(Log(s, linkId))
    ensures r.0.status == 200 ==> Descending(r.0.payload.requests, TimestampOf)
    ensures r.0.status == 200 ==> SameTies(r.0.payload.requests, Log(s, linkId), TimestampOf)
    ensures r.0.status == 200 ==> r.1.links == s.links && AgreeOutside(s.logs, r.1.logs, {linkId})
    ensures r.1.linkOrder == s.linkOrder
    ensures r.0.status == 200 && linkId in s.logs ==> linkId in r.1.logs && r.1.logs[linkId] == r.0.payload.requests
    ensures ApiValid(s) ==> ApiValid(r.1)
  {
    if GetLink(s, linkId).None? then (Response(404, ErrorJson("Link not found")), s)
    else
      var (requests, t) := GetRequests(s, linkId);
      SortedLogBelongs(s, linkId, requests);
      (Response(200, RequestListJson(requests)), t)
  }

  /** Reordering a log keeps every entry's `linkId`. */
  lemma SortedLogBelongs(s: Store, linkId: Key, requests: seq<WebhookRequest>)
    requires multiset(requests) == multiset(Log(s, linkId))
    ensures (forall i | 0 <= i < |Log(s, linkId)| :: Log(s, linkId)[i].linkId == linkId) ==>
            forall i | 0 <= i < |requests| :: requests[i].linkId == linkId
  {
    forall i | 0 <= i < |requests|
      ensures requests[i] in Log(s, linkId)
    {
      assert requests[i] in multiset(requests);
    }
  }

  /**
   DELETE /links/:linkId/requests: 404 when the link is absent (nothing
   changes); otherwise an empty log and the link stays, expired or not.
   */
  function ClearLinkRequests(s: Store, linkId: Key): (r: (Response, Store))
    ensures r.0.status == 404 <==> linkId !in s.links
    ensures r.0.status == 200 <==> linkId in s.links
    ensures r.0.status == 404 ==> r.1 == s
    ensures r.0.status == 404 ==> r.0.payload == ErrorJson("Link not found")
    ensures r.0.status == 200 ==> r.0.payload == MessageJson("Requests cleared successfully")
    ensures r.0.status == 200 ==> linkId in r.1.logs && r.1.logs[linkId] == []
    ensures r.0.status == 200 ==> AgreeOutside(s.logs, r.1.logs, {linkId})
    ensures r.1.links == s.links && r.1.linkOrder == s.linkOrder
    ensures ApiValid(s) ==> ApiValid(r.1)
  {
    if GetLink(s, linkId).None? then (Response(404, ErrorJson("Link not found")), s)
    else (Response(200, MessageJson("Requests cleared successfully")), ClearRequests(s, linkId))
  }

  /** `req.ip || req.socket.remoteAddress`: an empty or missing `ip` falls back. */
  function ClientAddress(ip: Option<string>, remoteAddress: Option<string>): (r: Option<string>)
    ensures ip.Some? && ip.value != "" ==> r == ip
    ensures !(ip.Some? && ip.value != "") ==> r == remoteAddress
  {
    match ip
    case Some(a) => if a != "" then ip else remoteAddress
    case None => remoteAddress
  }

  /** The entry `handleWebhook` records for a delivery. */
  function Snapshot(inbound: Inbound, requestUuid: string, captureTime: int): WebhookRequest {
    WebhookRequest(
      requestUuid,
      inbound.linkId,
      inbound.httpMethod,
      inbound.headers,
      inbound.body,
      inbound.query,
      captureTime,
      ClientAddress(inbound.ip, inbound.remoteAddress))
  }

  /**
   ANY /receive/:linkId: 404 before 410, and neither touches the store; a
   live link gets exactly one entry appended to its log, with any method.
   The clock is read twice, once for the expiry check (`checkNow`) and once
   for the entry's timestamp (`captureTime`).
   */
  function HandleWebhook(s: Store, checkNow: int, inbound: Inbound, requestUuid: string, captureTime: int)
    : (r: (Response, Store))
    ensures r.0.status == 404 <==> inbound.linkId !in s.links
    ensures r.0.status == 410 <==> inbound.linkId in s.links && IsExpired(s.links[inbound.linkId], checkNow)
    ensures r.0.status == 200 <==> inbound.linkId in s.links && !IsExpired(s.links[inbound.linkId], checkNow)
    ensures r.0.status != 200 ==> r.1 == s
    ensures r.0.status == 404 ==> r.0.payload == ErrorJson("Webhook link not found")
    ensures r.0.status == 410 ==> r.0.payload == ErrorJson("Webhook link expired")
    ensures r.0.status == 200 ==> r.0.payload == ReceivedJson("Webhook received successfully", requestUuid)
    ensures r.0.status == 200 ==>
      var k := inbound.linkId;
      var n := |Log(s, k)|;
      && k in r.1.logs && |r.1.logs[k]| == n + 1 && r.1.logs[k][..n] == Log(s, k)
      && r.1.logs[k][n].id == requestUuid
      && r.1.logs[k][n].linkId == k
      && r.1.logs[k][n].httpMethod == inbound.httpMethod
      && r.1.logs[k][n].headers == inbound.headers
      && r.1.logs[k][n].body == inbound.body
      && r.1.logs[k][n].query == inbound.query
      && r.1.logs[k][n].timestamp == captureTime
      && r.1.logs[k][n].ipAddress == ClientAddress(inbound.ip, inbound.remoteAddress)
    ensures r.0.status == 200 ==> AgreeOutside(s.logs, r.1.logs, {inbound.linkId})
    ensures r.1.links == s.links && r.1.linkOrder == s.linkOrder
    ensures ApiValid(s) ==> ApiValid(r.1)
  {
    match GetLink(s, inbound.linkId)
    case None => (Response(404, ErrorJson("Webhook link not found")), s)
    case Some(link) =>
      if IsExpired(link, checkNow) then (Response(410, ErrorJson("Webhook link expired")), s)
      else
        var entry := Snapshot(inbound, requestUuid, captureTime);
        (Response(200, ReceivedJson("Webhook received successfully", entry.id)), AddRequest(s, entry))
  }

  /** One call of the API, with the UUIDs the handler generates. */
  datatype Call =
    | CreateLinkCall(linkUuid: string, idUuid: string)
    | ListLinksCall
    | GetLinkCall(linkId: Key)
    | DeleteLinkCall(linkId: Key)
    | ListRequestsCall(linkId: Key)
    | ClearRequestsCall(linkId: Key)
    | CaptureCall(inbound: Inbound, requestUuid: string, captureTime: int)

  /**
   The router: binds each call to its handler, with `now` the clock reading
   the handler compares expiry against. Every handler answers 200, 404 or
   410, and no call leaves a request log without its link. Answers the
   middleware gives before a handler runs are not modelled.
   */
  function Route(s: Store, now: int, call: Call): (r: (Response, Store))
    requires ApiValid(s)
    requires call.CreateLinkCall? ==> IsUuidV4Text(call.linkUuid)
    ensures r.0.status in {200, 404, 410}
    ensures ApiValid(r.1)
    ensures r.0.status == 410 ==> r.1 == s
  {
    match call
    case CreateLinkCall(linkUuid, idUuid) => PostLinks(s, now, linkUuid, idUuid)
    case ListLinksCall => GetLinks(s, now)
    case GetLinkCall(linkId) => GetLinkById(s, now, linkId)
    case DeleteLinkCall(linkId) => DeleteLinkById(s, linkId)
    case ListRequestsCall(linkId) => GetLinkRequests(s, linkId)
    case ClearRequestsCall(linkId) => ClearLinkRequests(s, linkId)
    case CaptureCall(inbound, requestUuid, captureTime) =>
      HandleWebhook(s, now, inbound, requestUuid, captureTime)
  }
}
