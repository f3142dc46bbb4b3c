/**
 Properties of the webhook API that span several calls: the life of a link
 under its fixed time-to-live, lazy expiry through the list sweep, capture
 order and listing order, and the difference between clearing a log and
 deleting its link.
 */
module ApiProperties {
  import opened WebhookModel
  import opened InsertionOrder
  import opened StableSort
  import opened MemoryStorage
  import opened WebhookRoutes

  /**
   A link created at `created` answers 200, to lookups and captures alike, up
   to and including its expiry instant `created + 30 days`, and 410 from the
   next millisecond on.
   */
  lemma LinkLifetime(s: Store, created: int, linkUuid: string, idUuid: string, t: int,
                      inbound: Inbound, requestUuid: string, captureTime: int)
    requires IsUuidV4Text(linkUuid)
    ensures var (posted, s1) := PostLinks(s, created, linkUuid, idUuid);
      var status := GetLinkById(s1, t, posted.payload.link.linkId).0.status;
      && (status == 200 <==> t <= created + 2_592_000_000)
      && (status == 410 <==> t > created + 2_592_000_000)
    ensures var (posted, s1) := PostLinks(s, created, linkUuid, idUuid);
      var delivery := inbound.(linkId := posted.payload.link.linkId);
      var status := HandleWebhook(s1, t, delivery, requestUuid, captureTime).0.status;
      && (status == 200 <==> t <= created + 2_592_000_000)
      && (status == 410 <==> t > created + 2_592_000_000)
  {
  }

  /**
   Lazy expiry: an expired link that no listing has swept yet answers 410,
   to lookups and captures alike; after a GET /links at the same time it
   answers 404, and its log is gone with it.
   */
  lemma LazyExpiry(s: Store, now: int, linkId: Key, inbound: Inbound, requestUuid: string, captureTime: int)
    requires Valid(s)
    requires linkId in s.links && IsExpired(s.links[linkId], now)
    requires inbound.linkId == linkId
    ensures GetLinkById(s, now, linkId).0.status == 410
    ensures HandleWebhook(s, now, inbound, requestUuid, captureTime).0.status == 410
    ensures var swept := GetLinks(s, now).1;
      && GetLinkById(swept, now, linkId).0.status == 404
      && HandleWebhook(swept, now, inbound, requestUuid, captureTime).0.status == 404
      && GetLinkRequests(swept, linkId).0.status == 404
      && ClearLinkRequests(swept, linkId).0.status == 404
      && DeleteLinkById(swept, linkId).0.status == 404
      && linkId !in swept.logs
  {
  }

  /**
   Listing and clearing a log never look at expiry: an expired link that no
   listing has swept yet still answers 200 to both, with its whole log listed
   and then emptied.
   */
  lemma ExpiredStillListsAndClears(s: Store, now: int, linkId: Key)
    requires linkId in s.links && IsExpired(s.links[linkId], now)
    ensures var (listed, _) := GetLinkRequests(s, linkId);
      && listed.status == 200
      && multiset(listed.payload.requests) == multiset(Log(s, linkId))
    ensures var (cleared, t) := ClearLinkRequests(s, linkId);
      && cleared.status == 200
      && linkId in t.links && t.links[linkId] == s.links[linkId]
      && Log(t, linkId) == []
  {
  }

  /**
   Listing a log twice gives the same answer, and the second listing leaves
   the store as the first one left it: the in-place sort is idempotent.
   */
  lemma ListRequestsTwice(s: Store, linkId: Key)
    ensures var (first, s1) := GetLinkRequests(s, linkId);
      var (second, s2) := GetLinkRequests(s1, linkId);
      second == first && s2 == s1
  {
    if linkId in s.links {
      GetRequestsTwice(s, linkId);
    }
  }

  /** The store-level half: a second `getRequests` finds the log already sorted. */
  lemma GetRequestsTwice(s: Store, linkId: Key)
    ensures var (first, s1) := GetRequests(s, linkId);
      GetRequests(s1, linkId) == (first, s1)
  {
    if linkId in s.logs {
      var sorted := SortDesc(s.logs[linkId], TimestampOf);
      SortDescIdempotent(s.logs[linkId], TimestampOf);
      var s1 := s.(logs := s.logs[linkId := sorted]);
      assert s1.logs[linkId := sorted] == s1.logs;
    }
  }

  /** One delivery to the capture endpoint, with its clock readings and UUID. */
  datatype Delivery = Delivery(checkNow: int, inbound: Inbound, requestUuid: string, captureTime: int)

  /** Sends the deliveries to the capture endpoint one after the other. */
  function CaptureAll(s: Store, ds: seq<Delivery>): (r: (seq<Response>, Store))
    ensures |r.0| == |ds|
    ensures r.1.links == s.links
    decreases |ds|
  {
    if ds == [] then ([], s)
    else
      var (first, s1) := HandleWebhook(s, ds[0].checkNow, ds[0].inbound, ds[0].requestUuid, ds[0].captureTime);
      var (rest, s2) := CaptureAll(s1, ds[1..]);
      ([first] + rest, s2)
  }

  /** The entries the deliveries would record, in delivery order. */
  function Entries(ds: seq<Delivery>): (r: seq<WebhookRequest>)
    ensures |r| == |ds|
    ensures forall i | 0 <= i < |ds| :: r[i] == Snapshot(ds[i].inbound, ds[i].requestUuid, ds[i].captureTime)
  {
    if ds == [] then []
    else [Snapshot(ds[0].inbound, ds[0].requestUuid, ds[0].captureTime)] + Entries(ds[1..])
  }

  /** Every delivery is addressed to `linkId` while the link is live. */
  ghost predicate AllLiveFor(s: Store, linkId: Key, ds: seq<Delivery>) {
    && linkId in s.links
    && forall i | 0 <= i < |ds| ::
         ds[i].inbound.linkId == linkId && !IsExpired(s.links[linkId], ds[i].checkNow)
  }

  /** The acknowledgement a delivery to a live link receives. */
  function Ack(d: Delivery): Response {
    Response(200, ReceivedJson("Webhook received successfully", d.requestUuid))
  }

  /** The acknowledgements of the deliveries, in delivery order. */
  function Acks(ds: seq<Delivery>): (r: seq<Response>)
    ensures |r| == |ds|
    ensures forall i | 0 <= i < |ds| :: r[i] == Ack(ds[i])
  {
    if ds == [] then [] else [Ack(ds[0])] + Acks(ds[1..])
  }

  /**
   N deliveries to a live link, whatever their methods, each get 200 with
   their own request id, and append exactly N entries to its log in
   delivery order, none lost and none reordered.
   */
  lemma {:induction false} CaptureAllAppends(s: Store, linkId: Key, ds: seq<Delivery>)
    requires AllLiveFor(s, linkId, ds)
    ensures CaptureAll(s, ds).0 == Acks(ds)
    ensures Log(CaptureAll(s, ds).1, linkId) == Log(s, linkId) + Entries(ds)
    decreases |ds|
  {
    if ds == [] {
      assert Log(s, linkId) + [] == Log(s, linkId);
    } else {
      var s1 := CaptureStep(s, linkId, ds);
      CaptureAllAppends(s1, linkId, ds[1..]);
      assert Entries(ds) == [Entries(ds)[0]] + Entries(ds[1..]);
      AppendAssoc(Log(s, linkId), [Entries(ds)[0]], Entries(ds[1..]));
      assert Acks(ds) == [Ack(ds[0])] + Acks(ds[1..]);
    }
  }

  /**
   Sequence concatenation is associative; stated apart so that the induction
   above does not have to find it among the store's terms.
   */
  lemma AppendAssoc<T>(a: seq<T>, b: seq<T>, c: seq<T>)
    ensures (a + b) + c == a + (b + c)
  {
  }

  /**
   The first delivery of a batch to a live link: it is acknowledged, adds one
   entry, and leaves the link live for the rest; returns the store after it.
   */
  lemma CaptureStep(s: Store, linkId: Key, ds: seq<Delivery>) returns (s1: Store)
    requires ds != [] && AllLiveFor(s, linkId, ds)
    ensures CaptureAll(s, ds).0 == [Ack(ds[0])] + CaptureAll(s1, ds[1..]).0
    ensures CaptureAll(s, ds).1 == CaptureAll(s1, ds[1..]).1
    ensures Log(s1, linkId) == Log(s, linkId) + [Entries(ds)[0]]
    ensures AllLiveFor(s1, linkId, ds[1..])
  {
    var d := ds[0];
    s1 := HandleWebhook(s, d.checkNow, d.inbound, d.requestUuid, d.captureTime).1;
    var n := |Log(s, linkId)|;
    assert Log(s1, linkId)[..n] == Log(s, linkId);
    assert Log(s1, linkId) == Log(s1, linkId)[..n] + [Log(s1, linkId)[n]];
  }

  /**
   Capture then list: deliveries with strictly increasing capture times to a
   link with an empty log are listed newest first, that is, in reverse
   delivery order.
   */
  lemma CapturedNewestFirst(s: Store, linkId: Key, ds: seq<Delivery>)
    requires AllLiveFor(s, linkId, ds)
    requires Log(s, linkId) == []
    requires forall i, j | 0 <= i < j < |ds| :: ds[i].captureTime < ds[j].captureTime
    ensures var listed := GetLinkRequests(CaptureAll(s, ds).1, linkId).0;
      listed == Response(200, RequestListJson(Reverse(Entries(ds))))
  {
    CaptureAllAppends(s, linkId, ds);
    var t := CaptureAll(s, ds).1;
    assert Log(t, linkId) == Entries(ds);
    SortDescOfAscending(Entries(ds), TimestampOf);
  }

  /**
   Clearing a log keeps the link: its lookup answers as before and a later
   capture lands as the only entry of the emptied log.
   */
  lemma ClearKeepsLink(s: Store, now: int, linkId: Key, d: Delivery)
    requires linkId in s.links && d.inbound.linkId == linkId
    requires !IsExpired(s.links[linkId], d.checkNow)
    ensures var cleared := ClearLinkRequests(s, linkId).1;
      && GetLinkById(cleared, now, linkId).0 == GetLinkById(s, now, linkId).0
      && HandleWebhook(cleared, d.checkNow, d.inbound, d.requestUuid, d.captureTime).1.logs[linkId]
         == [Snapshot(d.inbound, d.requestUuid, d.captureTime)]
  {
    var cleared := ClearLinkRequests(s, linkId).1;
    assert Log(cleared, linkId) == [];
  }

  /** Deleting a link removes it and its log; every link-scoped call then answers 404. */
  lemma DeleteThenNotFound(s: Store, now: int, linkId: Key, d: Delivery)
    requires linkId in s.links && d.inbound.linkId == linkId
    ensures var (deleted, t) := DeleteLinkById(s, linkId);
      && deleted.status == 200
      && GetLinkById(t, now, linkId).0.status == 404
      && GetLinkRequests(t, linkId).0.status == 404
      && ClearLinkRequests(t, linkId).0.status == 404
      && HandleWebhook(t, d.checkNow, d.inbound, d.requestUuid, d.captureTime) == (Response(404, ErrorJson("Webhook link not found")), t)
      && DeleteLinkById(t, linkId).0.status == 404
  {
  }

  /**
   Short codes come from a random UUID and are not checked for collisions:
   when the code is new the store gains one link and keeps all others; when
   it is taken, the old link and its whole log are replaced.
   */
  lemma CreateFreshOrOverwrite(s: Store, now: int, linkUuid: string, idUuid: string)
    requires Valid(s) && IsUuidV4Text(linkUuid)
    ensures var t := PostLinks(s, now, linkUuid, idUuid).1;
      && (linkUuid[..8] !in s.links ==> |t.links| == |s.links| + 1 && s.links.Keys < t.links.Keys)
      && (linkUuid[..8] in s.links ==> |t.links| == |s.links| && t.links.Keys == s.links.Keys
                                        && t.logs[linkUuid[..8]] == [])
  {
    var (posted, t) := PostLinks(s, now, linkUuid, idUuid);
    StoreGrowth(s, posted.payload.link);
  }

  /** Storing a link adds a key exactly when its short code was not a key yet. */
  lemma StoreGrowth(s: Store, link: WebhookLink)
    ensures var t := CreateLink(s, link);
      && t.links.Keys == s.links.Keys + {link.linkId}
      && (link.linkId !in s.links ==> |t.links| == |s.links| + 1)
      && (link.linkId in s.links ==> |t.links| == |s.links|)
  {
    var t := CreateLink(s, link);
    assert t.links == s.links[link.linkId := link];
    UpdateCard(s.links, link.linkId, link);
  }

  lemma UpdateCard<V>(m: map<Key, V>, k: Key, v: V)
    ensures m[k := v].Keys == m.Keys + {k}
    ensures |m[k := v]| == if k in m then |m| else |m| + 1
  {
  }
}
