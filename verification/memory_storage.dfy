/**
 The in-memory store of backend/src/storage/memory.storage.ts: a map from short
 code to link, and a map from short code to that link's request log. Every
 operation is a pure function from the old store to the new one (and to its
 return value, where the class method returns one).

 The link map is a JavaScript `Map`, whose iteration order (insertion order)
 shows through in `getAllLinks` for links created in the same millisecond and
 fixes the order in which `cleanupExpiredLinks` visits keys; `linkOrder` keeps
 that order. The request map is never iterated, so a plain map suffices.
 */
module MemoryStorage {
  import opened WebhookModel
  import opened InsertionOrder
  import opened StableSort

  datatype Store = Store(
    links: map<Key, WebhookLink>,
    linkOrder: seq<Key>,
    logs: map<Key, seq<WebhookRequest>>)

  /** The store as the module creates it. */
  const Empty: Store := Store(map[], [], map[])

  /**
   What every operation keeps: the key order lists each link key once and
   nothing else, every link sits under its own short code, and every link has
   a log (possibly empty).
   */
  ghost predicate Valid(s: Store) {
    && NoDup(s.linkOrder)
    && (forall k :: k in s.linkOrder <==> k in s.links)
    && (forall k | k in s.links :: s.links[k].linkId == k)
    && s.links.Keys <= s.logs.Keys
  }

  /** `a` and `b` have the same keys and values outside `changed`. */
  ghost predicate AgreeOutside<V>(a: map<Key, V>, b: map<Key, V>, changed: set<Key>) {
    forall k | k !in changed :: (k in a <==> k in b) && (k in a ==> a[k] == b[k])
  }

  /** `webhookRequests.get(k) || []`: an absent log reads as empty. */
  function Log(s: Store, k: Key): seq<WebhookRequest> {
    if k in s.logs then s.logs[k] else []
  }

  lemma EmptyIsValid()
    ensures Valid(Empty) && Empty.links == map[] && Empty.logs == map[]
  {
  }

  /**
   `createLink`: stores the link under its short code and gives it a fresh
   empty log. An existing link and log under the same code are overwritten;
   there is no collision check.
   */
  function CreateLink(s: Store, link: WebhookLink): (r: Store)
    ensures link.linkId in r.links && r.links[link.linkId] == link
    ensures link.linkId in r.logs && r.logs[link.linkId] == []
    ensures AgreeOutside(s.links, r.links, {link.linkId})
    ensures AgreeOutside(s.logs, r.logs, {link.linkId})
    ensures link.linkId in s.linkOrder ==> r.linkOrder == s.linkOrder
    ensures link.linkId !in s.linkOrder ==> r.linkOrder == s.linkOrder + [link.linkId]
    ensures Valid(s) ==> Valid(r)
  {
    Store(
      s.links[link.linkId := link],
      SetKey(s.linkOrder, link.linkId),
      s.logs[link.linkId := []])
  }

  /** `getLink`: exact-match lookup; expiry is not looked at. */
  function GetLink(s: Store, k: Key): (r: Option<WebhookLink>)
    ensures r.Some? <==> k in s.links
    ensures r.Some? ==> r.value == s.links[k]
    ensures Valid(s) && r.Some? ==> r.value.linkId == k
  {
    if k in s.links then Some(s.links[k]) else None
  }

  /** `Array.from(webhookLinks.values())`: the links in insertion order. */
  function LinksInOrder(order: seq<Key>, links: map<Key, WebhookLink>): (r: seq<WebhookLink>)
    ensures (forall i | 0 <= i < |order| :: order[i] in links) ==>
              |r| == |order| && forall i | 0 <= i < |order| :: r[i] == links[order[i]]
  {
    if order == [] then []
    else (if order[0] in links then [links[order[0]]] else []) + LinksInOrder(order[1..], links)
  }

  /**
   `getAllLinks`: every stored link exactly once, newest `createdAt` first;
   links created in the same millisecond stay in insertion order.
   */
  function GetAllLinks(s: Store): (r: seq<WebhookLink>)
    ensures Descending(r, CreatedAtOf)
    ensures multiset(r) == multiset(LinksInOrder(s.linkOrder, s.links))
    ensures SameTies(r, LinksInOrder(s.linkOrder, s.links), CreatedAtOf)
    ensures Valid(s) ==> |r| == |s.links|
    ensures Valid(s) ==> forall l :: l in r <==> l in s.links.Values
  {
    var values := LinksInOrder(s.linkOrder, s.links);
    SortDescIsStable(values, CreatedAtOf);
    ValuesInOrder(s);
    SortDescSameElements(values, CreatedAtOf);
    SortDesc(values, CreatedAtOf)
  }

  /** The insertion-order listing of a valid store holds each link once. */
  lemma ValuesInOrder(s: Store)
    ensures Valid(s) ==> |LinksInOrder(s.linkOrder, s.links)| == |s.links|
    ensures Valid(s) ==> forall l :: l in LinksInOrder(s.linkOrder, s.links) <==> l in s.links.Values
  {
    if Valid(s) {
      ValuesInOrderValid(s);
    }
  }

  lemma ValuesInOrderValid(s: Store)
    requires Valid(s)
    ensures |LinksInOrder(s.linkOrder, s.links)| == |s.links|
    ensures forall l :: l in LinksInOrder(s.linkOrder, s.links) <==> l in s.links.Values
  {
    var values := LinksInOrder(s.linkOrder, s.links);
    NoDupCard(s.linkOrder);
    assert Elements(s.linkOrder) == s.links.Keys;
    forall l | l in s.links.Values
      ensures l in values
    {
      var k :| k in s.links && s.links[k] == l;
      var i :| 0 <= i < |s.linkOrder| && s.linkOrder[i] == k;
      assert values[i] == l;
    }
  }

  /**
   `deleteLink`: removes the log and the link under `k`; answers whether a
   link was there. Nothing else changes.
   */
  function DeleteLink(s: Store, k: Key): (r: (bool, Store))
    ensures r.0 <==> k in s.links
    ensures k !in r.1.links && k !in r.1.logs
    ensures AgreeOutside(s.links, r.1.links, {k})
    ensures AgreeOutside(s.logs, r.1.logs, {k})
    ensures r.1.linkOrder == Without(s.linkOrder, {k})
    ensures Valid(s) ==> Valid(r.1)
  {
    (k in s.links, Store(s.links - {k}, Without(s.linkOrder, {k}), s.logs - {k}))
  }

  /**
   `addRequest`: appends to the log of the request's own link, creating the
   log if there is none. It does not check that the link exists.
   */
  function AddRequest(s: Store, request: WebhookRequest): (r: Store)
    ensures request.linkId in r.logs
    ensures |r.logs[request.linkId]| == |Log(s, request.linkId)| + 1
    ensures r.logs[request.linkId][..|Log(s, request.linkId)|] == Log(s, request.linkId)
    ensures r.logs[request.linkId][|Log(s, request.linkId)|] == request
    ensures AgreeOutside(s.logs, r.logs, {request.linkId})
    ensures r.links == s.links && r.linkOrder == s.linkOrder
    ensures Valid(s) ==> Valid(r)
  {
    s.(logs := s.logs[request.linkId := Log(s, request.linkId) + [request]])
  }

  /**
   `getRequests`: the log of `k`, newest `timestamp` first, ties in capture
   order. The JavaScript sort works in place, so a stored log is left in the
   returned order; an absent log reads as empty and nothing is stored.
   */
  function GetRequests(s: Store, k: Key): (r: (seq<WebhookRequest>, Store))
    ensures multiset(r.0) == multiset(Log(s, k))
    ensures Descending(r.0, TimestampOf)
    ensures SameTies(r.0, Log(s, k), TimestampOf)
    ensures k in s.logs ==> k in r.1.logs && r.1.logs[k] == r.0
    ensures k !in s.logs ==> r.0 == [] && r.1 == s
    ensures AgreeOutside(s.logs, r.1.logs, {k})
    ensures r.1.links == s.links && r.1.linkOrder == s.linkOrder
    ensures Valid(s) ==> Valid(r.1)
  {
    SortDescIsStable(Log(s, k), TimestampOf);
    if k in s.logs then
      var sorted := SortDesc(s.logs[k], TimestampOf);
      (sorted, s.(logs := s.logs[k := sorted]))
    else
      ([], s)
  }

  /**
   `clearRequests`: leaves an empty log under `k`, even when `k` had no log
   and no link; links are untouched.
   */
  function ClearRequests(s: Store, k: Key): (r: Store)
    ensures k in r.logs && r.logs[k] == []
    ensures AgreeOutside(s.logs, r.logs, {k})
    ensures r.links == s.links && r.linkOrder == s.linkOrder
    ensures Valid(s) ==> Valid(r)
  {
    s.(logs := s.logs[k := []])
  }

  /** The keys among `keys` whose link is stored and expired at `now`. */
  function Expiring(s: Store, keys: seq<Key>, now: int): set<Key> {
    set k | k in keys && k in s.links && IsExpired(s.links[k], now)
  }

  /**
   `r` is the outcome of deleting the keys `gone` from `s` all at once: both
   maps lose exactly those keys, the key order drops them and keeps the rest
   in place, and the count is the number of keys deleted.
   */
  ghost predicate SweptBy(s: Store, gone: set<Key>, r: (nat, Store)) {
    && r.1.links == s.links - gone
    && r.1.logs == s.logs - gone
    && r.1.linkOrder == Without(s.linkOrder, gone)
    && r.0 == |gone|
  }

  /**
   The `forEach` loop of `cleanupExpiredLinks`: visits `keys` in order and
   calls `deleteLink` on each one whose link has expired, counting them. The
   outcome is that of deleting the expired visited keys at once.
   */
  function SweepFrom(s: Store, keys: seq<Key>, now: int): (r: (nat, Store))
    ensures SweptBy(s, Expiring(s, keys, now), r)
    decreases |keys|
  {
    if keys == [] then
      SweepNothing(s, keys, now);
      (0, s)
    else
      var k := keys[0];
      if k in s.links && IsExpired(s.links[k], now) then
        var t := DeleteLink(s, k).1;
        var rest := SweepFrom(t, keys[1..], now);
        SweepStep(s, keys, now);
        DeleteThenSweep(s, k, Expiring(t, keys[1..], now), rest);
        (rest.0 + 1, rest.1)
      else
        SweepSkip(s, keys, now);
        SweepFrom(s, keys[1..], now)
  }

  lemma SweepNothing(s: Store, keys: seq<Key>, now: int)
    requires keys == []
    ensures SweptBy(s, Expiring(s, keys, now), (0, s))
  {
    assert Expiring(s, keys, now) == {};
    WithoutAbsent(s.linkOrder, {});
    assert s.links - {} == s.links;
    assert s.logs - {} == s.logs;
  }

  /** Deleting `k` and then the keys `gone` is deleting `{k} + gone` at once. */
  lemma DeleteThenSweep(s: Store, k: Key, gone: set<Key>, rest: (nat, Store))
    requires k !in gone
    requires SweptBy(DeleteLink(s, k).1, gone, rest)
    ensures SweptBy(s, {k} + gone, (rest.0 + 1, rest.1))
  {
    WithoutTwice(s.linkOrder, {k}, gone);
    SubtractTwice(s.links, {k}, gone);
    SubtractTwice(s.logs, {k}, gone);
  }

  lemma SubtractTwice<V>(m: map<Key, V>, a: set<Key>, b: set<Key>)
    ensures m - a - b == m - (a + b)
  {
    assert (m - a - b).Keys == (m - (a + b)).Keys;
  }

  lemma SweepStep(s: Store, keys: seq<Key>, now: int)
    requires keys != [] && keys[0] in s.links && IsExpired(s.links[keys[0]], now)
    ensures Expiring(s, keys, now) == {keys[0]} + Expiring(DeleteLink(s, keys[0]).1, keys[1..], now)
    ensures keys[0] !in Expiring(DeleteLink(s, keys[0]).1, keys[1..], now)
  {
    var t := DeleteLink(s, keys[0]).1;
    forall k | k in Expiring(s, keys, now) && k != keys[0]
      ensures k in Expiring(t, keys[1..], now)
    {
      assert k in keys[1..];
    }
  }

  lemma SweepSkip(s: Store, keys: seq<Key>, now: int)
    requires keys != [] && !(keys[0] in s.links && IsExpired(s.links[keys[0]], now))
    ensures Expiring(s, keys, now) == Expiring(s, keys[1..], now)
  {
    forall k | k in Expiring(s, keys, now)
      ensures k in Expiring(s, keys[1..], now)
    {
      assert k != keys[0];
    }
  }

  /**
   `cleanupExpiredLinks`: deletes exactly the links with `expiresAt < now`,
   with their logs, keeps every other link and log as it was, and returns how
   many links it deleted.
   */
  function CleanupExpiredLinks(s: Store, now: int): (r: (nat, Store))
    requires Valid(s)
    ensures forall k :: k in r.1.links <==> k in s.links && !IsExpired(s.links[k], now)
    ensures forall k | k in r.1.links :: r.1.links[k] == s.links[k]
    ensures forall k :: k in r.1.logs <==> k in s.logs && !(k in s.links && IsExpired(s.links[k], now))
    ensures forall k | k in r.1.logs :: r.1.logs[k] == s.logs[k]
    ensures r.1.linkOrder == Without(s.linkOrder, Expiring(s, s.linkOrder, now))
    ensures r.0 == |s.links| - |r.1.links|
    ensures Valid(r.1)
  {
    var gone := Expiring(s, s.linkOrder, now);
    var r := SweepFrom(s, s.linkOrder, now);
    assert gone <= s.links.Keys;
    RemovedCount(s.links, gone);
    r
  }

  lemma RemovedCount<V>(m: map<Key, V>, gone: set<Key>)
    requires gone <= m.Keys
    ensures |m - gone| == |m| - |gone|
  {
    assert (m - gone).Keys == m.Keys - gone;
    SubsetDifferenceCard(m.Keys, gone);
  }

  lemma {:induction false} SubsetDifferenceCard(a: set<Key>, b: set<Key>)
    requires b <= a
    ensures |a - b| == |a| - |b|
    decreases |b|
  {
    if b != {} {
      var x :| x in b;
      SubsetDifferenceCard(a - {x}, b - {x});
      assert (a - {x}) - (b - {x}) == a - b;
    }
  }
}
