/** The shared tables of the relay (moqt-relay/src/relay.rs, `RelayState`): the class with the
    source's maps, and the values of those maps that the step system works on. */
module RelayTables {
  import opened Words
  import opened Codec
  import opened Wire

  type SessionId = nat
  /** A SUBSCRIBE and the task that serves it share one number; so the number of a request is the
      identity of its response stream. */
  type RequestId = nat

  datatype Track = Track(namespace: TrackNamespace, name: bytes)
  datatype Subscriber = Subscriber(session: SessionId, request: RequestId)
  datatype Subscription = Subscription(
    publisher: SessionId, alias: u64, ok: SubscribeOkMessage, subscribers: seq<Subscriber>)

  /** What `RelayState` holds at one moment. `locks` are the tracks that own a per-track lock. */
  datatype Tables = Tables(
    next: nat, sessions: set<SessionId>, owners: map<TrackNamespace, SessionId>,
    subs: map<Track, Subscription>, locks: set<Track>)

  const EMPTY := Tables(0, {}, map[], map[], {})

  // ----- remove_session -----

  function WithoutSession(xs: seq<Subscriber>, id: SessionId): (ys: seq<Subscriber>)
    ensures forall y :: y in ys <==> y in xs && y.session != id
    ensures |ys| <= |xs|
  {
    if xs == [] then []
    else WithoutSession(xs[..|xs| - 1], id) + (if xs[|xs| - 1].session == id then [] else [xs[|xs| - 1]])
  }

  /** `retain` keeps a subscription when another session publishes it and a subscriber is left. */
  predicate Survives(sub: Subscription, id: SessionId) {
    sub.publisher != id && WithoutSession(sub.subscribers, id) != []
  }

  function Remove(t: Tables, id: SessionId): Tables {
    t.(sessions := t.sessions - {id},
       owners := map n | n in t.owners && t.owners[n] != id :: t.owners[n],
       subs := map k | k in t.subs && Survives(t.subs[k], id) ::
         t.subs[k].(subscribers := WithoutSession(t.subs[k].subscribers, id)))
  }

  /** An entry is dropped if and only if its publisher is the session that leaves, or every subscriber of it
      is on that session; what is kept, keeps publisher, alias, SUBSCRIBE_OK, and the subscribers of the
      other sessions. */
  lemma RemoveEntries(t: Tables, id: SessionId, k: Track)
    ensures k in Remove(t, id).subs <==>
            k in t.subs && t.subs[k].publisher != id && exists x :: x in t.subs[k].subscribers && x.session != id
    ensures k in Remove(t, id).subs ==>
              var before, after := t.subs[k], Remove(t, id).subs[k];
              && after.publisher == before.publisher && after.alias == before.alias && after.ok == before.ok
              && forall x :: x in after.subscribers <==> x in before.subscribers && x.session != id
  {
    if k in t.subs {
      var xs := t.subs[k].subscribers;
      var ys := WithoutSession(xs, id);
      if x :| x in xs && x.session != id {
        assert x in ys;
      }
      if ys != [] {
        assert ys[0] in ys;
      }
    }
  }

  /** A namespace goes if and only if the session that leaves owns it; no ID is freed for another use, and the
      track locks stay. */
  lemma RemoveOwners(t: Tables, id: SessionId, n: TrackNamespace)
    ensures n in Remove(t, id).owners <==> n in t.owners && t.owners[n] != id
    ensures n in Remove(t, id).owners ==> Remove(t, id).owners[n] == t.owners[n]
    ensures forall s :: s in Remove(t, id).sessions <==> s in t.sessions && s != id
    ensures Remove(t, id).next == t.next && Remove(t, id).locks == t.locks
  {
  }

  // ----- find_publisher -----

  predicate IsPrefixOf(p: TrackNamespace, n: TrackNamespace) { p.fields <= n.fields }

  /** The registered prefix with the most fields, found by dropping trailing fields. */
  function LongestRegistered(owners: map<TrackNamespace, SessionId>, n: TrackNamespace): Option<TrackNamespace>
    decreases |n.fields|
  {
    if n in owners then Some(n)
    else if n.fields == [] then None
    else LongestRegistered(owners, TrackNamespace(n.fields[..|n.fields| - 1]))
  }

  function FindPublisher(t: Tables, n: TrackNamespace): Option<SessionId> {
    match LongestRegistered(t.owners, n)
    case Some(p) => if p in t.owners && t.owners[p] in t.sessions then Some(t.owners[p]) else None
    case None => None
  }

  /** `p` is a registered prefix of `n`, and none has more fields. */
  ghost predicate IsLongest(owners: map<TrackNamespace, SessionId>, n: TrackNamespace, p: TrackNamespace) {
    && p in owners && IsPrefixOf(p, n)
    && forall q :: q in owners && IsPrefixOf(q, n) ==> |q.fields| <= |p.fields|
  }

  lemma {:induction false} LongestPrefixRouting(owners: map<TrackNamespace, SessionId>, n: TrackNamespace)
    ensures match LongestRegistered(owners, n)
            case Some(p) => IsLongest(owners, n, p)
            case None => forall q :: q in owners ==> !IsPrefixOf(q, n)
    decreases |n.fields|
  {
    if n !in owners && n.fields != [] {
      var m := TrackNamespace(n.fields[..|n.fields| - 1]);
      LongestPrefixRouting(owners, m);
      forall q | q in owners && IsPrefixOf(q, n)
        ensures IsPrefixOf(q, m)
      {
        assert q.fields != n.fields by {
          assert q != n;
        }
      }
    }
  }

  lemma LongestIsUnique(owners: map<TrackNamespace, SessionId>, n: TrackNamespace, p: TrackNamespace, q: TrackNamespace)
    requires IsLongest(owners, n, p) && IsLongest(owners, n, q)
    ensures p == q
  {
    assert p.fields == q.fields;
  }

  /** The answer is the owner of the longest registered prefix, exactly when that owner is live: a
      shorter prefix is never tried in the place of a dead owner. */
  lemma RoutesToLiveOwner(t: Tables, n: TrackNamespace, id: SessionId)
    ensures FindPublisher(t, n) == Some(id) <==>
            id in t.sessions && exists p :: IsLongest(t.owners, n, p) && t.owners[p] == id
  {
    LongestPrefixRouting(t.owners, n);
    match LongestRegistered(t.owners, n)
    case None =>
    case Some(p) =>
      forall q | IsLongest(t.owners, n, q) ensures q == p {
        LongestIsUnique(t.owners, n, p, q);
      }
  }

  lemma RoutesNowhere(t: Tables, n: TrackNamespace)
    ensures FindPublisher(t, n) == None <==> !exists p :: IsLongest(t.owners, n, p) && t.owners[p] in t.sessions
  {
    hide FindPublisher;
    forall p | IsLongest(t.owners, n, p) && t.owners[p] in t.sessions
      ensures FindPublisher(t, n) == Some(t.owners[p])
    {
      RoutesToLiveOwner(t, n, t.owners[p]);
    }
    if FindPublisher(t, n).Some? {
      RoutesToLiveOwner(t, n, FindPublisher(t, n).value);
    }
  }

  // ----- add_subscriber and the look-ups -----

  function Push(t: Tables, k: Track, x: Subscriber): Tables
    requires k in t.subs
  {
    t.(subs := t.subs[k := t.subs[k].(subscribers := t.subs[k].subscribers + [x])])
  }

  /** `entry(track).or_insert_with(..)`, then `push`. */
  function Add(t: Tables, k: Track, publisher: SessionId, alias: u64, ok: SubscribeOkMessage, x: Subscriber): Tables {
    if k in t.subs then Push(t, k, x)
    else t.(subs := t.subs[k := Subscription(publisher, alias, ok, [x])])
  }

  function Requests(t: Tables, k: Track): (rs: seq<RequestId>)
    ensures k in t.subs ==> |rs| == |t.subs[k].subscribers|
    ensures k in t.subs ==> forall i :: 0 <= i < |rs| ==> rs[i] == t.subs[k].subscribers[i].request
    ensures k !in t.subs ==> rs == []
  {
    if k in t.subs then
      var xs := t.subs[k].subscribers;
      seq(|xs|, i requires 0 <= i < |xs| => xs[i].request)
    else []
  }

  /** The sessions of the entries whose session is still registered, in list order. */
  function LiveSessions(sessions: set<SessionId>, xs: seq<Subscriber>): (ids: seq<SessionId>)
    ensures forall id :: id in ids <==> id in sessions && exists i :: 0 <= i < |xs| && xs[i].session == id
  {
    if xs == [] then []
    else
      var x := xs[|xs| - 1];
      LiveSessions(sessions, xs[..|xs| - 1]) + (if x.session in sessions then [x.session] else [])
  }

  predicate Matches(t: Tables, k: Track, publisher: SessionId, alias: u64) {
    k in t.subs && t.subs[k].publisher == publisher && t.subs[k].alias == alias
  }

  /** The matching tracks, each once, in the order in which the map yields them. */
  predicate ListsMatches(t: Tables, publisher: SessionId, alias: u64, order: seq<Track>) {
    && (forall k :: k in order ==> Matches(t, k, publisher, alias))
    && (forall k :: k in t.subs && Matches(t, k, publisher, alias) ==> k in order)
    && (forall i, j :: 0 <= i < j < |order| ==> order[i] != order[j])
  }

  function Targets(t: Tables, order: seq<Track>): (ids: seq<SessionId>)
    requires forall k :: k in order ==> k in t.subs
    ensures forall id :: id in ids ==> id in t.sessions
  {
    if order == [] then []
    else Targets(t, order[..|order| - 1]) + LiveSessions(t.sessions, t.subs[order[|order| - 1]].subscribers)
  }

  /** Entries of `xs` whose session is `id`. */
  function EntriesOf(xs: seq<Subscriber>, id: SessionId): nat {
    if xs == [] then 0
    else EntriesOf(xs[..|xs| - 1], id) + (if xs[|xs| - 1].session == id then 1 else 0)
  }

  /** A live session is listed once per entry, a session that is gone not at all. */
  lemma {:induction false} LiveOncePerEntry(sessions: set<SessionId>, xs: seq<Subscriber>, id: SessionId)
    ensures multiset(LiveSessions(sessions, xs))[id] == if id in sessions then EntriesOf(xs, id) else 0
  {
    if xs != [] {
      LiveOncePerEntry(sessions, xs[..|xs| - 1], id);
    }
  }

  /** Whatever order the map yields its entries in, the same sessions are found, each as often. */
  lemma {:induction false} OrderDoesNotMatter(t: Tables, order: seq<Track>, other: seq<Track>)
    requires forall k :: k in order <==> k in other
    requires forall k :: k in order ==> k in t.subs
    requires forall i, j :: 0 <= i < j < |order| ==> order[i] != order[j]
    requires forall i, j :: 0 <= i < j < |other| ==> other[i] != other[j]
    ensures multiset(Targets(t, order)) == multiset(Targets(t, other))
    decreases |order|
  {
    hide LiveSessions;
    if order == [] {
      assert forall i :: 0 <= i < |other| ==> other[i] in other;
    } else {
      var n := |order| - 1;
      var k := order[n];
      assert k in other;
      var j :| 0 <= j < |other| && other[j] == k;
      var less := other[..j] + other[j + 1..];
      SameButLast(order, other, less, j);
      OrderDoesNotMatter(t, order[..n], less);
      TakeOut(t, other, j);
    }
  }

  lemma SameButLast(order: seq<Track>, other: seq<Track>, less: seq<Track>, j: nat)
    requires order != [] && j < |other| && other[j] == order[|order| - 1]
    requires less == other[..j] + other[j + 1..]
    requires forall k :: k in order <==> k in other
    requires forall i, j :: 0 <= i < j < |order| ==> order[i] != order[j]
    requires forall i, j :: 0 <= i < j < |other| ==> other[i] != other[j]
    ensures forall k :: k in order[..|order| - 1] <==> k in less
    ensures forall a, b :: 0 <= a < b < |less| ==> less[a] != less[b]
  {
    var n := |order| - 1;
    forall k ensures k in order[..n] <==> k in less {
      if k in less {
        assert k in other && k != order[n];
      }
      if k in order[..n] {
        assert k in order && k != order[n];
        var i :| 0 <= i < |other| && other[i] == k;
        assert i < j ==> less[i] == k;
        assert i > j ==> less[i - 1] == k;
      }
    }
  }

  lemma {:induction false} TakeOut(t: Tables, order: seq<Track>, j: nat)
    requires j < |order| && forall k :: k in order ==> k in t.subs
    ensures multiset(Targets(t, order)) ==
            multiset(Targets(t, order[..j] + order[j + 1..])) + multiset(LiveSessions(t.sessions, t.subs[order[j]].subscribers))
    decreases |order|
  {
    hide Targets, LiveSessions;
    var n := |order| - 1;
    if j == n {
      LastTarget(t, order);
      assert order[..j] + order[j + 1..] == order[..n];
    } else {
      var less := order[..j] + order[j + 1..];
      assert less[..|less| - 1] == order[..n][..j] + order[..n][j + 1..];
      assert less[|less| - 1] == order[n];
      TakeOut(t, order[..n], j);
      LastTarget(t, order);
      LastTarget(t, less);
    }
  }

  lemma LastTarget(t: Tables, order: seq<Track>)
    requires order != [] && forall k :: k in order ==> k in t.subs
    ensures multiset(Targets(t, order)) ==
            multiset(Targets(t, order[..|order| - 1]))
            + multiset(LiveSessions(t.sessions, t.subs[order[|order| - 1]].subscribers))
  {
    hide LiveSessions;
  }

  /** Entries of all listed tracks whose session is `id`. */
  function AllEntriesOf(t: Tables, order: seq<Track>, id: SessionId): nat
    requires forall k :: k in order ==> k in t.subs
  {
    if order == [] then 0
    else AllEntriesOf(t, order[..|order| - 1], id) + EntriesOf(t.subs[order[|order| - 1]].subscribers, id)
  }

  /** The targets are, as a multiset, the live sessions of the listed entries. */
  lemma {:induction false} TargetsOncePerEntry(t: Tables, order: seq<Track>, id: SessionId)
    requires forall k :: k in order ==> k in t.subs
    ensures multiset(Targets(t, order))[id] == if id in t.sessions then AllEntriesOf(t, order, id) else 0
  {
    hide LiveSessions;
    if order != [] {
      TargetsOncePerEntry(t, order[..|order| - 1], id);
      LastTarget(t, order);
      LiveOncePerEntry(t.sessions, t.subs[order[|order| - 1]].subscribers, id);
    }
  }

  // ----- the class -----

  class RelayState {
    var nextSessionId: nat
    var sessions: set<SessionId>
    var namespaceToPublisher: map<TrackNamespace, SessionId>
    var subscriptions: map<Track, Subscription>
    var trackLocks: set<Track>

    function Value(): Tables
      reads this
    {
      Tables(nextSessionId, sessions, namespaceToPublisher, subscriptions, trackLocks)
    }

    constructor ()
      ensures Value() == EMPTY
    {
      nextSessionId, sessions, namespaceToPublisher, subscriptions, trackLocks := 0, {}, map[], map[], {};
    }

    method RegisterSession() returns (id: SessionId)
      modifies this
      ensures id == old(nextSessionId)
      ensures Value() == old(Value()).(next := id + 1, sessions := old(sessions) + {id})
    {
      id := nextSessionId;
      nextSessionId := nextSessionId + 1;
      sessions := sessions + {id};
    }

    method RemoveSession(id: SessionId)
      modifies this
      ensures Value() == Remove(old(Value()), id)
    {
      sessions := sessions - {id};
      namespaceToPublisher := map n | n in namespaceToPublisher && namespaceToPublisher[n] != id :: namespaceToPublisher[n];
      subscriptions := map k | k in subscriptions && Survives(subscriptions[k], id) ::
        subscriptions[k].(subscribers := WithoutSession(subscriptions[k].subscribers, id));
    }

    method RegisterNamespace(namespace: TrackNamespace, id: SessionId)
      modifies this
      ensures Value() == old(Value()).(owners := old(namespaceToPublisher)[namespace := id])
    {
      namespaceToPublisher := namespaceToPublisher[namespace := id];
    }

    /** Ends with the longest registered prefix: its live owner, or nothing. */
    method FindPublisherSession(namespace: TrackNamespace) returns (r: Option<SessionId>)
      ensures r == FindPublisher(Value(), namespace)
      ensures forall id: SessionId :: r == Some(id) <==>
                id in sessions && exists p :: IsLongest(namespaceToPublisher, namespace, p) && namespaceToPublisher[p] == id
    {
      forall id: SessionId
        ensures FindPublisher(Value(), namespace) == Some(id) <==>
                id in sessions && exists p :: IsLongest(namespaceToPublisher, namespace, p) && namespaceToPublisher[p] == id
      {
        RoutesToLiveOwner(Value(), namespace, id);
      }
      LongestPrefixRouting(namespaceToPublisher, namespace);
      var prefix := namespace;
      while true
        invariant LongestRegistered(namespaceToPublisher, prefix) == LongestRegistered(namespaceToPublisher, namespace)
        decreases |prefix.fields|
      {
        if prefix in namespaceToPublisher {
          var id := namespaceToPublisher[prefix];
          if id !in sessions {
            return None;
          }
          return Some(id);
        }
        if prefix.fields == [] {
          return None;
        }
        prefix := TrackNamespace(prefix.fields[..|prefix.fields| - 1]);
      }
    }

    method AddSubscriber(k: Track, publisher: SessionId, alias: u64, ok: SubscribeOkMessage, x: Subscriber)
      modifies this
      ensures Value() == Add(old(Value()), k, publisher, alias, ok, x)
    {
      if k !in subscriptions {
        subscriptions := subscriptions[k := Subscription(publisher, alias, ok, [])];
        assert [] + [x] == [x];
      }
      subscriptions := subscriptions[k := subscriptions[k].(subscribers := subscriptions[k].subscribers + [x])];
    }

    /** The iteration order of the map is whatever it is; it does not matter to the multiset of
        sessions (`OrderDoesNotMatter`). */
    method FindSubscriberSessions(publisher: SessionId, alias: u64) returns (r: seq<SessionId>)
      ensures exists order :: ListsMatches(Value(), publisher, alias, order) && r == Targets(Value(), order)
    {
      hide LiveSessions;
      r := [];
      ghost var order: seq<Track> := [];
      var todo := subscriptions.Keys;
      while todo != {}
        invariant todo <= subscriptions.Keys
        invariant forall k :: k in order ==> k !in todo && Matches(Value(), k, publisher, alias)
        invariant forall k :: k in subscriptions && Matches(Value(), k, publisher, alias) ==> k in order || k in todo
        invariant forall i, j :: 0 <= i < j < |order| ==> order[i] != order[j]
        invariant r == Targets(Value(), order)
      {
        var k :| k in todo;
        todo := todo - {k};
        if subscriptions[k].publisher == publisher && subscriptions[k].alias == alias {
          assert (order + [k])[..|order|] == order;
          r := r + LiveSessions(sessions, subscriptions[k].subscribers);
          order := order + [k];
        }
      }
    }

    method FindSubscriberRequests(k: Track) returns (r: seq<RequestId>)
      ensures r == Requests(Value(), k)
    {
      if k !in subscriptions {
        return [];
      }
      var xs := subscriptions[k].subscribers;
      r := seq(|xs|, i requires 0 <= i < |xs| => xs[i].request);
    }
  }
}
