/** A service's RxJS `Subject` seen through its `getEvents()` chain: every
    `next(e)` is handed to each subscription that is active at that moment,
    after the filter and map stages; a subscription sees nothing published
    before it was made (a plain `Subject` does not replay) and nothing after
    it was ended. */
module Bus {
  import opened Wrappers
  import opened Transform

  /** One subscription: the length of the publication history when it was
      made, the length when it was ended (None while it is active), and the
      strings delivered to it so far. */
  datatype Subscription = Subscription(start: nat, stop: Option<nat>, received: seq<string>)

  /** A subject with the decoration its `getEvents()` adds. `published` is the
      history of `next` calls; it is kept only to state what each subscriber
      must have received. Handles are allocated from `nextId` on. */
  datatype Bus = Bus(prefix: string, published: seq<string>, nextId: nat,
                     subs: map<nat, Subscription>)

  predicate IsActive(b: Bus, id: nat) {
    id in b.subs && b.subs[id].stop.None?
  }

  /** The history length up to which subscription `s` has been listening. */
  function End(s: Subscription, now: nat): nat {
    s.stop.GetOr(now)
  }

  /** Subscription `s` has received exactly the pipeline's output for the
      events published while it was active, in publication order. */
  ghost predicate Faithful(prefix: string, published: seq<string>, s: Subscription) {
    && s.start <= End(s, |published|) <= |published|
    && s.received == Pipeline(prefix, published[s.start..End(s, |published|)])
  }

  ghost predicate Valid(b: Bus) {
    forall id | id in b.subs :: id < b.nextId && Faithful(b.prefix, b.published, b.subs[id])
  }

  /** A subject nobody has subscribed to yet. */
  function Create(prefix: string): (b: Bus)
    ensures Valid(b) && b.prefix == prefix && b.published == []
    ensures forall id :: !IsActive(b, id)
  {
    Bus(prefix, [], 0, map[])
  }

  /** `getEvents().subscribe(...)`: a fresh, active handle whose delivered
      sequence starts empty; every other subscription is untouched. */
  function Subscribe(b: Bus): (r: (Bus, nat))
    requires Valid(b)
    ensures r.1 !in b.subs && IsActive(r.0, r.1)
    ensures r.0.subs[r.1].received == []
    ensures r.0.prefix == b.prefix && r.0.published == b.published
    ensures r.0.subs.Keys == b.subs.Keys + {r.1}
    ensures forall id | id in b.subs :: r.0.subs[id] == b.subs[id]
  {
    var id := b.nextId;
    (b.(nextId := id + 1,
        subs := b.subs[id := Subscription(|b.published|, None, [])]), id)
  }

  /** `subscription.unsubscribe()`: the handle stops listening and keeps what
      it received; other subscriptions are untouched. Ending a handle that is
      not active changes nothing. */
  function Unsubscribe(b: Bus, id: nat): (r: Bus)
    ensures !IsActive(r, id)
    ensures r.prefix == b.prefix && r.published == b.published && r.nextId == b.nextId
    ensures r.subs.Keys == b.subs.Keys
    ensures id in b.subs ==> r.subs[id].received == b.subs[id].received
    ensures forall other | other in b.subs && other != id :: r.subs[other] == b.subs[other]
  {
    if IsActive(b, id) then
      b.(subs := b.subs[id := b.subs[id].(stop := Some(|b.published|))])
    else b
  }

  /** What one delivery does to a subscription. */
  function Deliver(s: Subscription, out: seq<string>): Subscription {
    if s.stop.None? then s.(received := s.received + out) else s
  }

  /** `eventSubject.next(e)`. */
  function Publish(b: Bus, e: string): (r: Bus)
    ensures r.prefix == b.prefix && r.published == b.published + [e] && r.nextId == b.nextId
    ensures r.subs.Keys == b.subs.Keys
  {
    var out := Pipeline(b.prefix, [e]);
    b.(published := b.published + [e],
       subs := map id | id in b.subs :: Deliver(b.subs[id], out))
  }

  /** Multicast: every active subscription receives the pipeline's output for
      `e` at the end of what it had, and stays active. */
  lemma PublishReachesActive(b: Bus, e: string, id: nat)
    requires IsActive(b, id)
    ensures IsActive(Publish(b, e), id)
    ensures Publish(b, e).subs[id].received == b.subs[id].received + Pipeline(b.prefix, [e])
  {
  }

  /** A subscription that has been ended is not affected by a publication. */
  lemma PublishSkipsInactive(b: Bus, e: string, id: nat)
    requires id in b.subs && !IsActive(b, id)
    ensures Publish(b, e).subs[id] == b.subs[id]
  {
  }

  lemma SubscribeKeepsValid(b: Bus)
    requires Valid(b)
    ensures Valid(Subscribe(b).0)
  {
    var (r, id) := Subscribe(b);
    assert r.published[|b.published|..|b.published|] == [];
  }

  lemma UnsubscribeKeepsValid(b: Bus, id: nat)
    requires Valid(b)
    ensures Valid(Unsubscribe(b, id))
  {
  }

  /** Delivering the output for `e` keeps one subscription faithful to the
      history extended by `e`: an active one gains exactly that output, an
      ended one still covers the same stretch of history. */
  lemma DeliverKeepsFaithful(prefix: string, published: seq<string>, e: string, s: Subscription)
    requires Faithful(prefix, published, s)
    ensures Faithful(prefix, published + [e], Deliver(s, Pipeline(prefix, [e])))
  {
    var now := published + [e];
    if s.stop.None? {
      assert End(s, |published|) == |published| && End(s, |now|) == |now|;
      assert published[s.start..|published|] == published[s.start..];
      assert now[s.start..|now|] == published[s.start..] + [e];
      PipelineConcat(prefix, published[s.start..], [e]);
      assert Deliver(s, Pipeline(prefix, [e])).received
          == Pipeline(prefix, published[s.start..]) + Pipeline(prefix, [e]);
    } else {
      assert now[s.start..End(s, |now|)] == published[s.start..End(s, |published|)];
    }
  }

  /** The invariant survives a publication. */
  lemma PublishKeepsValid(b: Bus, e: string)
    requires Valid(b)
    ensures Valid(Publish(b, e))
  {
    var r := Publish(b, e);
    forall id | id in r.subs
      ensures id < r.nextId && Faithful(r.prefix, r.published, r.subs[id])
    {
      DeliverKeepsFaithful(b.prefix, b.published, e, b.subs[id]);
    }
  }

  /** `next` called once per element of `es`, in order. */
  function PublishAll(b: Bus, es: seq<string>): (r: Bus)
    ensures r.prefix == b.prefix && r.published == b.published + es
    ensures r.subs.Keys == b.subs.Keys
    decreases |es|
  {
    if es == [] then b
    else
      assert b.published + es == (b.published + [es[0]]) + es[1..];
      PublishAll(Publish(b, es[0]), es[1..])
  }

  /** FIFO per subscriber: a subscription active throughout receives the
      pipeline's output for a run of publications, in publication order. */
  lemma {:induction false} PublishAllInOrder(b: Bus, es: seq<string>, id: nat)
    requires IsActive(b, id)
    ensures IsActive(PublishAll(b, es), id)
    ensures PublishAll(b, es).subs[id].received
         == b.subs[id].received + Pipeline(b.prefix, es)
    decreases |es|
  {
    if es != [] {
      PublishReachesActive(b, es[0], id);
      PublishAllInOrder(Publish(b, es[0]), es[1..], id);
      PipelineConcat(b.prefix, [es[0]], es[1..]);
      assert [es[0]] + es[1..] == es;
    } else {
      assert Pipeline(b.prefix, es) == [];
    }
  }

  /** No replay: a subscription made after some publications receives only
      what was published since, which for a fresh handle means nothing. */
  lemma LateJoinerSeesOnlyLaterEvents(b: Bus, es: seq<string>)
    requires Valid(b)
    ensures var (b1, id) := Subscribe(b);
            PublishAll(b1, es).subs[id].received == Pipeline(b.prefix, es)
  {
    var (b1, id) := Subscribe(b);
    PublishAllInOrder(b1, es, id);
  }
}
