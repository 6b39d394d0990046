/** The replay cache of src/replay/cache.rs as it is written: four structures
    updated in place, completed entries deleted lazily from a queue that may
    hold tombstones. Every method refines the operation of the same name in
    `ReplayModel`. */
module ReplayCaching {
  import opened Sequences
  import opened Replies
  import opened ReplayModel
  import opened ReplayLemmas
  import opened ReplayFields

  class ReplayCache {
    const limits: Limits
    var entries: map<EntryKey, EntryState>
    var latest: map<RequestKey, Latest>
    var order: seq<EntryKey>
    var completedBytes: nat
    var nextGeneration: nat

    ghost function Now(): Fields
      reads this
    {
      Fields(entries, latest, order, completedBytes, nextGeneration)
    }

    /** The cache with the tombstones taken out of the queue. */
    ghost function Abs(): Cache
      reads this
    {
      Now().Abs()
    }

    ghost predicate Valid()
      reads this
    {
      Now().Valid(limits)
    }

    constructor (capacity: nat, maxCompletedBytes: nat, ttl: nat)
      ensures Valid()
      ensures limits == Limits(capacity, maxCompletedBytes, ttl)
      ensures Abs() == EMPTY
    {
      limits := Limits(capacity, maxCompletedBytes, ttl);
      entries, latest, order, completedBytes, nextGeneration := map[], map[], [], 0, 0;
    }

    /** The entry, its charge and its own `latest` record go together. */
    method RemoveCompleted(key: EntryKey)
      modifies this`entries, this`latest, this`completedBytes
      ensures Now() == Removed(old(Now()), key)
    {
      if key in entries && entries[key].Completed? {
        completedBytes := SaturatingSub(completedBytes, entries[key].charge);
      }
      entries := entries - {key};
      if IsLatest(latest, key) {
        latest := latest - {key.request};
      }
    }

    /** Pops tombstones until a live entry has been evicted: the oldest one. */
    method EvictOldestCompleted() returns (evicted: bool)
      requires Now().OrderOk()
      modifies this`entries, this`latest, this`order, this`completedBytes
      ensures Now().OrderOk()
      ensures evicted <==> old(Abs()).queue != []
      ensures evicted ==> Abs() == Without(old(Abs()), {old(Abs()).queue[0]})
      ensures !evicted ==> Abs() == old(Abs())
      ensures forall k :: k in order ==> k in old(order)
      ensures |order| <= |old(order)|
    {
      hide Fields.OrderOk, Fields.Abs, Without, Removed;
      while order != []
        invariant Now().OrderOk()
        invariant Abs() == old(Abs())
        invariant forall k :: k in order ==> k in old(order)
        invariant |order| <= |old(order)|
        decreases |order|
      {
        var oldest := order[0];
        if oldest in CompletedKeys(entries) {
          PopLive(Now());
          order := order[1..];
          RemoveCompleted(oldest);
          return true;
        }
        PopTombstone(Now());
        order := order[1..];
      }
      EmptyOrder(Now());
      evicted := false;
    }

    /** Looks only at the front of the queue, and removes what a scan of the whole
        cache would have removed. */
    method Expire(now: nat)
      requires Now().OrderOk() && QueueOk(Abs())
      modifies this`entries, this`latest, this`order, this`completedBytes
      ensures Now().OrderOk()
      ensures Abs() == ExpireAll(old(Abs()), now, limits.ttl)
      ensures |order| <= |old(order)|
    {
      hide Fields.OrderOk, Removed, QueueOk, Keep;
      ghost var before := Abs();
      ghost var gone: set<EntryKey> := {};
      WithoutNothing(before);
      while order != []
        invariant Now().OrderOk() && QueueOk(Abs())
        invariant gone <= ExpiredKeys(before.entries, now, limits.ttl)
        invariant Abs() == Without(before, gone)
        invariant |order| <= |old(order)|
        decreases |order|
      {
        var oldest := order[0];
        if oldest in entries && entries[oldest].Completed? {
          PopLive(Now());
          if Age(now, entries[oldest].at) < limits.ttl {
            break;
          }
          WithoutTwice(before, gone, {oldest});
          WithoutQueue(Abs(), {oldest});
          order := order[1..];
          RemoveCompleted(oldest);
          gone := gone + {oldest};
        } else {
          PopTombstone(Now());
          order := order[1..];
        }
      }
      if order == [] { EmptyOrder(Now()); }
      YoungFront(Abs(), now, limits.ttl);
      assert gone == ExpiredKeys(before.entries, now, limits.ttl);
    }

    /** XID reuse displaces the completed reply of the older use; its queue
        position stays behind as a tombstone. */
    method RemoveCompletedForRequest(request: RequestKey)
      requires Now().OrderOk() && QueueOk(Abs())
      modifies this`entries, this`latest, this`completedBytes
      ensures Now().OrderOk()
      ensures Abs() == Without(old(Abs()), SupersededBy(old(Abs()), request))
    {
      WithoutNothing(Abs());
      if request !in latest { return; }
      var key := Named(request, latest[request]);
      if key in entries && entries[key].Completed? {
        assert key in Abs().queue;
        KeepMember(order, CompletedKeys(entries), key);
        RemoveBehind(Now(), key);
        hide *;
        RemoveCompleted(key);
      }
    }

    /** Drops the tombstones once they outnumber the entries. */
    method CompactCompletionOrder()
      requires Now().OrderOk()
      modifies this`order
      ensures Now().OrderOk()
      ensures Abs() == old(Abs())
      ensures |order| <= Max(64, 2 * |entries|)
    {
      var compactAt := Max(64, 2 * |entries|);
      if |order| > compactAt {
        CompactFields(Now());
        order := Keep(order, CompletedKeys(entries));
      }
    }

    /** A request arrives: join, replay, refuse, or start a new generation. */
    method Begin(request: RequestKey, fingerprint: Fingerprint, now: nat, open: set<WaiterId>, waiter: WaiterId)
      returns (decision: Decision)
      requires Valid()
      modifies this
      ensures Valid()
      ensures (Abs(), decision) == ReplayModel.Begin(old(Abs()), limits, request, fingerprint, now, open, waiter)
    {
      BeginWellFormed(Abs(), limits, request, fingerprint, now, open, waiter);
      WithoutWellFormed(Abs(), limits, ExpiredKeys(entries, now, limits.ttl));
      Expire(now);
      hide WellFormed, Fields.OrderOk, Without, Admit, Keep;
      if request in latest && latest[request].fingerprint == fingerprint {
        var key := EntryKey(request, fingerprint, latest[request].generation);
        if key in entries {
          match entries[key] {
            case InFlight(waiters) =>
              JoinFields(Now(), key, open, waiter);
              entries := entries[key := InFlight(Keep(waiters, open) + [waiter])];
              return Wait(key, waiter);
            case Completed(reply, _, _) =>
              return Replay(key, reply);
          }
        }
      }
      decision := StartGeneration(request, fingerprint);
    }

    /** The rest of `begin`: free a slot if there is none, then insert. */
    method StartGeneration(request: RequestKey, fingerprint: Fingerprint) returns (decision: Decision)
      requires Valid()
      modifies this
      ensures Valid()
      ensures (Abs(), decision) == Admit(old(Abs()), limits, request, fingerprint)
    {
      hide WellFormed, GenerationsOk, Fields.OrderOk, Fields.Abs, Without, Keep, SupersededBy, Displaced, Grant, Admit;
      ghost var target := Admit(Abs(), limits, request, fingerprint);
      AdmitSteps(Abs(), limits, request, fingerprint);
      AdmitWellFormed(Abs(), limits, request, fingerprint);
      FieldsOfAbs(Now());
      var found := FindSlot(request);
      if !found {
        assert (Abs(), Refuse) == target;
        return Refuse;
      }
      FieldsOfAbs(Now());
      var key := EntryKey(request, fingerprint, nextGeneration);
      GrantFields(Now(), request, fingerprint);
      nextGeneration := nextGeneration + 1;
      latest := latest[request := Latest(fingerprint, key.generation)];
      entries := entries[key := InFlight([])];
      assert (Abs(), Execute(key)) == target;
      decision := Execute(key);
    }

    /** Displaces the reply of an older use of the XID and, in a full cache, the
        oldest completed entry. */
    method FindSlot(request: RequestKey) returns (found: bool)
      requires Valid()
      modifies this`entries, this`latest, this`order, this`completedBytes
      ensures Now().OrderOk() && GenerationsOk(Abs())
      ensures |order| <= |old(order)|
      ensures var free := Without(old(Abs()), SupersededBy(old(Abs()), request));
              && (found <==> !(|free.entries| >= limits.capacity && free.queue == []))
              && Abs() == if found then Without(free, Displaced(free, limits)) else free
    {
      hide WellFormed, QueueOk, GenerationsOk, Fields.OrderOk, Fields.Abs, Without, Keep, SupersededBy;
      WithoutWellFormed(Abs(), limits, SupersededBy(Abs(), request));
      WellFormedParts(Abs(), limits);
      RemoveCompletedForRequest(request);
      ghost var free := Abs();
      FieldsOfAbs(Now());
      WellFormedParts(free, limits);
      WithoutNothing(free);
      WithoutWellFormed(free, limits, Displaced(free, limits));
      WellFormedParts(Without(free, Displaced(free, limits)), limits);
      found := true;
      if |entries| >= limits.capacity {
        found := EvictOldestCompleted();
      }
    }

    /** The first lock of `complete`: an out-of-date generation is not worth the
        copy. Replies that need no copy skip the lock. */
    method Prepare(key: EntryKey, reply: Reply) returns (eligible: bool)
      ensures eligible <==>
                && |reply.Wire()| <= limits.maxBytes
                && (reply.RequiresCopy() ==> IsLatest(latest, key) && key in InFlightKeys(entries))
    {
      LenIsWireLength(reply);
      var cacheable := reply.Len() <= limits.maxBytes;
      eligible := cacheable && (!reply.RequiresCopy()
                                || (IsLatest(latest, key) && key in entries && entries[key].InFlight?));
    }

    /** The second lock of `complete`; returns the waiters to be sent the reply. */
    method Complete(key: EntryKey, storage: Option<(Reply, nat)>, now: nat) returns (waiters: seq<WaiterId>)
      requires Valid()
      requires forall k :: k in CompletedKeys(entries) ==> entries[k].at <= now
      modifies this
      ensures Valid()
      ensures Abs() == ReplayModel.Complete(old(Abs()), limits, key, storage, now)
      ensures waiters == if key in InFlightKeys(old(entries)) then old(entries)[key].waiters else []
    {
      ghost var before := Abs();
      assert forall k :: k in before.queue ==> before.entries[k].at <= now;
      CompleteWellFormed(before, limits, key, storage, now);
      if key !in entries || entries[key].Completed? {
        return [];
      }
      assert QueueOk(before) && |entries| <= limits.capacity && key.generation < nextGeneration;
      hide WellFormed, QueueOk, Fields.OrderOk, Without, Keep, Squeezed, Insert, Charges;
      TakeFields(Now(), key);
      DropFields(Now(), key);
      waiters := entries[key].waiters;
      entries := entries - {key};
      var isLatest := IsLatest(latest, key);
      var retained := false;
      if isLatest && storage.Some? && storage.value.1 <= limits.maxBytes {
        retained := Retain(before, key, storage.value.0, storage.value.1, now);
      }
      if isLatest && !retained {
        latest := latest - {key.request};
      }
    }

    /** Evicts until the charge fits, then inserts the completed entry. */
    method Retain(ghost before: Cache, key: EntryKey, reply: Reply, charge: nat, now: nat) returns (retained: bool)
      requires Now().OrderOk() && QueueOk(before)
      requires key in InFlightKeys(before.entries) && Abs() == before.(entries := before.entries - {key})
      requires |before.entries| <= limits.capacity
      requires key.generation < nextGeneration && key !in order
      requires charge <= limits.maxBytes
      modifies this`entries, this`latest, this`order, this`completedBytes
      ensures retained
      ensures Now().OrderOk()
      ensures Abs() == Insert(Without(before, Squeezed(before, charge, limits.maxBytes)), key, reply, charge, now)
      ensures |order| <= Max(64, 2 * limits.capacity)
    {
      assert key in before.entries;
      hide Fields.OrderOk, Fields.Abs, Keep, QueueOk, Squeezed, CompletedKeys, InFlightKeys, Without, Insert;
      MakeRoom(before, key, charge);
      retained := completedBytes + charge <= limits.maxBytes;
      if retained {
        ghost var dead := Squeezed(before, charge, limits.maxBytes);
        FieldsOfAbs(Now());
        InsertedAfterEviction(before, key, dead, Abs(), reply, charge, now);
        Store(key, reply, charge, now);
        FieldsOfAbs(Now());
      }
    }

    method Store(key: EntryKey, reply: Reply, charge: nat, now: nat)
      requires Now().OrderOk()
      requires key !in entries && key !in order && key.generation < nextGeneration
      modifies this`entries, this`order, this`completedBytes
      ensures Now().OrderOk()
      ensures Abs() == Insert(old(Abs()), key, reply, charge, now)
      ensures |order| <= Max(64, 2 * |entries|)
    {
      hide Fields.OrderOk, Fields.Abs, Keep, Insert;
      InsertFields(Now(), key, reply, charge, now);
      completedBytes := completedBytes + charge;
      entries := entries[key := Completed(reply, charge, now)];
      order := order + [key];
      CompactCompletionOrder();
    }

    static lemma InsertedAfterEviction(before: Cache, key: EntryKey, dead: set<EntryKey>, room: Cache,
                                       reply: Reply, charge: nat, now: nat)
      requires key in before.entries
      requires room == Without(before, dead).(entries := before.entries - {key} - dead)
      ensures Insert(room, key, reply, charge, now) == Insert(Without(before, dead), key, reply, charge, now)
      ensures |Insert(room, key, reply, charge, now).entries| <= |before.entries|
    {
      hide Keep;
      Reinserted(before.entries, key, dead, Completed(reply, charge, now));
    }

    static lemma Reinserted(m: map<EntryKey, EntryState>, key: EntryKey, dead: set<EntryKey>, s: EntryState)
      requires key in m
      ensures (m - {key} - dead)[key := s] == (m - dead)[key := s]
      ensures |(m - dead)[key := s]| <= |m|
    {
      SubsetSize((m - dead)[key := s].Keys, m.Keys);
    }

    /** The eviction loop of `complete`. It stops after evicting no more than it
        has to, and it never stops short. */
    method MakeRoom(ghost before: Cache, ghost key: EntryKey, charge: nat)
      requires Now().OrderOk() && QueueOk(before)
      requires key in InFlightKeys(before.entries) && Abs() == before.(entries := before.entries - {key})
      requires charge <= limits.maxBytes
      modifies this`entries, this`latest, this`order, this`completedBytes
      ensures Now().OrderOk()
      ensures Abs() == Without(before, Squeezed(before, charge, limits.maxBytes)).(entries := entries)
      ensures entries == before.entries - {key} - Squeezed(before, charge, limits.maxBytes)
      ensures completedBytes + charge <= limits.maxBytes
      ensures forall k :: k in order ==> k in old(order)
    {
      hide Fields.OrderOk, Fields.Abs, Keep, QueueOk, Charges, Without, InFlightKeys;
      ghost var q := before.queue;
      ghost var n := 0;
      TakenQueue(before, key, 0);
      assert Oldest(q, 0) == {} && q[0..] == q;
      WithoutNothing(before.(entries := before.entries - {key}));
      FieldsOfAbs(Now());
      ChargesOfQueue(Now(), before.entries);
      ghost var start := Abs();
      while completedBytes + charge > limits.maxBytes
        invariant Now().OrderOk()
        invariant n <= |q|
        invariant Abs() == Without(start, Oldest(q, n)) && Abs().queue == q[n..]
        invariant completedBytes == Charges(q[n..], before.entries)
        invariant forall m :: 0 <= m < n ==> Charges(q[m..], before.entries) + charge > limits.maxBytes
        invariant forall k :: k in order ==> k in old(order)
        decreases |q| - n
      {
        var evicted := EvictOldestCompleted();
        if !evicted {
          ChargesOfNothing(q[n..], before.entries);
          break;
        }
        WithoutTwice(start, Oldest(q, n), {q[n]});
        assert Oldest(q, n) + {q[n]} == Oldest(q, n + 1);
        n := n + 1;
        TakenQueue(before, key, n);
        FieldsOfAbs(Now());
        ChargesOfQueue(Now(), before.entries);
      }
      OverflowIsExact(q, before.entries, charge, limits.maxBytes);
      assert n == Overflow(q, before.entries, charge, limits.maxBytes);
      TakenQueue(before, key, n);
      FieldsOfAbs(Now());
    }

    static lemma FieldsOfAbs(f: Fields)
      ensures f.Abs().entries == f.entries && f.Abs().latest == f.latest && f.Abs().next == f.nextGeneration
    {
    }

    static lemma ChargesOfNothing(q: seq<EntryKey>, e: map<EntryKey, EntryState>)
      requires q == []
      ensures Charges(q, e) == 0
    {
    }

    /** Eviction of completed entries does not depend on the execution that is
        being completed. */
    static lemma TakenQueue(c: Cache, key: EntryKey, n: nat)
      requires QueueOk(c) && key in InFlightKeys(c.entries) && n <= |c.queue|
      ensures var start := c.(entries := c.entries - {key});
              var dead := Oldest(c.queue, n);
              && QueueOk(start)
              && Without(start, dead).queue == c.queue[n..] == Without(c, dead).queue
              && Without(start, dead) == Without(c, dead).(entries := c.entries - {key} - dead)
    {
      hide Keep, Sorted, Distinct;
      var start := c.(entries := c.entries - {key});
      TakenQueueOk(c, key);
      WithoutOldest(c, n);
      WithoutOldest(start, n);
      TakenWithout(c, key, Oldest(c.queue, n));
    }

    static lemma TakenQueueOk(c: Cache, key: EntryKey)
      requires QueueOk(c) && key in InFlightKeys(c.entries)
      ensures QueueOk(c.(entries := c.entries - {key}))
    {
      hide Distinct;
    }

    static lemma TakenWithout(c: Cache, key: EntryKey, dead: set<EntryKey>)
      requires Without(c.(entries := c.entries - {key}), dead).queue == Without(c, dead).queue
      ensures Without(c.(entries := c.entries - {key}), dead) ==
              Without(c, dead).(entries := c.entries - {key} - dead)
    {
      hide Keep;
    }

    /** Dropping or cancelling a lease. Cancelling a completed entry would leave it without
        its `latest` record, which is exactly when the invariant breaks; no lease holds one. */
    method Cancel(key: EntryKey) returns (waiters: seq<WaiterId>)
      requires Valid()
      modifies this
      ensures Valid() <==> key !in CompletedKeys(old(entries))
      ensures key !in CompletedKeys(old(entries)) ==> Abs() == ReplayModel.Cancel(old(Abs()), key)
      ensures key in CompletedKeys(old(entries)) ==>
                Now() == old(Now()).(latest := old(latest) - {key.request})
      ensures waiters == if key in InFlightKeys(old(entries)) then old(entries)[key].waiters else []
    {
      if key in CompletedKeys(entries) {
        CompletedCannotBeCancelled(Now(), limits, key);
      } else {
        CancelWellFormed(Abs(), limits, key);
        LatestIsPresent(Now(), limits, key);
      }
      hide WellFormed, Fields.OrderOk, Without, Keep, IsLatest;
      waiters := [];
      if key in entries && entries[key].InFlight? {
        DropFields(Now(), key);
        waiters := entries[key].waiters;
        entries := entries - {key};
      }
      if IsLatest(latest, key) {
        latest := latest - {key.request};
      }
    }

    static lemma CompletedCannotBeCancelled(f: Fields, limits: Limits, key: EntryKey)
      requires f.Valid(limits) && key in CompletedKeys(f.entries)
      ensures IsLatest(f.latest, key) && !f.(latest := f.latest - {key.request}).Valid(limits)
    {
      hide Fields.OrderOk, QueueOk, GenerationsOk, BoundsOk, Keep;
      assert !LatestOk(f.(latest := f.latest - {key.request}).Abs());
    }

    static lemma LatestIsPresent(f: Fields, limits: Limits, key: EntryKey)
      requires f.Valid(limits)
      ensures IsLatest(f.latest, key) ==> key in f.entries
    {
      hide Fields.OrderOk, QueueOk, GenerationsOk, BoundsOk, Keep;
      if IsLatest(f.latest, key) {
        assert Named(key.request, f.latest[key.request]) == key;
      }
    }
  }
}
