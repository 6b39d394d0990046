/** What every operation of the replay model keeps, and what it removes. */
module ReplayLemmas {
  import opened Sequences
  import opened Replies
  import opened ReplayModel

  // ------------------------------------------------------------------ charges

  lemma {:induction false} ChargesAppend(q: seq<EntryKey>, t: seq<EntryKey>, entries: map<EntryKey, EntryState>)
    ensures Charges(q + t, entries) == Charges(q, entries) + Charges(t, entries)
  {
    if q == [] {
      assert q + t == t;
    } else {
      assert (q + t)[1..] == q[1..] + t;
      ChargesAppend(q[1..], t, entries);
    }
  }

  lemma {:induction false} ChargesCongruent(q: seq<EntryKey>, e: map<EntryKey, EntryState>, e': map<EntryKey, EntryState>)
    requires forall k :: k in q ==> ChargeOf(e, k) == ChargeOf(e', k)
    ensures Charges(q, e) == Charges(q, e')
  {
    if q == [] {
    } else {
      ChargesCongruent(q[1..], e, e');
    }
  }

  /** Dropping queue positions that name no charged entry changes no charge. */
  lemma {:induction false} ChargesKeep(q: seq<EntryKey>, entries: map<EntryKey, EntryState>, kept: set<EntryKey>)
    requires forall k :: k in q && k !in kept ==> ChargeOf(entries, k) == 0
    ensures Charges(Keep(q, kept), entries) == Charges(q, entries)
  {
    if q == [] {
    } else {
      ChargesKeep(q[1..], entries, kept);
      if q[0] in kept {
        assert Keep(q, kept)[1..] == Keep(q[1..], kept);
      } else {
        assert Keep(q, kept) == Keep(q[1..], kept);
      }
    }
  }

  lemma {:induction false} ChargesShrink(q: seq<EntryKey>, entries: map<EntryKey, EntryState>, kept: set<EntryKey>)
    ensures Charges(Keep(q, kept), entries) <= Charges(q, entries)
  {
    if q == [] {
    } else {
      ChargesShrink(q[1..], entries, kept);
      if q[0] in kept {
        assert Keep(q, kept)[1..] == Keep(q[1..], kept);
      } else {
        assert Keep(q, kept) == Keep(q[1..], kept);
      }
    }
  }

  // ------------------------------------------------------------------ removal

  lemma WithoutQueue(c: Cache, dead: set<EntryKey>)
    requires QueueOk(c)
    ensures QueueOk(Without(c, dead))
  {
    KeepMembers(c.queue, c.entries.Keys - dead);
    KeepDistinct(c.queue, c.entries.Keys - dead);
    KeepSorted(c.queue, c.entries, c.entries.Keys - dead);
  }

  lemma {:induction false} KeepSorted(q: seq<EntryKey>, entries: map<EntryKey, EntryState>, kept: set<EntryKey>)
    requires forall k :: k in q ==> k in entries && entries[k].Completed?
    requires Sorted(q, entries)
    ensures forall k :: k in Keep(q, kept) ==> k in q && k in kept
    ensures Sorted(Keep(q, kept), entries)
  {
    if q == [] {
    } else {
      KeepSorted(q[1..], entries, kept);
      KeepMembers(q, kept);
      var rest := Keep(q[1..], kept);
      forall k | k in rest ensures entries[q[0]].at <= entries[k].at {
        assert k in q[1..];
      }
    }
  }

  lemma WithoutWellFormed(c: Cache, limits: Limits, dead: set<EntryKey>)
    requires WellFormed(c, limits)
    ensures WellFormed(Without(c, dead), limits)
  {
    WithoutQueue(c, dead);
    var c' := Without(c, dead);
    assert c'.entries.Keys <= c.entries.Keys;
    SubsetSize(c'.entries.Keys, c.entries.Keys);
    ChargesShrink(c.queue, c.entries, c.entries.Keys - dead);
    KeepMembers(c.queue, c.entries.Keys - dead);
    ChargesCongruent(c'.queue, c.entries, c'.entries);
  }

  lemma WellFormedParts(c: Cache, limits: Limits)
    requires WellFormed(c, limits)
    ensures QueueOk(c) && LatestOk(c) && GenerationsOk(c) && BoundsOk(c, limits)
  {
  }

  lemma WithoutTwice(c: Cache, a: set<EntryKey>, b: set<EntryKey>)
    ensures Without(Without(c, a), b) == Without(c, a + b)
  {
    hide Keep;
    KeepKeep(c.queue, c.entries.Keys - a, (c.entries - a).Keys - b);
    assert (c.entries.Keys - a) * ((c.entries - a).Keys - b) == c.entries.Keys - (a + b);
    assert (c.entries - a) - b == c.entries - (a + b);
  }

  lemma WithoutNothing(c: Cache)
    requires QueueOk(c)
    ensures Without(c, {}) == c
  {
    KeepAll(c.queue, c.entries.Keys - {});
  }

  /** Removing completed entries leaves every in-flight one, and the `latest`
      record of every surviving entry, as they were. */
  lemma WithoutCompleted(c: Cache, dead: set<EntryKey>)
    requires dead <= CompletedKeys(c.entries)
    ensures InFlightKeys(Without(c, dead).entries) == InFlightKeys(c.entries)
    ensures forall k :: k !in dead ==> IsLatest(Without(c, dead).latest, k) == IsLatest(c.latest, k)
  {
  }

  /** Removing a completed entry frees a slot and takes its charge away. */
  lemma WithoutFrees(c: Cache, k: EntryKey)
    requires k in c.entries
    ensures |Without(c, {k}).entries| == |c.entries| - 1
  {
    var c' := Without(c, {k});
    assert c'.entries.Keys == c.entries.Keys - {k};
  }

  // ------------------------------------------------------------------- expiry

  /** The full scan leaves no completed entry of age `ttl` or more. */
  lemma ExpireAllIsComplete(c: Cache, now: nat, ttl: nat)
    ensures ExpiredKeys(ExpireAll(c, now, ttl).entries, now, ttl) == {}
    ensures ExpiredKeys(c.entries, now, ttl) <= CompletedKeys(c.entries)
  {
  }

  /** In a queue sorted by completion, a young front means that nothing is old. */
  lemma YoungFront(c: Cache, now: nat, ttl: nat)
    requires QueueOk(c)
    requires c.queue != [] ==> !IsExpired(c.entries[c.queue[0]], now, ttl)
    ensures ExpiredKeys(c.entries, now, ttl) == {}
  {
    forall k | k in c.entries && c.entries[k].Completed?
      ensures !IsExpired(c.entries[k], now, ttl)
    {
      var i :| 0 <= i < |c.queue| && c.queue[i] == k;
    }
  }

  // ----------------------------------------------------------------- eviction

  /** Evicting `Overflow` entries from the front makes room, and no fewer do. */
  lemma {:induction false} OverflowIsExact(q: seq<EntryKey>, entries: map<EntryKey, EntryState>, charge: nat, maxBytes: nat)
    requires charge <= maxBytes
    ensures var n := Overflow(q, entries, charge, maxBytes);
            && Charges(q[n..], entries) + charge <= maxBytes
            && forall m :: 0 <= m < n ==> Charges(q[m..], entries) + charge > maxBytes
  {
    if !(q == [] || Charges(q, entries) + charge <= maxBytes) {
      OverflowIsExact(q[1..], entries, charge, maxBytes);
      var n := Overflow(q, entries, charge, maxBytes);
      assert q[n..] == q[1..][n - 1..];
      forall m | 0 <= m < n ensures Charges(q[m..], entries) + charge > maxBytes {
        if m > 0 { assert q[m..] == q[1..][m - 1..]; }
      }
    } else {
      assert q[0..] == q;
    }
  }

  /** Removing the `n` oldest entries drops exactly the first `n` queue positions. */
  lemma WithoutOldest(c: Cache, n: nat)
    requires QueueOk(c)
    requires n <= |c.queue|
    ensures Without(c, Oldest(c.queue, n)).queue == c.queue[n..]
  {
    var dead := Oldest(c.queue, n);
    var kept := c.entries.Keys - dead;
    assert c.queue == c.queue[..n] + c.queue[n..];
    KeepAppend(c.queue[..n], c.queue[n..], kept);
    KeepMembers(c.queue[..n], kept);
    KeepNone(c.queue[..n], kept);
    forall k | k in c.queue[n..] ensures k in kept {
      assert k in c.queue;
      var j :| n <= j < |c.queue| && c.queue[j] == k;
    }
    KeepAll(c.queue[n..], kept);
  }

  lemma {:induction false} KeepNone<T>(s: seq<T>, kept: set<T>)
    requires forall x :: x in s ==> x !in kept
    ensures Keep(s, kept) == []
  {
    if s == [] {
    } else {
      KeepNone(s[1..], kept);
    }
  }

  // --------------------------------------------------- operations keep the invariant

  lemma GrantKeepsLatest(c: Cache, r: RequestKey, f: Fingerprint)
    requires LatestOk(c)
    requires SupersededBy(c, r) == {}
    ensures LatestOk(Grant(c, r, f))
  {
    var c' := Grant(c, r, f);
    forall k | k in c'.entries && c'.entries[k].Completed? ensures IsLatest(c'.latest, k) {
      assert IsLatest(c.latest, k);
      if k.request == r {
        assert Named(r, c.latest[r]) == k;
      }
    }
  }

  lemma GrantKeepsQueue(c: Cache, r: RequestKey, f: Fingerprint)
    requires QueueOk(c) && GenerationsOk(c)
    ensures QueueOk(Grant(c, r, f)) && GenerationsOk(Grant(c, r, f))
    ensures Charges(c.queue, Grant(c, r, f).entries) == Charges(c.queue, c.entries)
    ensures |Grant(c, r, f).entries| == |c.entries| + 1
  {
    hide Distinct, Charges, Sorted, QueueOk;
    var c' := Grant(c, r, f);
    var k := EntryKey(r, f, c.next);
    assert k !in c.entries;
    assert c'.entries.Keys == c.entries.Keys + {k};
    QueueIsPresent(c);
    GrantedQueueOk(c, r, f);
    ChargesCongruent(c.queue, c.entries, c'.entries);
  }

  lemma QueueIsPresent(c: Cache)
    requires QueueOk(c)
    ensures forall k :: k in c.queue ==> k in c.entries && c.entries[k].Completed?
  {
  }

  lemma GrantedQueueOk(c: Cache, r: RequestKey, f: Fingerprint)
    requires QueueOk(c) && EntryKey(r, f, c.next) !in c.entries
    ensures QueueOk(Grant(c, r, f))
  {
    hide Distinct, Sorted;
    SortedCongruent(c.queue, c.entries, Grant(c, r, f).entries);
  }

  lemma SortedCongruent(q: seq<EntryKey>, a: map<EntryKey, EntryState>, b: map<EntryKey, EntryState>)
    requires forall k :: k in q ==> k in a && a[k].Completed? && k in b && b[k] == a[k]
    requires Sorted(q, a)
    ensures Sorted(q, b)
  {
    forall i, j | 0 <= i < j < |q|
      ensures b[q[i]].at <= b[q[j]].at
    {
      assert q[i] in q && q[j] in q;
    }
  }

  lemma SupersededOnce(c: Cache, r: RequestKey)
    ensures SupersededBy(Without(c, SupersededBy(c, r)), r) == {}
  {
  }

  lemma AdmitSteps(c: Cache, limits: Limits, r: RequestKey, f: Fingerprint)
    ensures var free := Without(c, SupersededBy(c, r));
            Admit(c, limits, r, f) ==
            if |free.entries| >= limits.capacity && free.queue == [] then (free, Refuse)
            else (Grant(Without(free, Displaced(free, limits)), r, f), Execute(EntryKey(r, f, c.next)))
  {
  }

  lemma AdmitWellFormed(c: Cache, limits: Limits, r: RequestKey, f: Fingerprint)
    requires WellFormed(c, limits)
    ensures WellFormed(Admit(c, limits, r, f).0, limits)
  {
    hide WellFormed, Without, SupersededBy, Displaced, Grant;
    var free := Without(c, SupersededBy(c, r));
    WithoutWellFormed(c, limits, SupersededBy(c, r));
    if !(|free.entries| >= limits.capacity && free.queue == []) {
      SupersededOnce(c, r);
      WellFormedParts(free, limits);
      WithoutWellFormed(free, limits, Displaced(free, limits));
      RoomAfterDisplacing(free, limits);
      SupersededStaysGone(free, r, Displaced(free, limits));
      GrantWellFormed(Without(free, Displaced(free, limits)), limits, r, f);
    }
  }

  lemma SupersededStaysGone(c: Cache, r: RequestKey, dead: set<EntryKey>)
    requires SupersededBy(c, r) == {}
    ensures SupersededBy(Without(c, dead), r) == {}
  {
    hide Keep;
  }

  lemma GrantWellFormed(c: Cache, limits: Limits, r: RequestKey, f: Fingerprint)
    requires WellFormed(c, limits) && SupersededBy(c, r) == {} && |c.entries| < limits.capacity
    ensures WellFormed(Grant(c, r, f), limits)
  {
    hide QueueOk, LatestOk, GenerationsOk, SupersededBy, Charges;
    GrantKeepsLatest(c, r, f);
    GrantKeepsQueue(c, r, f);
  }

  /** Every outcome of `begin` keeps the invariant. */
  lemma BeginWellFormed(c: Cache, limits: Limits, r: RequestKey, f: Fingerprint, now: nat,
                        open: set<WaiterId>, w: WaiterId)
    requires WellFormed(c, limits)
    ensures WellFormed(Begin(c, limits, r, f, now, open, w).0, limits)
  {
    var live := ExpireAll(c, now, limits.ttl);
    WithoutWellFormed(c, limits, ExpiredKeys(c.entries, now, limits.ttl));
    if Known(live, r, f) {
      var k := Named(r, live.latest[r]);
      if live.entries[k].InFlight? {
        JoinWellFormed(live, limits, k, open, w);
      }
    } else {
      AdmitWellFormed(live, limits, r, f);
    }
  }

  lemma RoomAfterDisplacing(c: Cache, limits: Limits)
    requires WellFormed(c, limits)
    requires !(|c.entries| >= limits.capacity && c.queue == [])
    ensures |Without(c, Displaced(c, limits)).entries| < limits.capacity
  {
    if |c.entries| >= limits.capacity {
      WithoutFrees(c, c.queue[0]);
    } else {
      WithoutNothing(c);
    }
  }

  lemma JoinWellFormed(c: Cache, limits: Limits, k: EntryKey, open: set<WaiterId>, w: WaiterId)
    requires WellFormed(c, limits)
    requires k in c.entries && c.entries[k].InFlight?
    ensures WellFormed(Join(c, k, open, w), limits)
  {
    var c' := Join(c, k, open, w);
    assert c'.entries.Keys == c.entries.Keys;
    ChargesCongruent(c.queue, c.entries, c'.entries);
  }

  lemma InsertKeepsQueue(c: Cache, k: EntryKey, reply: Reply, charge: nat, now: nat)
    requires QueueOk(c) && k in c.entries && c.entries[k].InFlight?
    requires forall k' :: k' in c.queue ==> c.entries[k'].at <= now
    ensures QueueOk(Insert(c, k, reply, charge, now))
  {
    DistinctAppend(c.queue, k);
  }

  lemma InsertWellFormed(c: Cache, limits: Limits, k: EntryKey, reply: Reply, charge: nat, now: nat)
    requires WellFormed(c, limits)
    requires k in c.entries && c.entries[k].InFlight? && IsLatest(c.latest, k)
    requires Charges(c.queue, c.entries) + charge <= limits.maxBytes
    requires forall k' :: k' in c.queue ==> c.entries[k'].at <= now
    ensures WellFormed(Insert(c, k, reply, charge, now), limits)
  {
    var c' := Insert(c, k, reply, charge, now);
    InsertKeepsQueue(c, k, reply, charge, now);
    assert c'.entries.Keys == c.entries.Keys;
    assert forall k' :: k' in c.queue ==> k' != k;
    hide Distinct, Sorted;
    ChargesAppend(c.queue, [k], c'.entries);
    ChargesCongruent(c.queue, c.entries, c'.entries);
  }

  /** The second phase of `complete` keeps the invariant, given that the clock it
      reads has not gone backwards. */
  lemma CompleteWellFormed(c: Cache, limits: Limits, k: EntryKey, storage: Option<(Reply, nat)>, now: nat)
    requires WellFormed(c, limits)
    requires forall k' :: k' in c.queue ==> c.entries[k'].at <= now
    ensures WellFormed(Complete(c, limits, k, storage, now), limits)
  {
    hide Keep, WellFormed, Without, Overflow, Charges, Insert, IsLatest;
    WellFormedParts(c, limits);
    if k in c.entries && c.entries[k].InFlight? {
      if Retains(c, limits, k, storage) {
        var charge := storage.value.1;
        var n := Overflow(c.queue, c.entries, charge, limits.maxBytes);
        var dead := Oldest(c.queue, n);
        WithoutWellFormed(c, limits, dead);
        WithoutOldest(c, n);
        OverflowIsExact(c.queue, c.entries, charge, limits.maxBytes);
        var roomy := Without(c, dead);
        RoomyFacts(c, limits, k, n, now);
        InsertWellFormed(roomy, limits, k, storage.value.0, charge, now);
      } else {
        WithoutWellFormed(c, limits, {k});
      }
    }
  }

  /** What evicting the `n` oldest replies leaves for an execution that is to be stored. */
  lemma RoomyFacts(c: Cache, limits: Limits, k: EntryKey, n: nat, now: nat)
    requires QueueOk(c) && n <= |c.queue| && k in InFlightKeys(c.entries) && IsLatest(c.latest, k)
    requires forall k' :: k' in c.queue ==> c.entries[k'].at <= now
    requires Without(c, Oldest(c.queue, n)).queue == c.queue[n..]
    ensures var roomy := Without(c, Oldest(c.queue, n));
            && k in roomy.entries && roomy.entries[k].InFlight? && IsLatest(roomy.latest, k)
            && Charges(roomy.queue, roomy.entries) == Charges(c.queue[n..], c.entries)
            && forall k' :: k' in roomy.queue ==> k' in roomy.entries && roomy.entries[k'].Completed? && roomy.entries[k'].at <= now
  {
    hide Keep, Distinct, Sorted, Charges;
    var dead := Oldest(c.queue, n);
    var roomy := Without(c, dead);
    forall k' | k' in dead
      ensures k' in c.queue
    {
    }
    forall k' | k' in c.queue[n..]
      ensures k' in roomy.entries && roomy.entries[k'] == c.entries[k']
    {
      assert k' in c.queue;
      NotAmongOldest(c.queue, n, k');
    }
    ChargesCongruent(roomy.queue, c.entries, roomy.entries);
  }

  lemma NotAmongOldest(q: seq<EntryKey>, n: nat, k: EntryKey)
    requires Distinct(q) && n <= |q| && k in q[n..]
    ensures k !in Oldest(q, n)
  {
    var j :| n <= j < |q| && q[j] == k;
    forall i | 0 <= i < n
      ensures q[i] != k
    {
    }
  }

  lemma CancelWellFormed(c: Cache, limits: Limits, k: EntryKey)
    requires WellFormed(c, limits)
    ensures WellFormed(Cancel(c, k), limits)
  {
    WithoutWellFormed(c, limits, {k});
  }

  // ------------------------------------------------------------ refusal is exact

  /** With no completed entry left, every slot is in flight, and conversely. */
  lemma FullOfExecutions(c: Cache)
    requires QueueOk(c)
    ensures |InFlightKeys(c.entries)| <= |c.entries|
    ensures c.queue == [] <==> |InFlightKeys(c.entries)| == |c.entries|
  {
    SubsetSize(InFlightKeys(c.entries), c.entries.Keys);
    if c.queue == [] {
      assert InFlightKeys(c.entries) == c.entries.Keys;
    } else {
      var k := c.queue[0];
      SubsetSize(InFlightKeys(c.entries), c.entries.Keys - {k});
    }
  }

  lemma AdmitRefusal(c: Cache, limits: Limits, r: RequestKey, f: Fingerprint)
    requires WellFormed(c, limits)
    ensures Admit(c, limits, r, f).1.Refuse? <==> |InFlightKeys(c.entries)| == limits.capacity
    ensures Admit(c, limits, r, f).1.Refuse? ==> Admit(c, limits, r, f).0 == c
  {
    FullOfExecutions(c);
    if SupersededBy(c, r) != {} {
      var k := Named(r, c.latest[r]);
      WithoutFrees(c, k);
      assert k in c.queue;
    } else {
      WithoutNothing(c);
    }
  }

  /** `begin` refuses exactly when the request is not answered from the cache and,
      once stale replies are gone, every slot is held by an execution in flight;
      a refusal discards nothing but what had expired. */
  lemma RefusalIsExact(c: Cache, limits: Limits, r: RequestKey, f: Fingerprint, now: nat,
                       open: set<WaiterId>, w: WaiterId)
    requires WellFormed(c, limits)
    ensures var live := ExpireAll(c, now, limits.ttl);
            var (c', d) := Begin(c, limits, r, f, now, open, w);
            && (d.Refuse? <==> !Known(live, r, f) && |InFlightKeys(live.entries)| == limits.capacity)
            && (d.Refuse? ==> c' == live)
  {
    var live := ExpireAll(c, now, limits.ttl);
    WithoutWellFormed(c, limits, ExpiredKeys(c.entries, now, limits.ttl));
    if !Known(live, r, f) {
      AdmitRefusal(live, limits, r, f);
    }
  }
}
