/** What each operation of the replay cache does, said entry by entry in terms of times,
    sizes and positions only: which replies a call finds, which it removes, and which
    replies a completion evicts. */
module ReplayLaws {
  import opened Sequences
  import opened Replies
  import opened ReplayModel
  import opened ReplayLemmas

  // ------------------------------------------------------------------------------ expiry

  /** A reply of age `ttl` or more; with no time to live every reply is. */
  ghost predicate TooOld(s: EntryState, now: nat, ttl: nat) {
    s.Completed? && (ttl == 0 || s.at + ttl <= now)
  }

  /** Expiry removes exactly the replies that are too old. */
  lemma ExpireIsExact(c: Cache, now: nat, ttl: nat, k: EntryKey)
    ensures k in ExpireAll(c, now, ttl).entries <==> k in c.entries && !TooOld(c.entries[k], now, ttl)
    ensures k in ExpireAll(c, now, ttl).entries ==> ExpireAll(c, now, ttl).entries[k] == c.entries[k]
    ensures k in ExpiredKeys(c.entries, now, ttl) <==> k in c.entries && TooOld(c.entries[k], now, ttl)
  {
    hide Keep;
  }

  // --------------------------------------------------------------------------- arrivals

  /** The newest use of `r` is the same call, and its reply, if any, is young enough. */
  ghost predicate Answerable(c: Cache, r: RequestKey, f: Fingerprint, now: nat, ttl: nat) {
    && r in c.latest && c.latest[r].fingerprint == f
    && var k := EntryKey(r, f, c.latest[r].generation);
       k in c.entries && !TooOld(c.entries[k], now, ttl)
  }

  /** A call is answered from the cache exactly when it is the request's newest and its reply
      is not too old; it is answered by that entry, and otherwise starts the next generation
      or is refused. */
  lemma BeginDecides(c: Cache, limits: Limits, r: RequestKey, f: Fingerprint, now: nat,
                     open: set<WaiterId>, w: WaiterId)
    requires WellFormed(c, limits)
    ensures var d := Begin(c, limits, r, f, now, open, w).1;
            && (d.Wait? || d.Replay? <==> Answerable(c, r, f, now, limits.ttl))
            && (Answerable(c, r, f, now, limits.ttl) ==>
                  var k := EntryKey(r, f, c.latest[r].generation);
                  d == match c.entries[k] {
                         case InFlight(_) => Wait(k, w)
                         case Completed(reply, _, _) => Replay(k, reply)
                       })
            && (d.Execute? ==> d.key == EntryKey(r, f, c.next))
  {
    hide Keep, WellFormed;
    var live := ExpireAll(c, now, limits.ttl);
    if r in c.latest {
      ExpireIsExact(c, now, limits.ttl, Named(r, c.latest[r]));
    }
  }

  /** The entries that neither age nor the new call on `r` removes. */
  ghost function Occupants(c: Cache, r: RequestKey, now: nat, ttl: nat): set<EntryKey> {
    set k | k in c.entries && !TooOld(c.entries[k], now, ttl) && !(c.entries[k].Completed? && k.request == r)
  }

  /** The reply at position `i` is in `some`, and none before it. */
  ghost predicate FirstAt(queue: seq<EntryKey>, some: set<EntryKey>, i: int) {
    0 <= i < |queue| && queue[i] in some && forall j :: 0 <= j < i ==> queue[j] !in some
  }

  /** `k` is the reply among `some` that completed first. */
  ghost predicate Earliest(queue: seq<EntryKey>, some: set<EntryKey>, k: EntryKey) {
    exists i :: 0 <= i < |queue| && FirstAt(queue, some, i) && queue[i] == k
  }

  lemma {:induction false} KeepFirst(queue: seq<EntryKey>, kept: set<EntryKey>, k: EntryKey)
    ensures Earliest(queue, kept, k) <==> Keep(queue, kept) != [] && Keep(queue, kept)[0] == k
  {
    hide FirstAt;
    if queue == [] {
      NoFirst(kept);
    } else if queue[0] in kept {
      FirstIsUnique(queue, kept);
    } else {
      KeepFirst(queue[1..], kept, k);
      assert Keep(queue, kept) == Keep(queue[1..], kept);
      forall i
        ensures FirstAt(queue, kept, i) <==> FirstAt(queue[1..], kept, i - 1)
      {
        FirstShifts(queue, kept, i);
      }
      if Earliest(queue[1..], kept, k) {
        var i :| 0 <= i < |queue[1..]| && FirstAt(queue[1..], kept, i) && queue[1..][i] == k;
        assert FirstAt(queue, kept, i + 1);
        assert queue[i + 1] == k;
      }
      if Earliest(queue, kept, k) {
        var i :| 0 <= i < |queue| && FirstAt(queue, kept, i) && queue[i] == k;
        assert FirstAt(queue[1..], kept, i - 1);
        FirstInRange(queue[1..], kept, i - 1);
        assert queue[1..][i - 1] == k;
      }
    }
  }

  lemma NoFirst(kept: set<EntryKey>)
    ensures forall i :: !FirstAt([], kept, i)
  {
  }

  lemma FirstIsUnique(queue: seq<EntryKey>, kept: set<EntryKey>)
    requires queue != [] && queue[0] in kept
    ensures forall i :: FirstAt(queue, kept, i) <==> i == 0
  {
  }

  lemma FirstInRange(queue: seq<EntryKey>, kept: set<EntryKey>, i: int)
    requires FirstAt(queue, kept, i)
    ensures 0 <= i < |queue|
  {
  }

  lemma FirstShifts(queue: seq<EntryKey>, kept: set<EntryKey>, i: int)
    requires queue != [] && queue[0] !in kept
    ensures FirstAt(queue, kept, i) <==> FirstAt(queue[1..], kept, i - 1)
  {
    var rest := queue[1..];
    if FirstAt(queue, kept, i) {
      assert forall j :: 0 <= j < i - 1 ==> rest[j] == queue[j + 1];
    }
    if FirstAt(rest, kept, i - 1) {
      forall j | 0 <= j < i
        ensures queue[j] !in kept
      {
        if j > 0 {
          assert queue[j] == rest[j - 1];
        }
      }
    }
  }

  /** What is left once expired replies and the request's own reply are gone. */
  lemma FreeIsOccupants(c: Cache, limits: Limits, r: RequestKey, now: nat)
    requires WellFormed(c, limits)
    ensures var live := ExpireAll(c, now, limits.ttl);
            var free := Without(live, SupersededBy(live, r));
            && free.entries.Keys == Occupants(c, r, now, limits.ttl)
            && (forall k :: k in free.entries ==> free.entries[k] == c.entries[k])
            && free.queue == Keep(c.queue, Occupants(c, r, now, limits.ttl))
            && |Occupants(c, r, now, limits.ttl)| <= limits.capacity
  {
    hide Keep, WellFormed, ExpireAll, SupersededBy, ExpiredKeys, Without, TooOld;
    var live := ExpireAll(c, now, limits.ttl);
    var expired := ExpiredKeys(c.entries, now, limits.ttl);
    var sup := SupersededBy(live, r);
    ExpireIsRemoval(c, now, limits.ttl);
    WithoutWellFormed(c, limits, expired);
    WellFormedParts(live, limits);
    WellFormedParts(c, limits);
    SupersededIsOwnReply(live, r);
    WithoutTwice(c, expired, sup);
    forall k
      ensures k in expired + sup <==> k in c.entries && k !in Occupants(c, r, now, limits.ttl)
    {
      ExpireIsExact(c, now, limits.ttl, k);
    }
    WithoutByOccupants(c, expired + sup, Occupants(c, r, now, limits.ttl));
    SubsetSize(Occupants(c, r, now, limits.ttl), c.entries.Keys);
  }

  lemma ExpireIsRemoval(c: Cache, now: nat, ttl: nat)
    ensures ExpireAll(c, now, ttl) == Without(c, ExpiredKeys(c.entries, now, ttl))
  {
  }

  lemma SupersededIsOwnReply(c: Cache, r: RequestKey)
    requires LatestOk(c)
    ensures forall k :: k in SupersededBy(c, r) <==> k in c.entries && c.entries[k].Completed? && k.request == r
  {
    forall k | k in c.entries && c.entries[k].Completed? && k.request == r
      ensures k in SupersededBy(c, r)
    {
      assert IsLatest(c.latest, k);
      assert Named(r, c.latest[r]) == k;
    }
  }

  lemma WithoutByOccupants(c: Cache, dead: set<EntryKey>, left: set<EntryKey>)
    requires left <= c.entries.Keys && forall k :: k in dead <==> k in c.entries && k !in left
    ensures var c' := Without(c, dead);
            && c'.entries.Keys == left && c'.queue == Keep(c.queue, left)
            && forall k :: k in left ==> c'.entries[k] == c.entries[k]
  {
    hide Keep;
    assert c.entries.Keys - dead == left;
  }

  /** Why an arrival on `r` removes the entry `k`: its reply is too old; or a new execution
      starts and it is the request's own older reply, or every slot is taken and it is the
      reply that completed first. */
  ghost predicate Removes(c: Cache, limits: Limits, r: RequestKey, now: nat, executes: bool, k: EntryKey)
    requires k in c.entries
  {
    var occupants := Occupants(c, r, now, limits.ttl);
    || TooOld(c.entries[k], now, limits.ttl)
    || (executes && c.entries[k].Completed? && k.request == r)
    || (executes && |occupants| == limits.capacity && Earliest(c.queue, occupants, k))
  }

  /** An arrival removes an entry exactly for one of those reasons. It adds only the new
      execution and changes only the waiters of the execution it joins. */
  lemma BeginKeepsExactly(c: Cache, limits: Limits, r: RequestKey, f: Fingerprint, now: nat,
                          open: set<WaiterId>, w: WaiterId, k: EntryKey)
    requires WellFormed(c, limits)
    ensures var (c', d) := Begin(c, limits, r, f, now, open, w);
            && (k in c.entries ==> (k !in c'.entries <==> Removes(c, limits, r, now, d.Execute?, k)))
            && (k in c.entries && k in c'.entries && d != Wait(k, w) ==> c'.entries[k] == c.entries[k])
            && (d == Wait(k, w) ==>
                  && k in c.entries && c.entries[k].InFlight? && k in c'.entries
                  && c'.entries[k] == InFlight(Keep(c.entries[k].waiters, open) + [w]))
            && (k !in c.entries ==> (k in c'.entries <==> d == Execute(k)))
            && (d == Execute(k) ==> k in c'.entries && c'.entries[k] == InFlight([]))
            && c'.next == (if d.Execute? then c.next + 1 else c.next)
  {
    hide Keep, WellFormed, Without, Known, SupersededBy, Displaced, Occupants, Earliest;
    var live := ExpireAll(c, now, limits.ttl);
    ExpireIsExact(c, now, limits.ttl, k);
    if Known(live, r, f) {
      ShareKeeps(live, r, f, open, w, k);
    } else {
      AdmitKeeps(c, limits, r, f, now, k);
    }
    ExpireNext(c, now, limits.ttl);
  }

  lemma ExpireNext(c: Cache, now: nat, ttl: nat)
    ensures ExpireAll(c, now, ttl).next == c.next
  {
    hide Keep;
  }

  lemma ShareKeeps(c: Cache, r: RequestKey, f: Fingerprint, open: set<WaiterId>, w: WaiterId, k: EntryKey)
    requires Known(c, r, f)
    ensures var (c', d) := Share(c, r, f, open, w);
            && c'.entries.Keys == c.entries.Keys && c'.next == c.next && !d.Execute?
            && (k in c.entries && d != Wait(k, w) ==> c'.entries[k] == c.entries[k])
            && (d == Wait(k, w) ==>
                  && k in c.entries && c.entries[k].InFlight?
                  && c'.entries[k] == InFlight(Keep(c.entries[k].waiters, open) + [w]))
  {
    hide Keep;
  }

  lemma AdmitKeeps(c: Cache, limits: Limits, r: RequestKey, f: Fingerprint, now: nat, k: EntryKey)
    requires WellFormed(c, limits)
    ensures var (c', d) := Admit(ExpireAll(c, now, limits.ttl), limits, r, f);
            && (k in c.entries ==> (k !in c'.entries <==> Removes(c, limits, r, now, d.Execute?, k)))
            && (k in c.entries && k in c'.entries ==> c'.entries[k] == c.entries[k])
            && (k !in c.entries ==> (k in c'.entries <==> d == Execute(k)))
            && (d == Execute(k) ==> k in c'.entries && c'.entries[k] == InFlight([]))
            && c'.next == (if d.Execute? then c.next + 1 else c.next)
  {
    hide Keep, Earliest, WellFormed, Admit, SupersededBy, ExpireAll, TooOld, Without;
    var live := ExpireAll(c, now, limits.ttl);
    var free := Without(live, SupersededBy(live, r));
    ExpireNext(c, now, limits.ttl);
    WellFormedParts(c, limits);
    FreeIsOccupants(c, limits, r, now);
    KeepFirst(c.queue, Occupants(c, r, now, limits.ttl), k);
    AdmitFromFree(live, limits, r, f, k);
    RefusalKeepsAll(c, limits, r, f, now);
  }

  /** What starting a generation does to the entries left by the request's own reply. */
  lemma AdmitFromFree(live: Cache, limits: Limits, r: RequestKey, f: Fingerprint, k: EntryKey)
    ensures var free := Without(live, SupersededBy(live, r));
            var (c', d) := Admit(live, limits, r, f);
            && (d.Refuse? ==> c'.entries == free.entries && c'.next == live.next)
            && (!d.Refuse? ==> d == Execute(EntryKey(r, f, live.next)) && c'.next == live.next + 1)
            && (d == Execute(k) ==> k in c'.entries && c'.entries[k] == InFlight([]))
            && (d.Execute? && d != Execute(k) ==>
                  && (k in c'.entries <==>
                      k in free.entries && !(|free.entries| >= limits.capacity && free.queue != [] && free.queue[0] == k))
                  && (k in c'.entries ==> c'.entries[k] == free.entries[k]))
  {
    hide Keep, SupersededBy;
    AdmitSteps(live, limits, r, f);
  }

  /** A refusal finds nothing of the request to displace. */
  lemma RefusalKeepsAll(c: Cache, limits: Limits, r: RequestKey, f: Fingerprint, now: nat)
    requires WellFormed(c, limits)
    ensures var live := ExpireAll(c, now, limits.ttl);
            && (forall k :: k in live.entries <==> k in c.entries && !TooOld(c.entries[k], now, limits.ttl))
            && (Admit(live, limits, r, f).1.Refuse? ==> Admit(live, limits, r, f).0 == live)
  {
    hide Keep, WellFormed, Admit, TooOld, ExpireAll, Without;
    ExpireIsRemoval(c, now, limits.ttl);
    WithoutWellFormed(c, limits, ExpiredKeys(c.entries, now, limits.ttl));
    AdmitRefusal(ExpireAll(c, now, limits.ttl), limits, r, f);
    forall k
      ensures k in ExpireAll(c, now, limits.ttl).entries <==> k in c.entries && !TooOld(c.entries[k], now, limits.ttl)
    {
      ExpireIsExact(c, now, limits.ttl, k);
    }
  }

  // -------------------------------------------------------------------------- completions

  /** The retained bytes are the sum of the charges: none without a reply, and each reply
      counts with its own charge. */
  lemma BytesAreTheSum(c: Cache, limits: Limits, k: EntryKey)
    requires WellFormed(c, limits)
    ensures CompletedKeys(c.entries) == {} ==> Charges(c.queue, c.entries) == 0
    ensures k in CompletedKeys(c.entries) ==>
              var rest := c.entries - {k};
              Charges(c.queue, c.entries) == c.entries[k].charge + Charges(Keep(c.queue, rest.Keys), rest)
  {
    hide Charges;
    if CompletedKeys(c.entries) == {} {
      NoCharges(c.queue, c.entries);
    }
    if k in CompletedKeys(c.entries) {
      var rest := c.entries - {k};
      ChargesTakeOut(c.queue, c.entries, k);
      ChargesKeep(c.queue, rest, rest.Keys);
    }
  }

  lemma {:induction false} NoCharges(q: seq<EntryKey>, entries: map<EntryKey, EntryState>)
    requires CompletedKeys(entries) == {}
    ensures Charges(q, entries) == 0
  {
    if q == [] {
    } else {
      assert q[0] !in CompletedKeys(entries);
      NoCharges(q[1..], entries);
    }
  }

  lemma {:induction false} ChargesTakeOut(q: seq<EntryKey>, e: map<EntryKey, EntryState>, k: EntryKey)
    requires Distinct(q) && k in q && k in e && e[k].Completed?
    ensures Charges(q, e) == e[k].charge + Charges(q, e - {k})
  {
    if q[0] == k {
      ChargesCongruent(q[1..], e, e - {k});
    } else {
      ChargesTakeOut(q[1..], e, k);
    }
  }

  /** The replies that completed no earlier than `x` leave too little room for `charge`. */
  ghost predicate Crowded(c: Cache, x: EntryKey, charge: nat, maxBytes: nat) {
    exists i :: 0 <= i < |c.queue| && c.queue[i] == x && Charges(c.queue[i..], c.entries) + charge > maxBytes
  }

  /** The reply is worth keeping: it fits by itself and belongs to the newest call. */
  ghost predicate Keepable(c: Cache, limits: Limits, k: EntryKey, storage: Option<(Reply, nat)>) {
    && storage.Some? && storage.value.1 <= limits.maxBytes
    && k.request in c.latest
    && c.latest[k.request].fingerprint == k.fingerprint && c.latest[k.request].generation == k.generation
  }

  /** A completion stores a keepable reply under its charge and time, and evicts for it
      exactly the replies it has no room beside, oldest first; any other reply is dropped
      and evicts nothing. Executions stay. */
  lemma CompleteKeepsExactly(c: Cache, limits: Limits, k: EntryKey, storage: Option<(Reply, nat)>, now: nat, x: EntryKey)
    requires WellFormed(c, limits) && k in c.entries && c.entries[k].InFlight?
    ensures var c' := Complete(c, limits, k, storage, now);
            var kept := Keepable(c, limits, k, storage);
            && (k in c'.entries <==> kept)
            && (kept ==> c'.entries[k] == Completed(storage.value.0, storage.value.1, now))
            && (x != k && x in c.entries ==>
                  (x !in c'.entries <==> kept && c.entries[x].Completed? && Crowded(c, x, storage.value.1, limits.maxBytes)))
            && (x != k && x in c'.entries ==> x in c.entries && c'.entries[x] == c.entries[x])
            && c'.next == c.next
  {
    hide Keep, Charges, Overflow, LatestOk, GenerationsOk, Sorted;
    if Keepable(c, limits, k, storage) {
      var charge := storage.value.1;
      SqueezedIsCrowded(c, charge, limits.maxBytes, x);
      SqueezedIsCrowded(c, charge, limits.maxBytes, k);
      hide Squeezed, Crowded;
    }
  }

  lemma SqueezedIsCrowded(c: Cache, charge: nat, maxBytes: nat, x: EntryKey)
    requires QueueOk(c) && charge <= maxBytes
    ensures x in Squeezed(c, charge, maxBytes) <==>
            x in c.entries && c.entries[x].Completed? && Crowded(c, x, charge, maxBytes)
  {
    hide Charges, Overflow, QueueOk;
    var q, n := c.queue, Overflow(c.queue, c.entries, charge, maxBytes);
    OverflowIsExact(q, c.entries, charge, maxBytes);
    QueueIsPresent(c);
    if x in Squeezed(c, charge, maxBytes) {
      var i :| 0 <= i < n && q[i] == x;
    }
    if Crowded(c, x, charge, maxBytes) {
      var i :| 0 <= i < |q| && q[i] == x && Charges(q[i..], c.entries) + charge > maxBytes;
      LaterChargesLess(q, c.entries, n, i);
      assert q[..n][i] == x;
    }
  }

  /** A later part of the queue is charged no more than an earlier one. */
  lemma LaterChargesLess(q: seq<EntryKey>, entries: map<EntryKey, EntryState>, n: nat, i: nat)
    requires n <= |q| && i <= |q|
    ensures n <= i ==> Charges(q[i..], entries) <= Charges(q[n..], entries)
  {
    hide Charges;
    if n <= i {
      assert q[n..] == q[n..i] + q[i..];
      ChargesAppend(q[n..i], q[i..], entries);
    }
  }

  /** A cancelled execution goes and takes nothing with it. */
  lemma CancelKeepsExactly(c: Cache, k: EntryKey)
    requires k in c.entries && c.entries[k].InFlight?
    ensures Cancel(c, k).entries == c.entries - {k} && Cancel(c, k).next == c.next
  {
    hide Keep;
  }

  // ---------------------------------------------------------------- records and positions

  /** `latest` loses a record exactly when its entry is gone, except for the request `r`. */
  ghost predicate RecordsFollow(c: Cache, c': Cache, r: Option<RequestKey>) {
    forall q :: Some(q) != r ==>
      && (q in c'.latest <==> q in c.latest && Named(q, c.latest[q]) in c'.entries)
      && (q in c'.latest ==> c'.latest[q] == c.latest[q])
  }

  lemma WithoutFollows(c: Cache, limits: Limits, dead: set<EntryKey>)
    requires WellFormed(c, limits)
    ensures RecordsFollow(c, Without(c, dead), None)
    ensures Without(c, dead).queue == Keep(c.queue, Without(c, dead).entries.Keys)
  {
    hide Keep;
    assert (c.entries - dead).Keys == c.entries.Keys - dead;
  }

  /** An arrival touches `latest` only where entries went, and sets the request's own record
      when it starts an execution; the queue keeps its order. */
  lemma BeginRecords(c: Cache, limits: Limits, r: RequestKey, f: Fingerprint, now: nat,
                     open: set<WaiterId>, w: WaiterId)
    requires WellFormed(c, limits)
    ensures var (c', d) := Begin(c, limits, r, f, now, open, w);
            && RecordsFollow(c, c', if d.Execute? then Some(r) else None)
            && (d.Execute? ==> r in c'.latest && c'.latest[r] == Latest(f, c.next))
            && c'.queue == Keep(c.queue, c'.entries.Keys)
  {
    hide Keep, WellFormed, Without, Known, SupersededBy, Displaced, RecordsFollow, Admit, Grant, Join;
    var live := ExpireAll(c, now, limits.ttl);
    ExpireIsRemoval(c, now, limits.ttl);
    WithoutFollows(c, limits, ExpiredKeys(c.entries, now, limits.ttl));
    WithoutWellFormed(c, limits, ExpiredKeys(c.entries, now, limits.ttl));
    if Known(live, r, f) {
      ShareRecords(c, live, r, f, open, w);
    } else {
      AdmitRecords(c, limits, r, f, now);
    }
  }

  lemma ShareRecords(c: Cache, live: Cache, r: RequestKey, f: Fingerprint, open: set<WaiterId>, w: WaiterId)
    requires Known(live, r, f) && RecordsFollow(c, live, None)
    ensures var (c', d) := Share(live, r, f, open, w);
            RecordsFollow(c, c', None) && c'.queue == live.queue && c'.entries.Keys == live.entries.Keys && !d.Execute?
  {
    hide Keep;
  }

  lemma AdmitRecords(c: Cache, limits: Limits, r: RequestKey, f: Fingerprint, now: nat)
    requires WellFormed(c, limits)
    ensures var (c', d) := Admit(ExpireAll(c, now, limits.ttl), limits, r, f);
            && RecordsFollow(c, c', if d.Execute? then Some(r) else None)
            && (d.Execute? ==> r in c'.latest && c'.latest[r] == Latest(f, c.next))
            && c'.queue == Keep(c.queue, c'.entries.Keys)
  {
    hide Keep, WellFormed, Without, SupersededBy, Displaced, RecordsFollow, ExpiredKeys, Grant, Admit, ExpireAll;
    var live := ExpireAll(c, now, limits.ttl);
    var expired, sup := ExpiredKeys(c.entries, now, limits.ttl), SupersededBy(live, r);
    var free := Without(live, sup);
    var dead := Displaced(free, limits);
    ExpireIsRemoval(c, now, limits.ttl);
    WithoutTwice(c, expired, sup);
    WithoutTwice(c, expired + sup, dead);
    WithoutFollows(c, limits, expired + sup);
    WithoutFollows(c, limits, expired + sup + dead);
    AdmitSteps(live, limits, r, f);
    GrantRecords(c, limits, expired + sup + dead, r, f);
  }

  lemma GrantRecords(c: Cache, limits: Limits, dead: set<EntryKey>, r: RequestKey, f: Fingerprint)
    requires WellFormed(c, limits)
    ensures var c' := Grant(Without(c, dead), r, f);
            && RecordsFollow(c, c', Some(r))
            && r in c'.latest && c'.latest[r] == Latest(f, c.next)
            && c'.queue == Keep(c.queue, c'.entries.Keys)
  {
    hide Keep, BoundsOk, Sorted, Distinct;
    var c' := Grant(Without(c, dead), r, f);
    WithoutFollows(c, limits, dead);
    assert EntryKey(r, f, c.next) !in c.queue && EntryKey(r, f, c.next) !in c.entries;
    KeepCongruent(c.queue, Without(c, dead).entries.Keys, c'.entries.Keys);
  }

  /** A completion likewise; a stored reply goes to the end of the queue. */
  lemma CompleteRecords(c: Cache, limits: Limits, k: EntryKey, storage: Option<(Reply, nat)>, now: nat)
    requires WellFormed(c, limits) && k in c.entries && c.entries[k].InFlight?
    ensures var c' := Complete(c, limits, k, storage, now);
            && RecordsFollow(c, c', None)
            && c'.queue == Keep(c.queue, c'.entries.Keys) + if Keepable(c, limits, k, storage) then [k] else []
  {
    hide Keep, Squeezed, WellFormed, Without, RecordsFollow;
    WithoutFollows(c, limits, {k});
    if Keepable(c, limits, k, storage) {
      var dead := Squeezed(c, storage.value.1, limits.maxBytes);
      WithoutFollows(c, limits, dead);
      WellFormedParts(c, limits);
      SqueezedIsCrowded(c, storage.value.1, limits.maxBytes, k);
      InsertRecords(c, dead, k, storage.value.0, storage.value.1, now);
    }
  }

  lemma InsertRecords(c: Cache, dead: set<EntryKey>, k: EntryKey, reply: Reply, charge: nat, now: nat)
    requires k in c.entries && k !in dead && RecordsFollow(c, Without(c, dead), None)
    ensures var c' := Insert(Without(c, dead), k, reply, charge, now);
            RecordsFollow(c, c', None) && c'.queue == Keep(c.queue, c'.entries.Keys) + [k]
  {
    hide Keep;
    var roomy := Without(c, dead);
    assert Insert(roomy, k, reply, charge, now).entries.Keys == roomy.entries.Keys == c.entries.Keys - dead;
  }

  /** A cancellation likewise. */
  lemma CancelRecords(c: Cache, limits: Limits, k: EntryKey)
    requires WellFormed(c, limits) && k in c.entries && c.entries[k].InFlight?
    ensures RecordsFollow(c, Cancel(c, k), None)
    ensures Cancel(c, k).queue == c.queue
  {
    hide Keep;
    WithoutFollows(c, limits, {k});
    KeepAll(c.queue, c.entries.Keys - {k});
  }
}
