/** Runs of the replay cache under any interleaving of clients: every arrival,
    each of the two lock phases of a completion, every dropped lease and every
    disconnected duplicate is one step. A log records what happened. */
module ReplayRuns {
  import opened Sequences
  import opened Replies
  import opened ReplayModel
  import opened ReplayLemmas

  /** An unfinished lease: executing, or between the two locks of `complete`. */
  datatype Lease =
    | Working
    | Storing(reply: Reply, slackPrefix: nat, slackPayload: nat, eligible: bool)

  /** What a client asks for: one call under one request key. */
  datatype Call = Call(request: RequestKey, fingerprint: Fingerprint)

  function CallOf(k: EntryKey): Call {
    Call(k.request, k.fingerprint)
  }

  /** `Asked` opens an arrival; the decision on it, one of the next four events, closes it. */
  datatype Event =
    | Asked(call: Call)
    | Granted(key: EntryKey)
    | Joined(key: EntryKey, waiter: WaiterId)
    | Replayed(key: EntryKey, wire: seq<byte>)
    | Refused(call: Call)
    | Finished(key: EntryKey, wire: seq<byte>, retained: bool, sentTo: seq<WaiterId>)
    | Cancelled(key: EntryKey, sentTo: seq<WaiterId>)
    | Expired(keys: set<EntryKey>)
    | Evicted(keys: set<EntryKey>)

  datatype System = System(
    cache: Cache,
    leases: map<EntryKey, Lease>,
    nextWaiter: nat,
    closed: set<WaiterId>,
    clock: nat,
    log: seq<Event>)

  /** `Arrive` carries the time read before the lock was taken, so it may lag
      behind the clock; `Store` reads the clock under the lock. */
  datatype Action =
    | Arrive(request: RequestKey, fingerprint: Fingerprint, now: nat)
    | Prepare(key: EntryKey, reply: Reply, slackPrefix: nat, slackPayload: nat)
    | Store(key: EntryKey, now: nat)
    | Abandon(key: EntryKey)
    | Disconnect(waiter: WaiterId)

  const START := System(EMPTY, map[], 0, {}, 0, [])

  function Open(s: System): set<WaiterId> {
    set w | 0 <= w < s.nextWaiter && w !in s.closed
  }

  predicate Enabled(s: System, a: Action) {
    match a
    case Arrive(_, _, _) => true
    case Prepare(k, _, _, _) => k in s.leases && s.leases[k].Working?
    case Store(k, now) => k in s.leases && s.leases[k].Storing? && s.clock <= now
    case Abandon(k) => k in s.leases && s.leases[k].Working?
    case Disconnect(w) => w < s.nextWaiter
  }

  function WaitersOf(c: Cache, k: EntryKey): seq<WaiterId> {
    if k in c.entries && c.entries[k].InFlight? then c.entries[k].waiters else []
  }

  function EligibleAt(s: System, limits: Limits, k: EntryKey, reply: Reply): bool {
    |reply.Wire()| <= limits.maxBytes && (reply.RequiresCopy() ==> IsLatest(s.cache.latest, k) && k in InFlightKeys(s.cache.entries))
  }

  function StorageOf(l: Lease): Option<(Reply, nat)>
    requires l.Storing?
  {
    if l.eligible then Some(ReplayStorage(l.reply, l.slackPrefix, l.slackPayload)) else None
  }

  function ArriveStep(s: System, limits: Limits, r: RequestKey, f: Fingerprint, now: nat): System {
    var live := ExpireAll(s.cache, now, limits.ttl);
    var (cache, decision) := Begin(s.cache, limits, r, f, now, Open(s), s.nextWaiter);
    var log := s.log + [Asked(Call(r, f))] + [Expired(ExpiredKeys(s.cache.entries, now, limits.ttl))];
    match decision
    case Execute(k) =>
      var free := Without(live, SupersededBy(live, r));
      s.(cache := cache, leases := s.leases[k := Working],
         log := log + [Evicted(Displaced(free, limits))] + [Granted(k)])
    case Replay(k, reply) => s.(cache := cache, log := log + [Replayed(k, reply.Wire())])
    case Wait(k, w) => s.(cache := cache, nextWaiter := s.nextWaiter + 1, log := log + [Joined(k, w)])
    case Refuse => s.(cache := cache, log := log + [Refused(Call(r, f))])
  }

  function StoreStep(s: System, limits: Limits, k: EntryKey, now: nat): System
    requires Enabled(s, Store(k, now))
  {
    var storage := StorageOf(s.leases[k]);
    var retained := Retains(s.cache, limits, k, storage);
    var evicted := if retained then Squeezed(s.cache, storage.value.1, limits.maxBytes) else {};
    s.(cache := Complete(s.cache, limits, k, storage, now), leases := s.leases - {k}, clock := now,
       log := s.log + [Evicted(evicted)]
              + [Finished(k, s.leases[k].reply.Wire(), retained, Keep(WaitersOf(s.cache, k), Open(s)))])
  }

  function Step(s: System, limits: Limits, a: Action): System
    requires Enabled(s, a)
  {
    match a
    case Arrive(r, f, now) => ArriveStep(s, limits, r, f, now)
    case Prepare(k, reply, sp, sl) =>
      s.(leases := s.leases[k := Storing(reply, sp, sl, EligibleAt(s, limits, k, reply))])
    case Store(k, now) => StoreStep(s, limits, k, now)
    case Abandon(k) =>
      s.(cache := Cancel(s.cache, k), leases := s.leases - {k},
         log := s.log + [Cancelled(k, Keep(WaitersOf(s.cache, k), Open(s)))])
    case Disconnect(w) => s.(closed := s.closed + {w})
  }

  /** The state after a run, or nothing if some action was not enabled. */
  function Run(limits: Limits, actions: seq<Action>): Option<System> {
    if actions == [] then Some(START)
    else
      var n := |actions| - 1;
      match Run(limits, actions[..n])
      case None => None
      case Some(s) => if Enabled(s, actions[n]) then Some(Step(s, limits, actions[n])) else None
  }

  // ------------------------------------------------------------ what the log says

  /** Events after which the same request may execute again. */
  predicate Releases(e: Event, k: EntryKey) {
    match e
    case Cancelled(k', _) => k' == k
    case Finished(k', _, retained, _) => k' == k && !retained
    case Expired(keys) => k in keys
    case Evicted(keys) => k in keys
    case Granted(k') => k'.request == k.request && k'.fingerprint != k.fingerprint
    case _ => false
  }

  ghost predicate ReleasedAfter(log: seq<Event>, i: nat, k: EntryKey) {
    exists j :: i < j < |log| && Releases(log[j], k)
  }

  predicate Ends(e: Event, k: EntryKey) {
    (e.Finished? || e.Cancelled?) && e.key == k
  }

  ghost predicate Ended(log: seq<Event>, k: EntryKey) {
    exists e :: e in log && Ends(e, k)
  }

  ghost predicate Delivered(log: seq<Event>, k: EntryKey, w: WaiterId) {
    exists e :: e in log && Ends(e, k) && w in e.sentTo
  }

  ghost predicate FinishedWith(log: seq<Event>, k: EntryKey, wire: seq<byte>) {
    exists sent :: Finished(k, wire, true, sent) in log
  }

  ghost predicate GrantsReleased(past: seq<Event>, k: EntryKey) {
    forall i :: 0 <= i < |past| && past[i].Granted? && CallOf(past[i].key) == CallOf(k) ==>
      ReleasedAfter(past, i, past[i].key)
  }

  /** Granted at `i` and not released since. */
  ghost predicate LiveSince(log: seq<Event>, i: int, k: EntryKey) {
    0 <= i < |log| && log[i] == Granted(k) && !ReleasedAfter(log, i, k)
  }

  ghost predicate Live(log: seq<Event>, k: EntryKey) {
    exists i :: LiveSince(log, i, k)
  }

  predicate Decides(e: Event) {
    e.Granted? || e.Joined? || e.Replayed? || e.Refused?
  }

  /** The call a decision is about. */
  function Decided(e: Event): Call
    requires Decides(e)
  {
    if e.Refused? then e.call else CallOf(e.key)
  }

  /** The call that has been asked and not yet decided. */
  function Pending(log: seq<Event>): Option<Call> {
    if log == [] then None
    else
      var last := log[|log| - 1];
      if last.Asked? then Some(last.call)
      else if Decides(last) then None
      else Pending(log[..|log| - 1])
  }

  /** Every decision is about the call just asked. An execution is granted only when
      every earlier grant of the same call has been released; a replay repeats the one
      completion of an entry that has not been released; a duplicate joins an entry that
      has neither ended nor been released; an entry ends once; a reply or cancellation
      goes only to waiters of that entry, and a waiter joins one entry only. */
  ghost predicate Justified(past: seq<Event>, e: Event) {
    && (e.Asked? ==> Pending(past) == None)
    && (Decides(e) ==> Pending(past) == Some(Decided(e)))
    && Grounded(past, e)
  }

  ghost predicate Grounded(past: seq<Event>, e: Event) {
    match e
    case Granted(k) => Granted(k) !in past && GrantsReleased(past, k)
    case Replayed(k, wire) => FinishedWith(past, k, wire) && Live(past, k)
    case Joined(k, w) => !Ended(past, k) && Live(past, k) && forall k' :: Joined(k', w) !in past
    case Finished(k, _, _, sent) =>
      Granted(k) in past && !Ended(past, k) && Distinct(sent) && forall w :: w in sent ==> Joined(k, w) in past
    case Cancelled(k, sent) =>
      Granted(k) in past && !Ended(past, k) && Distinct(sent) && forall w :: w in sent ==> Joined(k, w) in past
    case _ => true
  }

  ghost predicate LogOk(log: seq<Event>) {
    log == [] || (LogOk(log[..|log| - 1]) && Justified(log[..|log| - 1], log[|log| - 1]))
  }

  // -------------------------------------------------------------------- invariant

  /** A granted call stays its request's latest until it is released. */
  ghost predicate GrantsLive(c: Cache, log: seq<Event>) {
    forall i :: 0 <= i < |log| && log[i].Granted? ==>
                  ReleasedAfter(log, i, log[i].key) || IsLatest(c.latest, log[i].key)
  }

  /** The latest generation of a request is live: granted, and not released since. */
  ghost predicate LatestLive(c: Cache, log: seq<Event>) {
    forall k :: IsLatest(c.latest, k) ==> Live(log, k)
  }

  ghost predicate EntriesLogged(c: Cache, log: seq<Event>) {
    && (forall k :: k in c.entries ==> Granted(k) in log)
    && (forall k :: Granted(k) in log ==> k.generation < c.next)
    && (forall k :: k in CompletedKeys(c.entries) ==> FinishedWith(log, k, c.entries[k].reply.Wire()))
    && (forall k :: k in InFlightKeys(c.entries) ==> !Ended(log, k))
  }

  ghost predicate WaitersLogged(c: Cache, log: seq<Event>) {
    && (forall k, w: WaiterId :: k in c.entries && w in WaitersOf(c, k) ==> Joined(k, w) in log)
    && (forall k :: k in c.entries ==> Distinct(WaitersOf(c, k)))
  }

  /** No open waiter is lost: it is still listed, or it has been answered. */
  ghost predicate NoneLost(s: System) {
    forall k, w: WaiterId :: Joined(k, w) in s.log ==>
      w < s.nextWaiter && (w in s.closed || w in WaitersOf(s.cache, k) || Delivered(s.log, k, w))
  }

  /** The first lock rejects a reply only for a reason that still holds. */
  ghost predicate LeasesOk(s: System, limits: Limits) {
    && s.leases.Keys == InFlightKeys(s.cache.entries)
    && forall k :: k in s.leases && s.leases[k].Storing? && !s.leases[k].eligible ==>
         |s.leases[k].reply.Wire()| > limits.maxBytes || !IsLatest(s.cache.latest, k)
  }

  ghost predicate ClockOk(s: System) {
    forall k :: k in CompletedKeys(s.cache.entries) ==> s.cache.entries[k].at <= s.clock
  }

  ghost predicate Inv(s: System, limits: Limits) {
    && WellFormed(s.cache, limits)
    && LogOk(s.log)
    && GrantsLive(s.cache, s.log)
    && LatestLive(s.cache, s.log)
    && EntriesLogged(s.cache, s.log)
    && WaitersLogged(s.cache, s.log)
    && NoneLost(s)
    && LeasesOk(s, limits)
    && ClockOk(s)
  }

  // ----------------------------------------------------------------- appending events

  lemma AppendLog(log: seq<Event>, e: Event)
    requires LogOk(log) && Justified(log, e)
    ensures LogOk(log + [e])
  {
    assert (log + [e])[..|log|] == log;
  }

  lemma ReleasedMonotone(log: seq<Event>, e: Event, i: nat, k: EntryKey)
    ensures ReleasedAfter(log, i, k) ==> ReleasedAfter(log + [e], i, k)
    ensures i < |log| && Releases(e, k) ==> ReleasedAfter(log + [e], i, k)
  {
    if ReleasedAfter(log, i, k) {
      var j :| i < j < |log| && Releases(log[j], k);
      assert (log + [e])[j] == log[j];
    } else if i < |log| && Releases(e, k) {
      assert (log + [e])[|log|] == e;
    }
  }

  /** Grants stay live when `latest` loses only entries that the event releases. */
  lemma GrantsLiveAppend(c: Cache, c': Cache, log: seq<Event>, e: Event)
    requires GrantsLive(c, log)
    requires forall k :: IsLatest(c.latest, k) ==> IsLatest(c'.latest, k) || Releases(e, k)
    requires e.Granted? ==> IsLatest(c'.latest, e.key)
    ensures GrantsLive(c', log + [e])
  {
    forall i | 0 <= i < |log + [e]| && (log + [e])[i].Granted?
      ensures ReleasedAfter(log + [e], i, (log + [e])[i].key) || IsLatest(c'.latest, (log + [e])[i].key)
    {
      if i < |log| {
        ReleasedMonotone(log, e, i, log[i].key);
      }
    }
  }

  lemma LiveAppend(log: seq<Event>, e: Event, k: EntryKey)
    ensures Live(log, k) && !Releases(e, k) ==> Live(log + [e], k)
    ensures e == Granted(k) ==> Live(log + [e], k)
  {
    if Live(log, k) && !Releases(e, k) {
      var i :| LiveSince(log, i, k);
      assert LiveSince(log + [e], i, k);
    }
    if e == Granted(k) {
      assert LiveSince(log + [e], |log|, k);
    }
  }

  /** Latest generations stay live when `latest` gains only what the event grants and
      loses at least what it releases. */
  lemma LatestLiveAppend(c: Cache, c': Cache, log: seq<Event>, e: Event)
    requires LatestLive(c, log)
    requires forall k :: IsLatest(c'.latest, k) ==> e == Granted(k) || (IsLatest(c.latest, k) && !Releases(e, k))
    ensures LatestLive(c', log + [e])
  {
    hide Live;
    forall k | IsLatest(c'.latest, k)
      ensures Live(log + [e], k)
    {
      LiveAppend(log, e, k);
    }
  }

  lemma PendingAppend(log: seq<Event>, e: Event)
    ensures Pending(log + [e]) ==
            if e.Asked? then Some(e.call) else if Decides(e) then None else Pending(log)
  {
    assert (log + [e])[..|log|] == log;
  }

  lemma EndedAppend(log: seq<Event>, e: Event, k: EntryKey)
    ensures Ended(log + [e], k) <==> Ended(log, k) || Ends(e, k)
  {
    if Ended(log, k) {
      var x :| x in log && Ends(x, k);
      assert x in log + [e];
    }
    if Ends(e, k) {
      assert e in log + [e];
    }
  }

  lemma DeliveredAppend(log: seq<Event>, e: Event, k: EntryKey, w: WaiterId)
    ensures Delivered(log, k, w) ==> Delivered(log + [e], k, w)
    ensures Ends(e, k) && w in e.sentTo ==> Delivered(log + [e], k, w)
  {
    if Delivered(log, k, w) {
      var x :| x in log && Ends(x, k) && w in x.sentTo;
      assert x in log + [e];
    }
    assert e in log + [e];
  }

  lemma FinishedAppend(log: seq<Event>, e: Event, k: EntryKey, wire: seq<byte>)
    ensures FinishedWith(log, k, wire) ==> FinishedWith(log + [e], k, wire)
  {
    if FinishedWith(log, k, wire) {
      var sent :| Finished(k, wire, true, sent) in log;
      assert Finished(k, wire, true, sent) in log + [e];
    }
  }

  /** Entries stay accounted for when the cache only loses entries. */
  lemma EntriesLoggedAppend(c: Cache, c': Cache, log: seq<Event>, e: Event)
    requires EntriesLogged(c, log)
    requires c'.next == c.next
    requires forall k :: k in c'.entries ==> k in c.entries && c'.entries[k].InFlight? == c.entries[k].InFlight?
    requires forall k :: k in CompletedKeys(c'.entries) ==> c'.entries[k] == c.entries[k]
    requires forall k :: k in InFlightKeys(c'.entries) ==> !Ends(e, k)
    requires !e.Granted?
    ensures EntriesLogged(c', log + [e])
  {
    forall k | k in CompletedKeys(c'.entries) ensures FinishedWith(log + [e], k, c'.entries[k].reply.Wire()) {
      FinishedAppend(log, e, k, c'.entries[k].reply.Wire());
    }
    forall k | k in InFlightKeys(c'.entries) ensures !Ended(log + [e], k) {
      EndedAppend(log, e, k);
    }
  }

  lemma WaitersLoggedAppend(c: Cache, c': Cache, log: seq<Event>, e: Event)
    requires WaitersLogged(c, log)
    requires forall k :: k in c'.entries ==> k in c.entries && WaitersOf(c', k) == WaitersOf(c, k)
    ensures WaitersLogged(c', log + [e])
  {
  }

  // ------------------------------------------------------------- removing completed replies

  /** Events that neither start, join nor end an execution. */
  predicate Quiet(e: Event) {
    e.Asked? || e.Replayed? || e.Refused? || e.Expired? || e.Evicted?
  }

  lemma DropLinks(s: System, limits: Limits, dead: set<EntryKey>, e: Event)
    requires Inv(s, limits)
    requires dead <= CompletedKeys(s.cache.entries)
    requires Quiet(e) && forall k :: k in dead <==> Releases(e, k)
    ensures var c' := Without(s.cache, dead);
            && GrantsLive(c', s.log + [e])
            && LatestLive(c', s.log + [e])
            && EntriesLogged(c', s.log + [e])
            && WaitersLogged(c', s.log + [e])
  {
    var c' := Without(s.cache, dead);
    hide Keep, WellFormed, LogOk, NoneLost, LeasesOk, ClockOk, GrantsLive, LatestLive, EntriesLogged, WaitersLogged;
    WithoutCompleted(s.cache, dead);
    GrantsLiveAppend(s.cache, c', s.log, e);
    LatestLiveAppend(s.cache, c', s.log, e);
    EntriesLoggedAppend(s.cache, c', s.log, e);
    WaitersLoggedAppend(s.cache, c', s.log, e);
  }

  lemma NoneLostAppend(s: System, s': System, e: Event)
    requires NoneLost(s)
    requires s'.log == s.log + [e] && s'.nextWaiter == s.nextWaiter && s'.closed == s.closed && !e.Joined?
    requires forall k, w: WaiterId :: w in WaitersOf(s.cache, k) && w !in s.closed ==>
               w in WaitersOf(s'.cache, k) || (Ends(e, k) && w in e.sentTo)
    ensures NoneLost(s')
  {
    forall k, w: WaiterId | Joined(k, w) in s'.log
      ensures w < s'.nextWaiter && (w in s'.closed || w in WaitersOf(s'.cache, k) || Delivered(s'.log, k, w))
    {
      hide Delivered;
      assert Joined(k, w) in s.log;
      DeliveredAppend(s.log, e, k, w);
    }
  }

  /** A reason found at the first lock persists: no step makes an old generation
      the latest one again. */
  lemma LeasesOkKept(s: System, s': System, limits: Limits)
    requires LeasesOk(s, limits)
    requires s'.leases.Keys == InFlightKeys(s'.cache.entries)
    requires forall k :: k in s'.leases && s'.leases[k].Storing? ==> k in s.leases && s'.leases[k] == s.leases[k]
    requires forall k :: k in s'.leases && k in s.leases && IsLatest(s'.cache.latest, k) ==> IsLatest(s.cache.latest, k)
    ensures LeasesOk(s', limits)
  {
  }

  lemma DropLeases(s: System, limits: Limits, dead: set<EntryKey>, log: seq<Event>)
    requires LeasesOk(s, limits) && ClockOk(s)
    requires dead <= CompletedKeys(s.cache.entries)
    ensures var s' := s.(cache := Without(s.cache, dead), log := log);
            LeasesOk(s', limits) && ClockOk(s')
  {
    var s' := s.(cache := Without(s.cache, dead), log := log);
    hide Keep;
    WithoutCompleted(s.cache, dead);
    LeasesOkKept(s, s', limits);
  }

  lemma DropKeepsInv(s: System, limits: Limits, dead: set<EntryKey>, e: Event)
    requires Inv(s, limits)
    requires dead <= CompletedKeys(s.cache.entries)
    requires Quiet(e) && Justified(s.log, e) && forall k :: k in dead <==> Releases(e, k)
    ensures Inv(s.(cache := Without(s.cache, dead), log := s.log + [e]), limits)
  {
    hide WellFormed, LogOk, GrantsLive, LatestLive, EntriesLogged, WaitersLogged, NoneLost, LeasesOk, ClockOk, Keep;
    var s' := s.(cache := Without(s.cache, dead), log := s.log + [e]);
    DropLinks(s, limits, dead, e);
    WithoutWellFormed(s.cache, limits, dead);
    AppendLog(s.log, e);
    assert forall k :: WaitersOf(s'.cache, k) == WaitersOf(s.cache, k);
    NoneLostAppend(s, s', e);
    DropLeases(s, limits, dead, s'.log);
  }

  lemma QuietKeepsInv(s: System, limits: Limits, e: Event)
    requires Inv(s, limits)
    requires Quiet(e) && Justified(s.log, e) && forall k :: !Releases(e, k)
    ensures Inv(s.(log := s.log + [e]), limits)
  {
    DropKeepsInv(s, limits, {}, e);
    WithoutNothing(s.cache);
  }

  // ------------------------------------------------------------------- joining and granting

  lemma JoinLinks(s: System, limits: Limits, k: EntryKey)
    requires Inv(s, limits) && k in InFlightKeys(s.cache.entries)
    requires IsLatest(s.cache.latest, k) && Pending(s.log) == Some(CallOf(k))
    ensures var c' := Join(s.cache, k, Open(s), s.nextWaiter);
            var e := Joined(k, s.nextWaiter);
            && GrantsLive(c', s.log + [e])
            && LatestLive(c', s.log + [e])
            && EntriesLogged(c', s.log + [e])
            && Justified(s.log, e)
  {
    hide Inv, Join, Justified, GrantsLive, LatestLive, EntriesLogged, Open;
    var c' := Join(s.cache, k, Open(s), s.nextWaiter);
    var e := Joined(k, s.nextWaiter);
    InvLinks(s, limits);
    JoinEffect(s.cache, k, Open(s), s.nextWaiter);
    GrantsLiveAppend(s.cache, c', s.log, e);
    LatestLiveAppend(s.cache, c', s.log, e);
    EntriesLoggedAppend(s.cache, c', s.log, e);
    JoinJustified(s, limits, k);
  }

  lemma InvLinks(s: System, limits: Limits)
    requires Inv(s, limits)
    ensures GrantsLive(s.cache, s.log) && LatestLive(s.cache, s.log) && EntriesLogged(s.cache, s.log)
  {
  }

  /** Joining changes the waiters of one execution and nothing else. */
  lemma JoinEffect(c: Cache, k: EntryKey, open: set<WaiterId>, w: WaiterId)
    requires k in InFlightKeys(c.entries)
    ensures var c' := Join(c, k, open, w);
            && c'.latest == c.latest && c'.next == c.next && c'.entries.Keys == c.entries.Keys
            && (forall x :: x in c'.entries ==> c'.entries[x].InFlight? == c.entries[x].InFlight?)
            && (forall x :: x in CompletedKeys(c'.entries) ==> c'.entries[x] == c.entries[x])
  {
    hide Keep;
  }

  lemma JoinJustified(s: System, limits: Limits, k: EntryKey)
    requires Inv(s, limits) && k in InFlightKeys(s.cache.entries)
    requires IsLatest(s.cache.latest, k) && Pending(s.log) == Some(CallOf(k))
    ensures Justified(s.log, Joined(k, s.nextWaiter))
  {
    hide WellFormed, LogOk, LeasesOk, ClockOk, GrantsLive, WaitersLogged, Live, Pending, FinishedWith, WaitersOf;
  }

  lemma WaitersAfterJoin(s: System, k: EntryKey)
    requires k in InFlightKeys(s.cache.entries)
    requires Distinct(WaitersOf(s.cache, k)) && forall w :: w in WaitersOf(s.cache, k) ==> w < s.nextWaiter
    ensures var c' := Join(s.cache, k, Open(s), s.nextWaiter);
            && Distinct(WaitersOf(c', k))
            && (forall w :: w in WaitersOf(c', k) <==>
                  w == s.nextWaiter || (w in WaitersOf(s.cache, k) && w !in s.closed))
            && (forall k' :: k' != k ==> WaitersOf(c', k') == WaitersOf(s.cache, k'))
            && c'.entries.Keys == s.cache.entries.Keys
  {
    var ws := WaitersOf(s.cache, k);
    KeepMembers(ws, Open(s));
    KeepDistinct(ws, Open(s));
    assert s.nextWaiter !in Keep(ws, Open(s));
    DistinctAppend(Keep(ws, Open(s)), s.nextWaiter);
    assert WaitersOf(Join(s.cache, k, Open(s), s.nextWaiter), k) == Keep(ws, Open(s)) + [s.nextWaiter];
  }

  lemma ListedBelowNext(s: System, k: EntryKey)
    requires WaitersLogged(s.cache, s.log) && NoneLost(s) && k in s.cache.entries
    ensures Distinct(WaitersOf(s.cache, k)) && forall w :: w in WaitersOf(s.cache, k) ==> w < s.nextWaiter
  {
  }

  lemma JoinWaiters(s: System, k: EntryKey)
    requires WaitersLogged(s.cache, s.log) && NoneLost(s) && k in InFlightKeys(s.cache.entries)
    ensures WaitersLogged(Join(s.cache, k, Open(s), s.nextWaiter), s.log + [Joined(k, s.nextWaiter)])
  {
    ListedBelowNext(s, k);
    WaitersAfterJoin(s, k);
    hide Join, WaitersOf, Open, NoneLost;
  }

  lemma JoinLosesNone(s: System, k: EntryKey)
    requires WaitersLogged(s.cache, s.log) && NoneLost(s) && k in InFlightKeys(s.cache.entries)
    ensures NoneLost(s.(cache := Join(s.cache, k, Open(s), s.nextWaiter), nextWaiter := s.nextWaiter + 1,
                        log := s.log + [Joined(k, s.nextWaiter)]))
  {
    ListedBelowNext(s, k);
    WaitersAfterJoin(s, k);
    var w := s.nextWaiter;
    var e := Joined(k, w);
    var s' := s.(cache := Join(s.cache, k, Open(s), w), nextWaiter := w + 1, log := s.log + [e]);
    hide Join, WaitersOf, Open, Delivered, WaitersLogged;
    forall k', w': WaiterId | Joined(k', w') in s'.log
      ensures w' < s'.nextWaiter && (w' in s'.closed || w' in WaitersOf(s'.cache, k') || Delivered(s'.log, k', w'))
    {
      DeliveredAppend(s.log, e, k', w');
      assert Joined(k', w') in s.log || Joined(k', w') == e;
    }
  }

  lemma JoinLeases(s: System, limits: Limits, k: EntryKey, log: seq<Event>)
    requires LeasesOk(s, limits) && ClockOk(s) && k in InFlightKeys(s.cache.entries)
    ensures var s' := s.(cache := Join(s.cache, k, Open(s), s.nextWaiter), nextWaiter := s.nextWaiter + 1, log := log);
            LeasesOk(s', limits) && ClockOk(s')
  {
    var s' := s.(cache := Join(s.cache, k, Open(s), s.nextWaiter), nextWaiter := s.nextWaiter + 1, log := log);
    hide Keep;
    assert InFlightKeys(s'.cache.entries) == InFlightKeys(s.cache.entries);
    LeasesOkKept(s, s', limits);
  }

  lemma JoinKeepsInv(s: System, limits: Limits, k: EntryKey)
    requires Inv(s, limits) && k in InFlightKeys(s.cache.entries)
    requires IsLatest(s.cache.latest, k) && Pending(s.log) == Some(CallOf(k))
    ensures Inv(s.(cache := Join(s.cache, k, Open(s), s.nextWaiter), nextWaiter := s.nextWaiter + 1,
                   log := s.log + [Joined(k, s.nextWaiter)]), limits)
  {
    hide WellFormed, LogOk, GrantsLive, LatestLive, EntriesLogged, WaitersLogged, NoneLost, LeasesOk, ClockOk, Keep, Join;
    JoinLinks(s, limits, k);
    JoinWaiters(s, k);
    JoinLosesNone(s, k);
    JoinWellFormed(s.cache, limits, k, Open(s), s.nextWaiter);
    AppendLog(s.log, Joined(k, s.nextWaiter));
    JoinLeases(s, limits, k, s.log + [Joined(k, s.nextWaiter)]);
  }

  /** The cache after a grant that also displaces a completed reply of the XID. */
  function GrantOver(c: Cache, r: RequestKey, f: Fingerprint): Cache {
    Grant(Without(c, SupersededBy(c, r)), r, f)
  }

  /** Only the request's own `latest` record changes, and it held another call. */
  lemma GrantOverLatest(c: Cache, limits: Limits, r: RequestKey, f: Fingerprint)
    requires WellFormed(c, limits) && !Known(c, r, f)
    ensures var c' := GrantOver(c, r, f);
            && (forall k :: IsLatest(c.latest, k) && k.request == r ==> k.fingerprint != f)
            && (forall k :: IsLatest(c.latest, k) && k.request != r ==> IsLatest(c'.latest, k))
            && IsLatest(c'.latest, EntryKey(r, f, c.next))
            && (forall k :: IsLatest(c'.latest, k) ==>
                  k == EntryKey(r, f, c.next) || (IsLatest(c.latest, k) && k.request != r))
  {
    hide Keep;
    forall k | IsLatest(c.latest, k) && k.request == r ensures k.fingerprint != f {
      assert Named(r, c.latest[r]) in c.entries;
      assert Named(r, c.latest[r]) == k;
    }
  }

  lemma GrantOverEntries(c: Cache, limits: Limits, r: RequestKey, f: Fingerprint)
    requires WellFormed(c, limits)
    ensures var c' := GrantOver(c, r, f);
            var k := EntryKey(r, f, c.next);
            && k !in c.entries && c'.next == c.next + 1
            && (forall k' :: k' in c'.entries <==> k' == k || (k' in c.entries && k' !in SupersededBy(c, r)))
            && (forall k' :: k' in c'.entries && k' != k ==> c'.entries[k'] == c.entries[k'])
            && c'.entries[k] == InFlight([])
            && InFlightKeys(c'.entries) == InFlightKeys(c.entries) + {k}
  {
    hide Keep;
    var c' := GrantOver(c, r, f);
    var k := EntryKey(r, f, c.next);
    assert k !in c.entries;
    assert c'.entries == (c.entries - SupersededBy(c, r))[k := InFlight([])];
  }

  lemma GrantJustified(s: System, limits: Limits, r: RequestKey, f: Fingerprint)
    requires Inv(s, limits) && !Known(s.cache, r, f) && Pending(s.log) == Some(Call(r, f))
    ensures var e := Granted(EntryKey(r, f, s.cache.next));
            && Justified(s.log, e)
            && GrantsLive(GrantOver(s.cache, r, f), s.log + [e])
            && LatestLive(GrantOver(s.cache, r, f), s.log + [e])
  {
    hide LogOk, WaitersLogged, NoneLost, LeasesOk, ClockOk;
    var c := s.cache;
    var e := Granted(EntryKey(r, f, c.next));
    GrantOverLatest(c, limits, r, f);
    hide WellFormed, GrantOver, LatestLive, Live, Pending;
    GrantsLiveAppend(c, GrantOver(c, r, f), s.log, e);
    LatestLiveAppend(c, GrantOver(c, r, f), s.log, e);
    forall i | 0 <= i < |s.log| && s.log[i].Granted? && CallOf(s.log[i].key) == CallOf(e.key)
      ensures ReleasedAfter(s.log, i, s.log[i].key)
    {
    }
  }

  lemma GrantEntriesLogged(s: System, limits: Limits, r: RequestKey, f: Fingerprint)
    requires WellFormed(s.cache, limits) && LogOk(s.log) && EntriesLogged(s.cache, s.log)
    ensures EntriesLogged(GrantOver(s.cache, r, f), s.log + [Granted(EntryKey(r, f, s.cache.next))])
  {
    hide WellFormed, GrantOver, LogOk, EntriesLogged;
    var k := EntryKey(r, f, s.cache.next);
    GrantOnlyAdds(s.cache, limits, r, f);
    FreshNotEnded(s, k);
    EntryAdded(s.cache, GrantOver(s.cache, r, f), s.log, k);
  }

  /** What a grant does to the entries, without saying which reply it displaces. */
  lemma GrantOnlyAdds(c: Cache, limits: Limits, r: RequestKey, f: Fingerprint)
    requires WellFormed(c, limits)
    ensures var c' := GrantOver(c, r, f);
            var k := EntryKey(r, f, c.next);
            && k !in c.entries && c'.next == c.next + 1
            && k in c'.entries && c'.entries[k] == InFlight([])
            && (forall k' :: k' in c'.entries && k' != k ==> k' in c.entries && c'.entries[k'] == c.entries[k'])
  {
    hide WellFormed, GrantOver, SupersededBy;
    GrantOverEntries(c, limits, r, f);
  }

  lemma EntryAdded(c: Cache, c': Cache, log: seq<Event>, k: EntryKey)
    requires EntriesLogged(c, log) && !Ended(log, k)
    requires k.generation == c.next && c'.next == c.next + 1
    requires k in c'.entries && c'.entries[k] == InFlight([])
    requires forall k' :: k' in c'.entries && k' != k ==> k' in c.entries && c'.entries[k'] == c.entries[k']
    ensures EntriesLogged(c', log + [Granted(k)])
  {
    hide FinishedWith, Ended;
    var e := Granted(k);
    forall k' | k' in CompletedKeys(c'.entries)
      ensures FinishedWith(log + [e], k', c'.entries[k'].reply.Wire())
    {
      FinishedAppend(log, e, k', c'.entries[k'].reply.Wire());
    }
    forall k' | k' in InFlightKeys(c'.entries)
      ensures !Ended(log + [e], k')
    {
      EndedAppend(log, e, k');
    }
  }

  lemma GrantWaitersLogged(s: System, limits: Limits, r: RequestKey, f: Fingerprint)
    requires WellFormed(s.cache, limits) && WaitersLogged(s.cache, s.log)
    ensures WaitersLogged(GrantOver(s.cache, r, f), s.log + [Granted(EntryKey(r, f, s.cache.next))])
    ensures forall k :: WaitersOf(GrantOver(s.cache, r, f), k) == WaitersOf(s.cache, k)
  {
    hide Keep, WellFormed, GrantOver;
    GrantOverEntries(s.cache, limits, r, f);
    GrantOverWaiters(s.cache, limits, r, f);
    hide WaitersOf, SupersededBy;
  }

  lemma GrantOverWaiters(c: Cache, limits: Limits, r: RequestKey, f: Fingerprint)
    requires WellFormed(c, limits)
    ensures forall k :: WaitersOf(GrantOver(c, r, f), k) == WaitersOf(c, k)
    ensures WaitersOf(c, EntryKey(r, f, c.next)) == []
  {
    hide Keep, WellFormed, GrantOver;
    GrantOverEntries(c, limits, r, f);
  }

  /** Nothing can have ended an entry that was never granted. */
  lemma {:induction false} EndedWasGranted(log: seq<Event>, k: EntryKey)
    requires LogOk(log) && Ended(log, k)
    ensures Granted(k) in log
  {
    var n := |log| - 1;
    if Ends(log[n], k) {
    } else {
      assert log == log[..n] + [log[n]];
      EndedAppend(log[..n], log[n], k);
      EndedWasGranted(log[..n], k);
    }
  }

  lemma FreshNotEnded(s: System, k: EntryKey)
    requires LogOk(s.log) && EntriesLogged(s.cache, s.log) && k.generation == s.cache.next
    ensures !Ended(s.log, k)
  {
    if Ended(s.log, k) {
      EndedWasGranted(s.log, k);
    }
  }

  lemma GrantLeases(s: System, limits: Limits, r: RequestKey, f: Fingerprint)
    requires WellFormed(s.cache, limits) && LeasesOk(s, limits) && ClockOk(s) && !Known(s.cache, r, f)
    ensures var k := EntryKey(r, f, s.cache.next);
            var s' := s.(cache := GrantOver(s.cache, r, f), leases := s.leases[k := Working], log := s.log + [Granted(k)]);
            LeasesOk(s', limits) && ClockOk(s')
  {
    hide WellFormed, GrantOver, Known, IsLatest, InFlightKeys, CompletedKeys;
    var k := EntryKey(r, f, s.cache.next);
    var s' := s.(cache := GrantOver(s.cache, r, f), leases := s.leases[k := Working], log := s.log + [Granted(k)]);
    GrantFlights(s.cache, limits, r, f);
    GrantNoRevival(s.cache, limits, r, f);
    GrantClock(s, limits, r, f);
    LeasesOkKept(s, s', limits);
  }

  lemma GrantFlights(c: Cache, limits: Limits, r: RequestKey, f: Fingerprint)
    requires WellFormed(c, limits)
    ensures InFlightKeys(GrantOver(c, r, f).entries) == InFlightKeys(c.entries) + {EntryKey(r, f, c.next)}
    ensures EntryKey(r, f, c.next) !in InFlightKeys(c.entries)
  {
    hide WellFormed, GrantOver, SupersededBy;
    GrantOverEntries(c, limits, r, f);
  }

  lemma GrantNoRevival(c: Cache, limits: Limits, r: RequestKey, f: Fingerprint)
    requires WellFormed(c, limits) && !Known(c, r, f)
    ensures forall k :: IsLatest(GrantOver(c, r, f).latest, k) ==> k == EntryKey(r, f, c.next) || IsLatest(c.latest, k)
  {
    hide WellFormed, GrantOver, Known, IsLatest;
    GrantOverLatest(c, limits, r, f);
  }

  lemma GrantClock(s: System, limits: Limits, r: RequestKey, f: Fingerprint)
    requires WellFormed(s.cache, limits) && ClockOk(s)
    ensures var k := EntryKey(r, f, s.cache.next);
            ClockOk(s.(cache := GrantOver(s.cache, r, f), leases := s.leases[k := Working], log := s.log + [Granted(k)]))
  {
    hide WellFormed, GrantOver;
    GrantOnlyAdds(s.cache, limits, r, f);
  }

  lemma GrantKeepsInv(s: System, limits: Limits, r: RequestKey, f: Fingerprint)
    requires Inv(s, limits) && !Known(s.cache, r, f) && Pending(s.log) == Some(Call(r, f))
    requires WellFormed(GrantOver(s.cache, r, f), limits)
    ensures var k := EntryKey(r, f, s.cache.next);
            Inv(s.(cache := GrantOver(s.cache, r, f), leases := s.leases[k := Working], log := s.log + [Granted(k)]), limits)
  {
    hide WellFormed, LogOk, GrantsLive, LatestLive, EntriesLogged, WaitersLogged, NoneLost, LeasesOk, ClockOk, GrantOver, Known, Pending;
    GrantJustified(s, limits, r, f);
    AppendLog(s.log, Granted(EntryKey(r, f, s.cache.next)));
    GrantEntriesLogged(s, limits, r, f);
    GrantWaitersLogged(s, limits, r, f);
    GrantLeases(s, limits, r, f);
    var k := EntryKey(r, f, s.cache.next);
    NoneLostAppend(s, s.(cache := GrantOver(s.cache, r, f), leases := s.leases[k := Working],
                         log := s.log + [Granted(k)]), Granted(k));
  }

  // -------------------------------------------------------------------- ending an execution

  /** The waiters an ending entry answers. */
  function Answered(s: System, k: EntryKey): seq<WaiterId> {
    Keep(WaitersOf(s.cache, k), Open(s))
  }

  lemma EndJustified(s: System, limits: Limits, k: EntryKey, e: Event)
    requires Inv(s, limits) && k in InFlightKeys(s.cache.entries)
    requires Ends(e, k) && e.sentTo == Answered(s, k)
    ensures Justified(s.log, e)
    ensures forall w :: w in WaitersOf(s.cache, k) && w !in s.closed ==> w in e.sentTo
  {
    hide Keep, WellFormed, LogOk, GrantsLive, LeasesOk, ClockOk, NoneLost, FinishedWith, Ended;
    ListedBelowNext(s, k);
    KeepMembers(WaitersOf(s.cache, k), Open(s));
    KeepDistinct(WaitersOf(s.cache, k), Open(s));
  }

  /** The entry is discarded: its reply is not retained, or it was cancelled. */
  lemma DiscardLinks(s: System, limits: Limits, k: EntryKey, e: Event)
    requires Inv(s, limits) && k in InFlightKeys(s.cache.entries)
    requires Ends(e, k) && Releases(e, k)
    ensures var c' := Without(s.cache, {k});
            && GrantsLive(c', s.log + [e])
            && LatestLive(c', s.log + [e])
            && EntriesLogged(c', s.log + [e])
            && WaitersLogged(c', s.log + [e])
  {
    hide Keep, WellFormed, LogOk, NoneLost, LeasesOk, ClockOk, GrantsLive, LatestLive, EntriesLogged, WaitersLogged, WaitersOf;
    var c' := Without(s.cache, {k});
    WaitersWithout(s.cache, k);
    GrantsLiveAppend(s.cache, c', s.log, e);
    LatestLiveAppend(s.cache, c', s.log, e);
    EntriesLoggedAppend(s.cache, c', s.log, e);
    WaitersLoggedAppend(s.cache, c', s.log, e);
  }

  lemma WaitersWithout(c: Cache, k: EntryKey)
    ensures forall k' :: k' != k ==> WaitersOf(Without(c, {k}), k') == WaitersOf(c, k')
  {
    hide Keep;
  }

  lemma DiscardLeases(s: System, limits: Limits, k: EntryKey, clock: nat, log: seq<Event>)
    requires LeasesOk(s, limits) && ClockOk(s) && s.clock <= clock && k in InFlightKeys(s.cache.entries)
    ensures var s' := s.(cache := Without(s.cache, {k}), leases := s.leases - {k}, clock := clock, log := log);
            LeasesOk(s', limits) && ClockOk(s')
  {
    hide Keep;
    var s' := s.(cache := Without(s.cache, {k}), leases := s.leases - {k}, clock := clock, log := log);
    assert InFlightKeys(s'.cache.entries) == InFlightKeys(s.cache.entries) - {k};
    LeasesOkKept(s, s', limits);
  }

  lemma DiscardKeepsInv(s: System, limits: Limits, k: EntryKey, e: Event, clock: nat)
    requires Inv(s, limits) && k in InFlightKeys(s.cache.entries) && s.clock <= clock
    requires Ends(e, k) && Releases(e, k) && e.sentTo == Answered(s, k)
    ensures Inv(s.(cache := Without(s.cache, {k}), leases := s.leases - {k}, clock := clock, log := s.log + [e]), limits)
  {
    hide WellFormed, LogOk, GrantsLive, LatestLive, EntriesLogged, WaitersLogged, NoneLost, LeasesOk, ClockOk, Keep, Without, WaitersOf;
    var s' := s.(cache := Without(s.cache, {k}), leases := s.leases - {k}, clock := clock, log := s.log + [e]);
    WaitersWithout(s.cache, k);
    EndJustified(s, limits, k, e);
    AppendLog(s.log, e);
    DiscardLinks(s, limits, k, e);
    WithoutWellFormed(s.cache, limits, {k});
    DiscardLeases(s, limits, k, clock, s'.log);
    NoneLostAppend(s, s', e);
  }

  lemma InsertEffect(c: Cache, k: EntryKey, stored: Reply, charge: nat, now: nat)
    requires k in InFlightKeys(c.entries)
    ensures var c' := Insert(c, k, stored, charge, now);
            && c'.latest == c.latest && c'.next == c.next
            && CompletedKeys(c'.entries) == CompletedKeys(c.entries) + {k}
            && InFlightKeys(c'.entries) == InFlightKeys(c.entries) - {k}
            && c'.entries.Keys == c.entries.Keys
            && (forall k' :: k' in c.entries && k' != k ==> c'.entries[k'] == c.entries[k'])
            && c'.entries[k] == Completed(stored, charge, now)
            && WaitersOf(c', k) == []
            && (forall k' :: k' != k ==> WaitersOf(c', k') == WaitersOf(c, k'))
  {
  }

  lemma RetainEntriesLogged(s: System, k: EntryKey, stored: Reply, charge: nat, now: nat, sent: seq<WaiterId>)
    requires EntriesLogged(s.cache, s.log) && k in InFlightKeys(s.cache.entries)
    ensures EntriesLogged(Insert(s.cache, k, stored, charge, now), s.log + [Finished(k, stored.Wire(), true, sent)])
  {
    var c, c' := s.cache, Insert(s.cache, k, stored, charge, now);
    var e := Finished(k, stored.Wire(), true, sent);
    InsertEffect(c, k, stored, charge, now);
    assert FinishedWith(s.log + [e], k, stored.Wire()) by {
      assert e in s.log + [e];
    }
    hide Insert, FinishedWith, Ended;
    forall k' | k' in CompletedKeys(c'.entries) ensures FinishedWith(s.log + [e], k', c'.entries[k'].reply.Wire()) {
      FinishedAppend(s.log, e, k', c'.entries[k'].reply.Wire());
    }
    forall k' | k' in InFlightKeys(c'.entries) ensures !Ended(s.log + [e], k') {
      EndedAppend(s.log, e, k');
    }
  }

  lemma RetainLinks(s: System, k: EntryKey, stored: Reply, charge: nat, now: nat, sent: seq<WaiterId>)
    requires GrantsLive(s.cache, s.log) && LatestLive(s.cache, s.log) && WaitersLogged(s.cache, s.log)
    requires k in InFlightKeys(s.cache.entries)
    ensures var c' := Insert(s.cache, k, stored, charge, now);
            var log := s.log + [Finished(k, stored.Wire(), true, sent)];
            GrantsLive(c', log) && LatestLive(c', log) && WaitersLogged(c', log)
  {
    var c' := Insert(s.cache, k, stored, charge, now);
    InsertEffect(s.cache, k, stored, charge, now);
    hide Insert, GrantsLive, LatestLive, WaitersOf;
    GrantsLiveAppend(s.cache, c', s.log, Finished(k, stored.Wire(), true, sent));
    LatestLiveAppend(s.cache, c', s.log, Finished(k, stored.Wire(), true, sent));
  }

  lemma RetainLeases(s: System, limits: Limits, k: EntryKey, stored: Reply, charge: nat, now: nat, log: seq<Event>)
    requires LeasesOk(s, limits) && ClockOk(s) && s.clock <= now && k in InFlightKeys(s.cache.entries)
    ensures var s' := s.(cache := Insert(s.cache, k, stored, charge, now), leases := s.leases - {k}, clock := now, log := log);
            LeasesOk(s', limits) && ClockOk(s')
  {
    var s' := s.(cache := Insert(s.cache, k, stored, charge, now), leases := s.leases - {k}, clock := now, log := log);
    assert InFlightKeys(s'.cache.entries) == InFlightKeys(s.cache.entries) - {k};
    LeasesOkKept(s, s', limits);
  }

  lemma RetainKeepsInv(s: System, limits: Limits, k: EntryKey, stored: Reply, charge: nat, now: nat)
    requires Inv(s, limits) && k in InFlightKeys(s.cache.entries) && s.clock <= now
    requires WellFormed(Insert(s.cache, k, stored, charge, now), limits)
    ensures Inv(s.(cache := Insert(s.cache, k, stored, charge, now), leases := s.leases - {k}, clock := now,
                   log := s.log + [Finished(k, stored.Wire(), true, Answered(s, k))]), limits)
  {
    hide WellFormed, LogOk, GrantsLive, LatestLive, EntriesLogged, WaitersLogged, NoneLost, LeasesOk, ClockOk, Keep, Insert, WaitersOf, Answered;
    var e := Finished(k, stored.Wire(), true, Answered(s, k));
    var s' := s.(cache := Insert(s.cache, k, stored, charge, now), leases := s.leases - {k}, clock := now, log := s.log + [e]);
    InsertEffect(s.cache, k, stored, charge, now);
    EndJustified(s, limits, k, e);
    AppendLog(s.log, e);
    RetainEntriesLogged(s, k, stored, charge, now, e.sentTo);
    RetainLinks(s, k, stored, charge, now, e.sentTo);
    RetainLeases(s, limits, k, stored, charge, now, s'.log);
    NoneLostAppend(s, s', e);
  }

  // --------------------------------------------------------------------------- the steps

  /** The state of an arrival once the call is logged and expired replies are gone. */
  function Opened(s: System, limits: Limits, call: Call, now: nat): System {
    s.(cache := ExpireAll(s.cache, now, limits.ttl),
       log := s.log + [Asked(call)] + [Expired(ExpiredKeys(s.cache.entries, now, limits.ttl))])
  }

  lemma OpenedKeepsInv(s: System, limits: Limits, call: Call, now: nat)
    requires Inv(s, limits) && Pending(s.log) == None
    ensures Inv(Opened(s, limits, call, now), limits)
    ensures Pending(Opened(s, limits, call, now).log) == Some(call)
  {
    hide Inv, Keep, Pending;
    var dead := ExpiredKeys(s.cache.entries, now, limits.ttl);
    var s0 := s.(log := s.log + [Asked(call)]);
    QuietKeepsInv(s, limits, Asked(call));
    DropKeepsInv(s0, limits, dead, Expired(dead));
    PendingAppend(s.log, Asked(call));
    PendingAppend(s0.log, Expired(dead));
  }

  /** An arrival, taken apart: expiry, then a shared answer, a refusal, or an
      eviction followed by the grant. It leaves no call undecided. */
  lemma ArriveKeepsInv(s: System, limits: Limits, r: RequestKey, f: Fingerprint, now: nat)
    requires Inv(s, limits) && Pending(s.log) == None
    ensures Inv(ArriveStep(s, limits, r, f, now), limits)
    ensures Pending(ArriveStep(s, limits, r, f, now).log) == None
  {
    hide Inv, ArriveStep, Opened, Known, Pending;
    OpenedKeepsInv(s, limits, Call(r, f), now);
    if Known(Opened(s, limits, Call(r, f), now).cache, r, f) {
      ShareKeepsInv(s, limits, r, f, now);
    } else {
      AdmitKeepsInv(s, limits, r, f, now);
    }
  }

  lemma ShareKeepsInv(s: System, limits: Limits, r: RequestKey, f: Fingerprint, now: nat)
    requires var s1 := Opened(s, limits, Call(r, f), now);
             Inv(s1, limits) && Known(s1.cache, r, f) && Pending(s1.log) == Some(Call(r, f))
    ensures Inv(ArriveStep(s, limits, r, f, now), limits)
    ensures Pending(ArriveStep(s, limits, r, f, now).log) == None
  {
    hide ExpireAll, ExpiredKeys, Join, Admit, Inv, Justified, Pending;
    var s1 := Opened(s, limits, Call(r, f), now);
    var k := Named(r, s1.cache.latest[r]);
    assert Open(s1) == Open(s);
    match s1.cache.entries[k] {
      case InFlight(_) =>
        JoinKeepsInv(s1, limits, k);
        PendingAppend(s1.log, Joined(k, s1.nextWaiter));
        assert ArriveStep(s, limits, r, f, now) ==
               s1.(cache := Join(s1.cache, k, Open(s1), s1.nextWaiter), nextWaiter := s1.nextWaiter + 1,
                   log := s1.log + [Joined(k, s1.nextWaiter)]);
      case Completed(reply, _, _) =>
        CachedWasFinished(s1, limits, k);
        QuietKeepsInv(s1, limits, Replayed(k, reply.Wire()));
        PendingAppend(s1.log, Replayed(k, reply.Wire()));
        assert ArriveStep(s, limits, r, f, now) == s1.(log := s1.log + [Replayed(k, reply.Wire())]);
    }
  }

  lemma CachedWasFinished(s: System, limits: Limits, k: EntryKey)
    requires Inv(s, limits) && k in CompletedKeys(s.cache.entries) && Pending(s.log) == Some(CallOf(k))
    ensures Justified(s.log, Replayed(k, s.cache.entries[k].reply.Wire()))
  {
    hide LogOk, GrantsLive, WaitersLogged, NoneLost, LeasesOk, ClockOk, Live, FinishedWith, Pending;
    assert IsLatest(s.cache.latest, k);
  }

  lemma AdmitKeepsInv(s: System, limits: Limits, r: RequestKey, f: Fingerprint, now: nat)
    requires var s1 := Opened(s, limits, Call(r, f), now);
             Inv(s1, limits) && !Known(s1.cache, r, f) && Pending(s1.log) == Some(Call(r, f))
    ensures Inv(ArriveStep(s, limits, r, f, now), limits)
    ensures Pending(ArriveStep(s, limits, r, f, now).log) == None
  {
    hide Pending, ArriveStep, ExpireAll, ExpiredKeys, Keep, Inv, Share, WellFormed, Admit, Without, Displaced, SupersededBy, Known,
         CompletedKeys, InFlightKeys, Grant, GrantOver, Justified, Releases, Open;
    var s1 := Opened(s, limits, Call(r, f), now);
    var c := s1.cache;
    var free := Without(c, SupersededBy(c, r));
    var k := EntryKey(r, f, c.next);
    InvParts(s1, limits);
    AdmitSteps(c, limits, r, f);
    ArriveUnknown(s, limits, r, f, now);
    if |free.entries| >= limits.capacity && free.queue == [] {
      AdmitRefusal(c, limits, r, f);
      RefusalIsJustified(s1.log, Call(r, f));
      PendingAppend(s1.log, Refused(Call(r, f)));
      QuietKeepsInv(s1, limits, Refused(Call(r, f)));
      assert ArriveStep(s, limits, r, f, now) == s1.(log := s1.log + [Refused(Call(r, f))]);
    } else {
      var dead := Displaced(free, limits);
      DisplacedCommutes(s1, limits, r, f);
      AdmitWellFormed(c, limits, r, f);
      var s2 := s1.(cache := Without(c, dead), log := s1.log + [Evicted(dead)]);
      QuietIsJustified(s1.log, Evicted(dead));
      DropKeepsInv(s1, limits, dead, Evicted(dead));
      PendingAppend(s1.log, Evicted(dead));
      PendingAppend(s2.log, Granted(k));
      GrantKeepsInv(s2, limits, r, f);
      assert ArriveStep(s, limits, r, f, now) ==
             s2.(cache := GrantOver(s2.cache, r, f), leases := s2.leases[k := Working], log := s2.log + [Granted(k)]);
    }
  }

  lemma InvParts(s: System, limits: Limits)
    requires Inv(s, limits)
    ensures WellFormed(s.cache, limits)
  {
  }

  lemma QuietIsJustified(log: seq<Event>, e: Event)
    requires e.Evicted? || e.Expired?
    ensures Justified(log, e)
    ensures forall k :: k in e.keys <==> Releases(e, k)
  {
  }

  lemma RefusalIsJustified(log: seq<Event>, call: Call)
    requires Pending(log) == Some(call)
    ensures Justified(log, Refused(call))
    ensures forall k :: !Releases(Refused(call), k)
  {
  }

  /** An arrival that is no known duplicate, in terms of `Admit`. */
  lemma ArriveUnknown(s: System, limits: Limits, r: RequestKey, f: Fingerprint, now: nat)
    requires !Known(ExpireAll(s.cache, now, limits.ttl), r, f)
    ensures var live := ExpireAll(s.cache, now, limits.ttl);
            var free := Without(live, SupersededBy(live, r));
            var log := Opened(s, limits, Call(r, f), now).log;
            var (cache, decision) := Admit(live, limits, r, f);
            && (decision.Refuse? ==> ArriveStep(s, limits, r, f, now) == s.(cache := cache, log := log + [Refused(Call(r, f))]))
            && (decision.Execute? ==>
                  ArriveStep(s, limits, r, f, now) ==
                  s.(cache := cache, leases := s.leases[decision.key := Working],
                     log := log + [Evicted(Displaced(free, limits))] + [Granted(decision.key)]))
  {
    hide ExpireAll, ExpiredKeys, Admit, Without;
  }

  /** Evicting the oldest entry and displacing the XID's own reply commute. */
  lemma DisplacedCommutes(s: System, limits: Limits, r: RequestKey, f: Fingerprint)
    requires WellFormed(s.cache, limits) && !Known(s.cache, r, f)
    ensures var c := s.cache;
            var free := Without(c, SupersededBy(c, r));
            var dead := Displaced(free, limits);
            && dead <= CompletedKeys(c.entries)
            && GrantOver(Without(c, dead), r, f) == Grant(Without(free, dead), r, f)
            && !Known(Without(c, dead), r, f)
            && Without(c, dead).next == c.next
  {
    hide WellFormed, QueueOk, Keep, Grant, Without, Displaced, SupersededBy, Known, CompletedKeys;
    var c := s.cache;
    var sup := SupersededBy(c, r);
    var dead := Displaced(Without(c, sup), limits);
    WellFormedParts(c, limits);
    DisplacedIsCompleted(c, sup, limits);
    SupersededUnmoved(c, r, f, dead);
    WithoutTwice(c, sup, dead);
    WithoutTwice(c, dead, sup);
    assert sup + dead == dead + sup;
  }

  lemma DisplacedIsCompleted(c: Cache, sup: set<EntryKey>, limits: Limits)
    requires QueueOk(c)
    ensures Displaced(Without(c, sup), limits) <= CompletedKeys(c.entries) - sup
  {
    WithoutQueue(c, sup);
    var free := Without(c, sup);
    if free.queue != [] {
      assert free.queue[0] in free.queue;
    }
  }

  lemma SupersededUnmoved(c: Cache, r: RequestKey, f: Fingerprint, dead: set<EntryKey>)
    requires dead <= CompletedKeys(c.entries) - SupersededBy(c, r)
    ensures SupersededBy(Without(c, dead), r) == SupersededBy(c, r)
    ensures !Known(c, r, f) ==> !Known(Without(c, dead), r, f)
    ensures Without(c, dead).next == c.next
  {
    hide Keep;
  }

  lemma SqueezedIsCompleted(c: Cache, charge: nat, maxBytes: nat)
    requires QueueOk(c)
    ensures Squeezed(c, charge, maxBytes) <= CompletedKeys(c.entries)
  {
    var n := Overflow(c.queue, c.entries, charge, maxBytes);
    forall k | k in Squeezed(c, charge, maxBytes) ensures k in CompletedKeys(c.entries) {
      assert k in c.queue[..n];
      assert k in c.queue;
    }
  }

  /** The state between the evictions of a completion and its end. */
  function AfterEviction(s: System, dead: set<EntryKey>): System {
    s.(cache := Without(s.cache, dead), log := s.log + [Evicted(dead)])
  }

  lemma AnsweredUnmoved(s: System, k: EntryKey, dead: set<EntryKey>)
    requires dead <= CompletedKeys(s.cache.entries) && k in InFlightKeys(s.cache.entries)
    ensures k in InFlightKeys(AfterEviction(s, dead).cache.entries)
    ensures Answered(AfterEviction(s, dead), k) == Keep(WaitersOf(s.cache, k), Open(s))
  {
    hide Keep;
    assert Open(AfterEviction(s, dead)) == Open(s);
  }

  lemma StoreFacts(s: System, limits: Limits, k: EntryKey, now: nat)
    requires Inv(s, limits) && Enabled(s, Store(k, now))
    ensures k in InFlightKeys(s.cache.entries) && QueueOk(s.cache)
    ensures WellFormed(Complete(s.cache, limits, k, StorageOf(s.leases[k]), now), limits)
  {
    hide LogOk, GrantsLive, LatestLive, EntriesLogged, WaitersLogged, NoneLost, Complete, StorageOf;
    assert forall k' :: k' in s.cache.queue ==> k' in CompletedKeys(s.cache.entries);
    CompleteWellFormed(s.cache, limits, k, StorageOf(s.leases[k]), now);
  }

  lemma StoreKeepsInv(s: System, limits: Limits, k: EntryKey, now: nat)
    requires Inv(s, limits) && Enabled(s, Store(k, now))
    ensures Inv(StoreStep(s, limits, k, now), limits)
  {
    hide Inv, WellFormed, Without, Insert, Keep, Squeezed, InFlightKeys, CompletedKeys, Answered, WaitersOf, Open, Justified;
    StoreFacts(s, limits, k, now);
    InFlightPresent(s.cache.entries, k);
    var storage := StorageOf(s.leases[k]);
    var retained := Retains(s.cache, limits, k, storage);
    var dead := if retained then Squeezed(s.cache, storage.value.1, limits.maxBytes) else {};
    if retained { SqueezedIsCompleted(s.cache, storage.value.1, limits.maxBytes); }
    var s1 := AfterEviction(s, dead);
    AnsweredUnmoved(s, k, dead);
    QuietIsJustified(s.log, Evicted(dead));
    DropKeepsInv(s, limits, dead, Evicted(dead));
    if retained {
      RetainKeepsInv(s1, limits, k, storage.value.0, storage.value.1, now);
    } else {
      WithoutNothing(s.cache);
      DiscardKeepsInv(s1, limits, k, Finished(k, s.leases[k].reply.Wire(), false, Answered(s1, k)), now);
    }
  }

  lemma InFlightPresent(entries: map<EntryKey, EntryState>, k: EntryKey)
    requires k in InFlightKeys(entries)
    ensures k in entries && entries[k].InFlight?
  {
  }

  lemma PrepareKeepsInv(s: System, limits: Limits, k: EntryKey, reply: Reply, sp: nat, sl: nat)
    requires Inv(s, limits) && Enabled(s, Prepare(k, reply, sp, sl))
    ensures Inv(Step(s, limits, Prepare(k, reply, sp, sl)), limits)
  {
    hide WellFormed, LogOk, GrantsLive, LatestLive, EntriesLogged, WaitersLogged, Delivered;
  }

  lemma AbandonKeepsInv(s: System, limits: Limits, k: EntryKey)
    requires Inv(s, limits) && Enabled(s, Abandon(k))
    ensures Inv(Step(s, limits, Abandon(k)), limits)
  {
    LeaseIsInFlight(s, limits, k);
    hide Inv, Without, Keep, Open, WaitersOf, InFlightKeys, Justified, Releases;
    InFlightPresent(s.cache.entries, k);
    CancelReleases(k, Answered(s, k));
    DiscardKeepsInv(s, limits, k, Cancelled(k, Answered(s, k)), s.clock);
  }

  lemma LeaseIsInFlight(s: System, limits: Limits, k: EntryKey)
    requires Inv(s, limits) && k in s.leases
    ensures k in InFlightKeys(s.cache.entries)
  {
    hide WellFormed, LogOk, GrantsLive, LatestLive, EntriesLogged, WaitersLogged, NoneLost, ClockOk;
  }

  lemma CancelReleases(k: EntryKey, sent: seq<WaiterId>)
    ensures Releases(Cancelled(k, sent), k)
  {
  }

  lemma DisconnectKeepsInv(s: System, limits: Limits, w: WaiterId)
    requires Inv(s, limits) && Enabled(s, Disconnect(w))
    ensures Inv(Step(s, limits, Disconnect(w)), limits)
  {
    hide WellFormed, LogOk, GrantsLive, LatestLive, EntriesLogged, WaitersLogged, Delivered;
  }

  /** Only arrivals ask and decide. */
  lemma OthersKeepPending(s: System, limits: Limits, a: Action)
    requires Enabled(s, a) && !a.Arrive?
    ensures Pending(Step(s, limits, a).log) == Pending(s.log)
  {
    hide Pending, Complete, Cancel, Keep, Squeezed, Retains, EligibleAt;
    match a
    case Store(k, now) =>
      var t := StoreStep(s, limits, k, now);
      var n := |s.log|;
      assert t.log == s.log + [t.log[n]] + [t.log[n + 1]];
      PendingAppend(s.log, t.log[n]);
      PendingAppend(s.log + [t.log[n]], t.log[n + 1]);
    case Abandon(k) =>
      PendingAppend(s.log, Cancelled(k, Keep(WaitersOf(s.cache, k), Open(s))));
    case _ =>
  }

  /** A step keeps the invariant, and no call is left undecided between steps. */
  lemma StepKeepsInv(s: System, limits: Limits, a: Action)
    requires Inv(s, limits) && Enabled(s, a) && Pending(s.log) == None
    ensures Inv(Step(s, limits, a), limits) && Pending(Step(s, limits, a).log) == None
  {
    hide Inv, ArriveStep, StoreStep, Cancel, EligibleAt, Pending;
    if !a.Arrive? {
      OthersKeepPending(s, limits, a);
    }
    match a
    case Arrive(r, f, now) => ArriveKeepsInv(s, limits, r, f, now);
    case Prepare(k, reply, sp, sl) => PrepareKeepsInv(s, limits, k, reply, sp, sl);
    case Store(k, now) => StoreKeepsInv(s, limits, k, now);
    case Abandon(k) => AbandonKeepsInv(s, limits, k);
    case Disconnect(w) => DisconnectKeepsInv(s, limits, w);
  }

  /** Every reachable state satisfies the invariant. */
  lemma {:induction false} RunKeepsInv(limits: Limits, actions: seq<Action>)
    ensures Run(limits, actions).Some? ==>
              Inv(Run(limits, actions).value, limits) && Pending(Run(limits, actions).value.log) == None
  {
    if actions == [] {
      assert Inv(START, limits);
    } else {
      var n := |actions| - 1;
      RunKeepsInv(limits, actions[..n]);
      hide Inv, Step, Enabled, Pending;
      match Run(limits, actions[..n])
      case None =>
      case Some(s) => if Enabled(s, actions[n]) { StepKeepsInv(s, limits, actions[n]); }
    }
  }
}
