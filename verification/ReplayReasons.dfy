/** Why things leave the replay cache, over every run: each event of the log is traced to
    the action that caused it, and each replay, expiry, eviction and lost reply to the times
    and sizes that called for it. */
module ReplayReasons {
  import opened Sequences
  import opened Replies
  import opened ReplayModel
  import opened ReplayLaws
  import opened ReplayRuns
  import opened ReplayTheorems

  // ----------------------------------------------------------------- events and actions

  /** The event at `j` is one of those that action `n` of the run logs. */
  ghost predicate Causes(limits: Limits, actions: seq<Action>, n: int, j: int) {
    && 0 <= n < |actions|
    && Run(limits, actions[..n]).Some?
    && var s := Run(limits, actions[..n]).value;
       Enabled(s, actions[n]) && |s.log| <= j < |Step(s, limits, actions[n]).log|
  }

  lemma LogGrows(s: System, limits: Limits, a: Action)
    requires Enabled(s, a)
    ensures s.log <= Step(s, limits, a).log
  {
    hide Begin, Complete, Cancel, Keep, Squeezed, Retains, EligibleAt, ExpireAll, ExpiredKeys, Without;
  }

  /** Every event has its action, and the run up to it is a prefix of the run. */
  lemma {:induction false} CauseOf(limits: Limits, actions: seq<Action>, j: nat) returns (n: nat)
    requires Run(limits, actions).Some? && j < |Run(limits, actions).value.log|
    ensures Causes(limits, actions, n, j)
    ensures Step(Run(limits, actions[..n]).value, limits, actions[n]).log <= Run(limits, actions).value.log
    decreases |actions|
  {
    hide Step, Enabled;
    var m := |actions| - 1;
    var s := Run(limits, actions[..m]).value;
    LogGrows(s, limits, actions[m]);
    if j < |s.log| {
      n := CauseOf(limits, actions[..m], j);
      assert actions[..m][..n] == actions[..n] && actions[..m][n] == actions[n];
    } else {
      n := m;
    }
  }

  // --------------------------------------------------------------------- when replies were stored

  /** A reply appears in the cache only when the second lock of its completion stores it. */
  lemma StepStores(s: System, limits: Limits, a: Action, k: EntryKey)
    requires Inv(s, limits) && Enabled(s, a)
    requires k in CompletedKeys(Step(s, limits, a).cache.entries)
    ensures var e := Step(s, limits, a).cache.entries[k];
            (k in s.cache.entries && s.cache.entries[k] == e) || a == Store(k, e.at)
  {
    hide Inv, ArriveStep, StoreStep, Cancel, EligibleAt, CompletedKeys;
    match a
    case Arrive(r, f, now) => ArriveStores(s, limits, r, f, now, k);
    case Store(key, now) => StoreStores(s, limits, key, now, k);
    case Abandon(key) =>
      LeaseIsInFlight(s, limits, key);
      InFlightPresent(s.cache.entries, key);
      CancelKeepsExactly(s.cache, key);
      CompletedPresent(s.cache.entries - {key}, k);
    case _ => CompletedPresent(s.cache.entries, k);
  }

  lemma CompletedPresent(entries: map<EntryKey, EntryState>, k: EntryKey)
    requires k in CompletedKeys(entries)
    ensures k in entries && entries[k].Completed?
  {
  }

  lemma ArriveStores(s: System, limits: Limits, r: RequestKey, f: Fingerprint, now: nat, k: EntryKey)
    requires Inv(s, limits) && k in CompletedKeys(ArriveStep(s, limits, r, f, now).cache.entries)
    ensures k in s.cache.entries && s.cache.entries[k] == ArriveStep(s, limits, r, f, now).cache.entries[k]
  {
    InvParts(s, limits);
    ArriveCache(s, limits, r, f, now);
    hide Inv, WellFormed, Begin, ArriveStep, Removes, Keep;
    BeginKeepsExactly(s.cache, limits, r, f, now, Open(s), s.nextWaiter, k);
  }

  lemma ArriveCache(s: System, limits: Limits, r: RequestKey, f: Fingerprint, now: nat)
    ensures ArriveStep(s, limits, r, f, now).cache == Begin(s.cache, limits, r, f, now, Open(s), s.nextWaiter).0
  {
    hide Begin, ExpireAll, ExpiredKeys, Without, SupersededBy, Displaced;
  }

  lemma StoreStores(s: System, limits: Limits, key: EntryKey, now: nat, k: EntryKey)
    requires Inv(s, limits) && Enabled(s, Store(key, now))
    requires k in CompletedKeys(StoreStep(s, limits, key, now).cache.entries)
    ensures var e := StoreStep(s, limits, key, now).cache.entries[k];
            (k in s.cache.entries && s.cache.entries[k] == e) || Store(key, now) == Store(k, e.at)
  {
    InvParts(s, limits);
    LeaseIsInFlight(s, limits, key);
    StoreCache(s, limits, key, now);
    hide Inv, WellFormed, Complete, StoreStep, Keepable, Crowded, StorageOf;
    CompleteKeepsExactly(s.cache, limits, key, StorageOf(s.leases[key]), now, k);
  }

  lemma StoreCache(s: System, limits: Limits, key: EntryKey, now: nat)
    requires Enabled(s, Store(key, now))
    ensures StoreStep(s, limits, key, now).cache == Complete(s.cache, limits, key, StorageOf(s.leases[key]), now)
  {
    hide Complete, Squeezed, Retains, Keep, StorageOf;
  }

  lemma {:induction false} CompletedWasStored(limits: Limits, actions: seq<Action>, k: EntryKey)
    requires Run(limits, actions).Some? && k in CompletedKeys(Run(limits, actions).value.cache.entries)
    ensures Store(k, Run(limits, actions).value.cache.entries[k].at) in actions
    decreases |actions|
  {
    hide Step, Enabled, Inv;
    if actions == [] {
    } else {
      var n := |actions| - 1;
      var s := Run(limits, actions[..n]).value;
      RunKeepsInv(limits, actions[..n]);
      StepStores(s, limits, actions[n], k);
      if actions[n] != Store(k, Run(limits, actions).value.cache.entries[k].at) {
        CompletedWasStored(limits, actions[..n], k);
      }
    }
  }

  // -------------------------------------------------------------- what each action logs

  lemma ArriveLog(s: System, limits: Limits, r: RequestKey, f: Fingerprint, now: nat)
    ensures var log := ArriveStep(s, limits, r, f, now).log;
            var d := Begin(s.cache, limits, r, f, now, Open(s), s.nextWaiter).1;
            var live := ExpireAll(s.cache, now, limits.ttl);
            var free := Without(live, SupersededBy(live, r));
            log == s.log + [Asked(Call(r, f)), Expired(ExpiredKeys(s.cache.entries, now, limits.ttl))] +
                   match d {
                     case Execute(k) => [Evicted(Displaced(free, limits)), Granted(k)]
                     case Replay(k, reply) => [Replayed(k, reply.Wire())]
                     case Wait(k, w) => [Joined(k, w)]
                     case Refuse => [Refused(Call(r, f))]
                   }
  {
    hide Begin, ExpireAll, ExpiredKeys, Without, SupersededBy, Displaced;
  }

  lemma StoreLog(s: System, limits: Limits, k: EntryKey, now: nat)
    requires Enabled(s, Store(k, now))
    ensures var storage := StorageOf(s.leases[k]);
            var retained := Retains(s.cache, limits, k, storage);
            StoreStep(s, limits, k, now).log ==
            s.log + [Evicted(if retained then Squeezed(s.cache, storage.value.1, limits.maxBytes) else {}),
                     Finished(k, s.leases[k].reply.Wire(), retained, Keep(WaitersOf(s.cache, k), Open(s)))]
  {
    hide Complete, Squeezed, Retains, Keep;
  }

  // ------------------------------------------------------------------------- replays

  /** Action `m` stored the reply of `k`, and action `n` is an arrival of the same call less
      than the time to live later. */
  ghost predicate ServedYoung(limits: Limits, actions: seq<Action>, k: EntryKey, m: int, n: int) {
    && 0 <= m < n < |actions|
    && actions[m].Store? && actions[m].key == k
    && actions[n].Arrive? && actions[n].request == k.request && actions[n].fingerprint == k.fingerprint
    && 0 < limits.ttl && actions[n].now < actions[m].now + limits.ttl
  }

  /** A replayed reply is young: the arrival that got it came less than the time to live
      after the reply was stored. */
  lemma ReplayIsFresh(limits: Limits, actions: seq<Action>, j: nat)
    requires Run(limits, actions).Some?
    requires var log := Run(limits, actions).value.log; j < |log| && log[j].Replayed?
    ensures exists m, n :: Causes(limits, actions, n, j)
                           && ServedYoung(limits, actions, Run(limits, actions).value.log[j].key, m, n)
  {
    var log := Run(limits, actions).value.log;
    var n := CauseOf(limits, actions, j);
    var s, a := Run(limits, actions[..n]).value, actions[n];
    assert log[j] == Step(s, limits, a).log[j];
    RunKeepsInv(limits, actions[..n]);
    hide Run, Inv, Step;
    ReplayedWasYoung(s, limits, a, j);
    var k := log[j].key;
    hide Causes, CompletedKeys;
    CompletedWasStored(limits, actions[..n], k);
    var at := s.cache.entries[k].at;
    var m :| 0 <= m < n && actions[..n][m] == Store(k, at);
    assert actions[m] == Store(k, at);
    assert ServedYoung(limits, actions, k, m, n);
  }

  /** An arrival replays only a cached reply of its own call that is not too old. */
  lemma ReplayedWasYoung(s: System, limits: Limits, a: Action, j: nat)
    requires Inv(s, limits)
    requires Enabled(s, a) && |s.log| <= j < |Step(s, limits, a).log| && Step(s, limits, a).log[j].Replayed?
    ensures a.Arrive?
    ensures var k := Step(s, limits, a).log[j].key;
            && k.request == a.request && k.fingerprint == a.fingerprint
            && k in CompletedKeys(s.cache.entries)
            && 0 < limits.ttl && a.now < s.cache.entries[k].at + limits.ttl
  {
    InvParts(s, limits);
    hide Inv, WellFormed, Begin, Step;
    ReplayedByArrival(s, limits, a, j);
    BeginDecides(s.cache, limits, a.request, a.fingerprint, a.now, Open(s), s.nextWaiter);
  }

  lemma ReplayedByArrival(s: System, limits: Limits, a: Action, j: nat)
    requires Enabled(s, a) && |s.log| <= j < |Step(s, limits, a).log| && Step(s, limits, a).log[j].Replayed?
    ensures a.Arrive?
    ensures var d := Begin(s.cache, limits, a.request, a.fingerprint, a.now, Open(s), s.nextWaiter).1;
            d.Replay? && Step(s, limits, a).log[j] == Replayed(d.key, d.reply.Wire())
  {
    hide Begin, Keep, ExpireAll, ExpiredKeys, Without, Displaced, Squeezed, Retains, Complete, ArriveStep, StoreStep, Cancel;
    match a
    case Arrive(r, f, now) => ArriveLog(s, limits, r, f, now);
    case Store(k, now) => StoreLog(s, limits, k, now);
    case _ =>
  }

  // ------------------------------------------------------------------------ removals

  /** The reply of `k` was stored the time to live or longer before arrival `n`. */
  ghost predicate Due(limits: Limits, actions: seq<Action>, n: int, k: EntryKey)
    requires 0 <= n < |actions|
  {
    && actions[n].Arrive?
    && exists at: nat :: Store(k, at) in actions[..n] && (limits.ttl == 0 || at + limits.ttl <= actions[n].now)
  }

  /** Every slot is taken and `k` is the reply that completed first; or the reply being stored
      does not fit beside those that completed no earlier than `k`. */
  ghost predicate Needed(limits: Limits, s: System, a: Action, k: EntryKey) {
    match a
    case Arrive(r, _, now) =>
      var occupants := Occupants(s.cache, r, now, limits.ttl);
      |occupants| == limits.capacity && Earliest(s.cache.queue, occupants, k)
    case Store(key, _) =>
      && key in s.leases && s.leases[key].Storing?
      && var l := s.leases[key];
         var charge := ReplayStorage(l.reply, l.slackPrefix, l.slackPayload).1;
         charge <= limits.maxBytes && Crowded(s.cache, k, charge, limits.maxBytes)
    case _ => false
  }

  /** The reply of `k` is not the newest of its request, or too large to keep. */
  ghost predicate Worthless(limits: Limits, s: System, k: EntryKey) {
    && k in s.leases && s.leases[k].Storing?
    && var l := s.leases[k];
       !IsLatest(s.cache.latest, k) || ReplayStorage(l.reply, l.slackPrefix, l.slackPayload).1 > limits.maxBytes
  }

  /** What called for the event `e` of action `n`, after which the call of `k` may execute
      again. */
  ghost predicate Reason(limits: Limits, actions: seq<Action>, n: int, e: Event, k: EntryKey)
    requires 0 <= n < |actions| && Run(limits, actions[..n]).Some?
  {
    var s, a := Run(limits, actions[..n]).value, actions[n];
    match e
    case Expired(_) => Due(limits, actions, n, k)
    case Evicted(_) => Needed(limits, s, a, k)
    case Cancelled(_, _) => a == Abandon(k)
    case Finished(_, _, _, _) => a.Store? && a.key == k && Worthless(limits, s, k)
    case Granted(_) => a.Arrive? && a.request == k.request && a.fingerprint != k.fingerprint
    case _ => false
  }

  ghost predicate HasReason(limits: Limits, actions: seq<Action>, j: int, e: Event, k: EntryKey) {
    exists n :: Causes(limits, actions, n, j) && Reason(limits, actions, n, e, k)
  }

  lemma ExpiryIsDue(limits: Limits, actions: seq<Action>, n: nat, r: RequestKey, f: Fingerprint, now: nat, k: EntryKey)
    requires n < |actions| && Run(limits, actions[..n]).Some? && actions[n] == Arrive(r, f, now)
    requires k in ExpiredKeys(Run(limits, actions[..n]).value.cache.entries, now, limits.ttl)
    ensures Due(limits, actions, n, k)
  {
    hide Run;
    var s := Run(limits, actions[..n]).value;
    ExpireIsExact(s.cache, now, limits.ttl, k);
    CompletedWasStored(limits, actions[..n], k);
  }

  lemma DisplacementIsNeeded(limits: Limits, s: System, r: RequestKey, f: Fingerprint, now: nat, k: EntryKey)
    requires WellFormed(s.cache, limits)
    requires var live := ExpireAll(s.cache, now, limits.ttl);
             k in Displaced(Without(live, SupersededBy(live, r)), limits)
    ensures Needed(limits, s, Arrive(r, f, now), k)
    ensures var live := ExpireAll(s.cache, now, limits.ttl);
            Displaced(Without(live, SupersededBy(live, r)), limits) == {k}
  {
    hide WellFormed, ExpireAll, Without, SupersededBy, Occupants, Earliest;
    FreeIsOccupants(s.cache, limits, r, now);
    KeepFirst(s.cache.queue, Occupants(s.cache, r, now, limits.ttl), k);
  }

  lemma StorageWhenRetained(limits: Limits, s: System, k: EntryKey, now: nat)
    requires Enabled(s, Store(k, now))
    ensures var l := s.leases[k];
            StorageOf(l).Some? ==> StorageOf(l).value == ReplayStorage(l.reply, l.slackPrefix, l.slackPayload)
  {
  }

  lemma SqueezeIsNeeded(limits: Limits, s: System, key: EntryKey, now: nat, k: EntryKey)
    requires WellFormed(s.cache, limits) && Enabled(s, Store(key, now))
    requires Retains(s.cache, limits, key, StorageOf(s.leases[key]))
    requires k in Squeezed(s.cache, StorageOf(s.leases[key]).value.1, limits.maxBytes)
    ensures Needed(limits, s, Store(key, now), k)
  {
    hide Squeezed, Crowded, LatestOk, GenerationsOk, BoundsOk;
    StorageWhenRetained(limits, s, key, now);
    SqueezedIsCrowded(s.cache, StorageOf(s.leases[key]).value.1, limits.maxBytes, k);
  }

  lemma LostReplyIsWorthless(limits: Limits, s: System, k: EntryKey, now: nat)
    requires Inv(s, limits) && Enabled(s, Store(k, now))
    requires !Retains(s.cache, limits, k, StorageOf(s.leases[k]))
    ensures Worthless(limits, s, k)
  {
    hide WellFormed, LogOk, GrantsLive, LatestLive, EntriesLogged, WaitersLogged, NoneLost, ClockOk, IsLatest;
    LenIsWireLength(s.leases[k].reply);
  }

  /** The events of an arrival, by kind. */
  lemma ArriveEvent(s: System, limits: Limits, r: RequestKey, f: Fingerprint, now: nat, j: nat)
    requires WellFormed(s.cache, limits) && |s.log| <= j < |ArriveStep(s, limits, r, f, now).log|
    ensures var e := ArriveStep(s, limits, r, f, now).log[j];
            var live := ExpireAll(s.cache, now, limits.ttl);
            && (e.Expired? ==> e.keys == ExpiredKeys(s.cache.entries, now, limits.ttl))
            && (e.Evicted? ==> e.keys == Displaced(Without(live, SupersededBy(live, r)), limits))
            && (e.Granted? ==> e.key == EntryKey(r, f, s.cache.next))
            && !e.Finished? && !e.Cancelled?
  {
    hide WellFormed, Begin, ExpireAll, ExpiredKeys, Without, SupersededBy, Displaced, ArriveStep, Answerable;
    ArriveLog(s, limits, r, f, now);
    BeginDecides(s.cache, limits, r, f, now, Open(s), s.nextWaiter);
  }

  lemma ArriveReasons(limits: Limits, actions: seq<Action>, n: nat, j: nat, k: EntryKey)
    requires Causes(limits, actions, n, j) && actions[n].Arrive?
    requires Releases(Step(Run(limits, actions[..n]).value, limits, actions[n]).log[j], k)
    ensures Reason(limits, actions, n, Step(Run(limits, actions[..n]).value, limits, actions[n]).log[j], k)
  {
    var s, a := Run(limits, actions[..n]).value, actions[n];
    RunKeepsInv(limits, actions[..n]);
    InvParts(s, limits);
    hide Run, Inv, WellFormed, ExpireAll, ExpiredKeys, Without, SupersededBy, Displaced, ArriveStep, Due, Needed;
    ArriveEvent(s, limits, a.request, a.fingerprint, a.now, j);
    var e := Step(s, limits, a).log[j];
    match e
    case Expired(_) => ExpiryIsDue(limits, actions, n, a.request, a.fingerprint, a.now, k);
    case Evicted(_) => DisplacementIsNeeded(limits, s, a.request, a.fingerprint, a.now, k);
    case _ =>
  }

  /** The events of a completion, by kind. */
  lemma StoreEvent(s: System, limits: Limits, k: EntryKey, now: nat, j: nat)
    requires Enabled(s, Store(k, now)) && |s.log| <= j < |StoreStep(s, limits, k, now).log|
    ensures var e := StoreStep(s, limits, k, now).log[j];
            var storage := StorageOf(s.leases[k]);
            var retained := Retains(s.cache, limits, k, storage);
            || e == Evicted(if retained then Squeezed(s.cache, storage.value.1, limits.maxBytes) else {})
            || (e.Finished? && e.key == k && e.retained == retained)
  {
    hide Retains, Squeezed, StoreStep, Keep, StorageOf;
    StoreLog(s, limits, k, now);
  }

  lemma StoreReasons(limits: Limits, actions: seq<Action>, n: nat, j: nat, k: EntryKey)
    requires Causes(limits, actions, n, j) && actions[n].Store?
    requires Releases(Step(Run(limits, actions[..n]).value, limits, actions[n]).log[j], k)
    ensures Reason(limits, actions, n, Step(Run(limits, actions[..n]).value, limits, actions[n]).log[j], k)
  {
    var s, a := Run(limits, actions[..n]).value, actions[n];
    RunKeepsInv(limits, actions[..n]);
    InvParts(s, limits);
    hide Run, Inv, WellFormed, Retains, Squeezed, StoreStep, Needed, Worthless, StorageOf;
    StoreEvent(s, limits, a.key, a.now, j);
    var e := Step(s, limits, a).log[j];
    match e
    case Evicted(_) => SqueezeIsNeeded(limits, s, a.key, a.now, k);
    case Finished(_, _, _, _) => LostReplyIsWorthless(limits, s, a.key, a.now);
    case _ =>
  }

  /** Nothing lets a call execute again without cause: a reply expires only at an arrival the
      time to live or longer after it was stored; an arrival evicts only when every slot is
      taken, and then the reply that completed first; a completion evicts only the replies it
      cannot be kept beside; a reply is lost only if it is out of date or too large; and an
      execution is cancelled only by its owner. */
  lemma ReleaseHasReason(limits: Limits, actions: seq<Action>, j: nat, k: EntryKey)
    requires Run(limits, actions).Some?
    requires var log := Run(limits, actions).value.log; j < |log| && Releases(log[j], k)
    ensures HasReason(limits, actions, j, Run(limits, actions).value.log[j], k)
  {
    var log := Run(limits, actions).value.log;
    var n := CauseOf(limits, actions, j);
    var s, a := Run(limits, actions[..n]).value, actions[n];
    assert log[j] == Step(s, limits, a).log[j];
    hide Run, Due, Needed, Worthless, ArriveStep, StoreStep, Keep, Cancel;
    match a
    case Arrive(_, _, _) => ArriveReasons(limits, actions, n, j, k);
    case Store(_, _) => StoreReasons(limits, actions, n, j, k);
    case Abandon(_) =>
    case _ =>
  }

  /** At most once, with its reasons: between two executions of the same call there is an
      event that released the first one, and there was cause for that event. */
  lemma ReexecutionHasReason(limits: Limits, actions: seq<Action>, i: nat, j: nat)
    requires Run(limits, actions).Some?
    requires var log := Run(limits, actions).value.log;
             i < j < |log| && log[i].Granted? && log[j].Granted? && CallOf(log[i].key) == CallOf(log[j].key)
    ensures var log := Run(limits, actions).value.log;
            exists l :: i < l < j && Releases(log[l], log[i].key) && HasReason(limits, actions, l, log[l], log[i].key)
  {
    hide Run, HasReason, Releases;
    var log := Run(limits, actions).value.log;
    AtMostOnce(limits, actions, i, j);
    var l :| i < l < j && Releases(log[l], log[i].key);
    ReleaseHasReason(limits, actions, l, log[i].key);
  }

  /** An arrival evicts one reply at most. */
  lemma ArrivalEvictsOne(limits: Limits, actions: seq<Action>, n: nat, j: nat)
    requires Causes(limits, actions, n, j) && actions[n].Arrive?
    requires Step(Run(limits, actions[..n]).value, limits, actions[n]).log[j].Evicted?
    ensures |Step(Run(limits, actions[..n]).value, limits, actions[n]).log[j].keys| <= 1
  {
    var s, a := Run(limits, actions[..n]).value, actions[n];
    RunKeepsInv(limits, actions[..n]);
    InvParts(s, limits);
    hide Run, Inv, WellFormed, ExpireAll, ExpiredKeys, Without, SupersededBy, Displaced, ArriveStep, Needed;
    ArriveEvent(s, limits, a.request, a.fingerprint, a.now, j);
    var keys := Step(s, limits, a).log[j].keys;
    if k :| k in keys {
      DisplacementIsNeeded(limits, s, a.request, a.fingerprint, a.now, k);
    }
  }
}
