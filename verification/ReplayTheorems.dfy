/** What the replay cache promises over every run, whatever the interleaving. */
module ReplayTheorems {
  import opened Sequences
  import opened Replies
  import opened ReplayModel
  import opened ReplayRuns

  lemma {:induction false} LogOkAt(log: seq<Event>, j: nat)
    requires LogOk(log) && j < |log|
    ensures Justified(log[..j], log[j])
  {
    hide Justified;
    var n := |log| - 1;
    if j >= n {
    } else {
      LogOkAt(log[..n], j);
      assert log[..n][..j] == log[..j];
    }
  }

  /** At most once: between two executions of the same call on the same request
      there is a cancellation, a reply that was not retained, an eviction, an
      expiry, or an execution of a different call under that XID. */
  lemma AtMostOnce(limits: Limits, actions: seq<Action>, i: nat, j: nat)
    requires Run(limits, actions).Some?
    requires var log := Run(limits, actions).value.log;
             i < j < |log| && log[i].Granted? && log[j].Granted? && CallOf(log[i].key) == CallOf(log[j].key)
    ensures var log := Run(limits, actions).value.log;
            exists l :: i < l < j && Releases(log[l], log[i].key)
  {
    var log := Run(limits, actions).value.log;
    RunKeepsInv(limits, actions);
    LogOkAt(log, j);
    hide Releases, LogOk, Run;
    var past := log[..j];
    assert past[i] == log[i];
    assert ReleasedAfter(past, i, past[i].key);
    var l :| i < l < |past| && Releases(past[l], past[i].key);
    assert log[l] == past[l];
  }

  /** Every reachable cache, entry by entry: at most `capacity` entries, whose retained bytes
      stay within the limit; each `latest` record names an entry that is there; a reply is
      kept only for the newest call of its request, and queued once, behind those stored
      before it; an execution is in flight exactly while its lease is unfinished. */
  lemma EveryReachableCache(limits: Limits, actions: seq<Action>, k: EntryKey, i: nat, j: nat)
    requires Run(limits, actions).Some?
    ensures var s := Run(limits, actions).value;
            var c := s.cache;
            && |c.entries| <= limits.capacity && Charges(c.queue, c.entries) <= limits.maxBytes
            && (k.request in c.latest ==>
                  EntryKey(k.request, c.latest[k.request].fingerprint, c.latest[k.request].generation) in c.entries)
            && (k in c.entries && c.entries[k].Completed? ==>
                  k.request in c.latest && c.latest[k.request] == Latest(k.fingerprint, k.generation))
            && (k in c.queue <==> k in c.entries && c.entries[k].Completed?)
            && (i < j < |c.queue| ==>
                  && c.queue[i] != c.queue[j]
                  && c.queue[i] in c.entries && c.entries[c.queue[i]].Completed?
                  && c.queue[j] in c.entries && c.entries[c.queue[j]].Completed?
                  && c.entries[c.queue[i]].at <= c.entries[c.queue[j]].at)
            && (k in s.leases <==> k in c.entries && c.entries[k].InFlight?)
            && (k in c.entries ==> k.generation < c.next)
  {
    RunKeepsInv(limits, actions);
    hide Run, LogOk, GrantsLive, LatestLive, EntriesLogged, WaitersLogged, NoneLost, ClockOk, Charges;
    var c := Run(limits, actions).value.cache;
    if k.request in c.latest {
      assert Named(k.request, c.latest[k.request]) in c.entries;
    }
    if k in c.entries && c.entries[k].Completed? {
      assert IsLatest(c.latest, k);
    }
    if i < j < |c.queue| {
      assert c.queue[i] in c.queue && c.queue[j] in c.queue;
    }
    assert k in Run(limits, actions).value.leases <==> k in InFlightKeys(c.entries);
  }

  // ------------------------------------------------------------- whose call is answered

  /** Nothing is asked or decided strictly between two positions. */
  ghost predicate QuietBetween(log: seq<Event>, i: int, j: int) {
    forall l :: 0 <= i < l < j <= |log| ==> !log[l].Asked? && !Decides(log[l])
  }

  /** The event at `j` decides the call asked at `a`, and nothing else does. */
  ghost predicate Answers(log: seq<Event>, a: int, j: int) {
    && 0 <= a < j < |log| && Decides(log[j])
    && log[a] == Asked(Decided(log[j]))
    && QuietBetween(log, a, j)
  }

  lemma {:induction false} PendingWasAsked(log: seq<Event>)
    requires Pending(log).Some?
    ensures exists a :: 0 <= a < |log| && log[a] == Asked(Pending(log).value) && QuietBetween(log, a, |log|)
  {
    var n := |log| - 1;
    if log[n].Asked? {
      assert QuietBetween(log, n, |log|);
    } else {
      PendingWasAsked(log[..n]);
      var a :| 0 <= a < n && log[..n][a] == Asked(Pending(log).value) && QuietBetween(log[..n], a, n);
      forall l | a < l < |log|
        ensures !log[l].Asked? && !Decides(log[l])
      {
        if l < n {
          assert log[l] == log[..n][l];
        }
      }
      assert log[a] == log[..n][a] && QuietBetween(log, a, |log|);
    }
  }

  lemma LogDecision(log: seq<Event>, j: nat)
    requires LogOk(log) && j < |log| && Decides(log[j])
    ensures exists a :: Answers(log, a, j)
  {
    hide LogOk, Grounded, Pending;
    LogOkAt(log, j);
    var past := log[..j];
    PendingWasAsked(past);
    var a :| 0 <= a < j && past[a] == Asked(Decided(log[j])) && QuietBetween(past, a, j);
    assert forall l :: 0 <= l < j ==> past[l] == log[l];
    assert Answers(log, a, j);
  }

  /** Every decision of the cache, be it a grant, a wait, a replay or a refusal, is about
      exactly the request and fingerprint that were asked, with no other call or decision
      in between. */
  lemma DecisionAnswersItsCall(limits: Limits, actions: seq<Action>, j: nat)
    requires Run(limits, actions).Some?
    requires var log := Run(limits, actions).value.log; j < |log| && Decides(log[j])
    ensures exists a :: Answers(Run(limits, actions).value.log, a, j)
  {
    hide LogOk, Run, Answers;
    RunKeepsInv(limits, actions);
    LogDecision(Run(limits, actions).value.log, j);
  }

  /** What is pending was asked last; so an asked call that nothing decides stays pending. */
  lemma {:induction false} UndecidedIsPending(log: seq<Event>, a: nat)
    requires a < |log| && log[a].Asked? && QuietBetween(log, a, |log|)
    ensures Pending(log) == Some(log[a].call)
    decreases |log|
  {
    var n := |log| - 1;
    if a >= n {
    } else {
      assert log[..n][a] == log[a];
      assert QuietBetween(log[..n], a, n);
      UndecidedIsPending(log[..n], a);
    }
  }

  /** The first event after `a` that asks or decides, if there is one. */
  lemma {:induction false} NextTurn(log: seq<Event>, a: nat, end: nat)
    requires a < end <= |log| && !QuietBetween(log, a, end)
    ensures exists j :: a < j < end && (log[j].Asked? || Decides(log[j])) && QuietBetween(log, a, j)
    decreases end
  {
    if QuietBetween(log, a, end - 1) {
      assert log[end - 1].Asked? || Decides(log[end - 1]);
    } else {
      NextTurn(log, a, end - 1);
    }
  }

  /** Every call that was asked has been decided, before the next call was asked. */
  lemma EveryCallIsDecided(limits: Limits, actions: seq<Action>, a: nat)
    requires Run(limits, actions).Some?
    requires var log := Run(limits, actions).value.log; a < |log| && log[a].Asked?
    ensures exists j :: Answers(Run(limits, actions).value.log, a, j)
  {
    hide LogOk, Run, Grounded, Pending;
    var log := Run(limits, actions).value.log;
    RunKeepsInv(limits, actions);
    if QuietBetween(log, a, |log|) {
      UndecidedIsPending(log, a);
    } else {
      NextTurn(log, a, |log|);
      var j :| a < j < |log| && (log[j].Asked? || Decides(log[j])) && QuietBetween(log, a, j);
      LogOkAt(log, j);
      var past := log[..j];
      assert past[a] == log[a] && QuietBetween(past, a, j);
      UndecidedIsPending(past, a);
      assert Answers(log, a, j);
    }
  }

  // --------------------------------------------------------------------------- replays

  lemma LogGrantedOnce(log: seq<Event>, i: nat, j: nat, k: EntryKey)
    requires LogOk(log) && i < j < |log| && log[i] == Granted(k)
    ensures log[j] != Granted(k)
  {
    hide LogOk;
    LogOkAt(log, j);
    assert log[..j][i] == log[i];
  }

  /** The events behind a replay at `j`: the grant at `g`, the completion at `i`, and no
      release of the generation from its grant up to the replay. */
  ghost predicate ReplaysFrom(log: seq<Event>, g: int, i: int, j: int) {
    && 0 <= g < i < j < |log| && log[j].Replayed?
    && log[g] == Granted(log[j].key)
    && log[i].Finished? && log[i].key == log[j].key && log[i].wire == log[j].wire && log[i].retained
    && forall l :: g < l < j ==> !Releases(log[l], log[j].key)
  }

  lemma LogReplay(log: seq<Event>, j: nat)
    requires LogOk(log) && j < |log| && log[j].Replayed?
    ensures exists g, i :: ReplaysFrom(log, g, i, j)
  {
    hide LogOk, Releases, Pending;
    var k, past := log[j].key, log[..j];
    LogOkAt(log, j);
    var sent :| Finished(k, log[j].wire, true, sent) in past;
    var i :| 0 <= i < j && past[i] == Finished(k, log[j].wire, true, sent);
    var g :| LiveSince(past, g, k);
    LogOkAt(log, i);
    assert Granted(k) in log[..i];
    var h :| 0 <= h < i && log[..i][h] == Granted(k);
    assert log[h] == Granted(k) && log[g] == Granted(k) && log[i] == past[i];
    if g < h {
      LogGrantedOnce(log, g, h, k);
    } else if h < g {
      LogGrantedOnce(log, h, g, k);
    }
    forall l | g < l < j
      ensures !Releases(log[l], k)
    {
      assert past[l] == log[l];
    }
    assert ReplaysFrom(log, g, i, j);
  }

  /** A replay answers the call that was asked with exactly the bytes that the generation
      granted for that call completed with, and that generation has not been cancelled,
      expired, evicted or displaced by another call since it was granted. */
  lemma ReplayIsFaithful(limits: Limits, actions: seq<Action>, j: nat)
    requires Run(limits, actions).Some?
    requires var log := Run(limits, actions).value.log; j < |log| && log[j].Replayed?
    ensures exists g, i :: ReplaysFrom(Run(limits, actions).value.log, g, i, j)
    ensures exists a :: Answers(Run(limits, actions).value.log, a, j)
  {
    hide LogOk, Run, ReplaysFrom, Answers;
    RunKeepsInv(limits, actions);
    LogReplay(Run(limits, actions).value.log, j);
    LogDecision(Run(limits, actions).value.log, j);
  }

  lemma LogEndsOnce(log: seq<Event>, i: nat, j: nat, k: EntryKey)
    requires LogOk(log) && i < j < |log| && Ends(log[i], k)
    ensures !Ends(log[j], k)
  {
    LogOkAt(log, j);
    assert log[..j][i] == log[i];
    assert log[i] in log[..j];
    assert Ended(log[..j], k);
  }

  /** An entry completes or is cancelled only once. */
  lemma EndsOnce(limits: Limits, actions: seq<Action>, i: nat, j: nat, k: EntryKey)
    requires Run(limits, actions).Some?
    requires var log := Run(limits, actions).value.log; i < j < |log| && Ends(log[i], k)
    ensures !Ends(Run(limits, actions).value.log[j], k)
  {
    RunKeepsInv(limits, actions);
    LogEndsOnce(Run(limits, actions).value.log, i, j, k);
  }

  lemma LogAnswer(log: seq<Event>, j: nat, k: EntryKey, w: WaiterId) returns (i: nat)
    requires LogOk(log) && j < |log| && Ends(log[j], k) && w in log[j].sentTo
    ensures i < j && log[i] == Joined(k, w)
    ensures Distinct(log[j].sentTo)
  {
    LogOkAt(log, j);
    assert Joined(k, w) in log[..j];
    i :| 0 <= i < j && log[..j][i] == Joined(k, w);
  }

  /** A waiter is answered by the end of the entry it joined, after it joined, and the same
      end never answers it twice. The entry it joined is an execution of its own call that
      had neither ended nor been released. */
  lemma AnswerComesFromOwnEntry(limits: Limits, actions: seq<Action>, j: nat, k: EntryKey, w: WaiterId)
    requires Run(limits, actions).Some?
    requires var log := Run(limits, actions).value.log; j < |log| && Ends(log[j], k) && w in log[j].sentTo
    ensures var log := Run(limits, actions).value.log;
            && Distinct(log[j].sentTo)
            && exists i :: 0 <= i < j && log[i] == Joined(k, w) && JoinsOwnCall(log, i)
  {
    var log := Run(limits, actions).value.log;
    RunKeepsInv(limits, actions);
    var i := LogAnswer(log, j, k, w);
    hide LogOk, Run, Answers;
    LogDecision(log, i);
    LogOkAt(log, i);
    assert JoinsOwnCall(log, i);
  }

  /** The join at `i` answers the call asked just before, and joins a live execution. */
  ghost predicate JoinsOwnCall(log: seq<Event>, i: nat)
    requires i < |log| && log[i].Joined?
  {
    && (exists a :: Answers(log, a, i))
    && Live(log[..i], log[i].key) && !Ended(log[..i], log[i].key)
  }

  lemma LogJoinsOnce(log: seq<Event>, i: nat, j: nat, k: EntryKey, w: WaiterId)
    requires LogOk(log) && i < j < |log| && log[i] == Joined(k, w)
    ensures !(log[j].Joined? && log[j].waiter == w)
  {
    LogOkAt(log, j);
    assert log[..j][i] == log[i];
    assert Joined(k, w) in log[..j];
  }

  lemma LogAnsweredOnce(log: seq<Event>, i: nat, j: nat, k: EntryKey, k': EntryKey, w: WaiterId)
    requires LogOk(log) && i < j < |log|
    requires Ends(log[i], k) && w in log[i].sentTo && Ends(log[j], k')
    ensures w !in log[j].sentTo
  {
    hide LogOk, Justified;
    if w in log[j].sentTo {
      var a := LogAnswer(log, i, k, w);
      var b := LogAnswer(log, j, k', w);
      LogEndsOnce(log, i, j, k);
      if a < b { LogJoinsOnce(log, a, b, k, w); } else if b < a { LogJoinsOnce(log, b, a, k', w); }
    }
  }

  /** Each waiter is answered at most once, whichever entries end. */
  lemma AnsweredAtMostOnce(limits: Limits, actions: seq<Action>, i: nat, j: nat, k: EntryKey, k': EntryKey, w: WaiterId)
    requires Run(limits, actions).Some?
    requires var log := Run(limits, actions).value.log;
             i < j < |log| && Ends(log[i], k) && w in log[i].sentTo && Ends(log[j], k')
    ensures w !in Run(limits, actions).value.log[j].sentTo
  {
    RunKeepsInv(limits, actions);
    LogAnsweredOnce(Run(limits, actions).value.log, i, j, k, k', w);
  }

  /** Once an entry's lease is gone, every waiter that joined it and still
      listens has been answered. */
  lemma NoWaiterIsLost(limits: Limits, actions: seq<Action>, k: EntryKey, w: WaiterId)
    requires Run(limits, actions).Some?
    requires var s := Run(limits, actions).value;
             Joined(k, w) in s.log && w !in s.closed && k !in s.leases
    ensures var s := Run(limits, actions).value;
            exists j :: 0 <= j < |s.log| && Ends(s.log[j], k) && w in s.log[j].sentTo
  {
    var s := Run(limits, actions).value;
    RunKeepsInv(limits, actions);
    hide LogOk, Run, WellFormed;
    assert k !in InFlightKeys(s.cache.entries);
    assert WaitersOf(s.cache, k) == [];
    var e :| e in s.log && Ends(e, k) && w in e.sentTo;
    var j :| 0 <= j < |s.log| && s.log[j] == e;
  }

  // ----------------------------------------------------------------- retention is exact

  /** A generation that is the latest at the second lock is retained exactly when
      its charge fits the limit: neither the first lock nor a full cache ever
      turns such a reply away. */
  lemma RetentionIsExact(limits: Limits, actions: seq<Action>, k: EntryKey, now: nat)
    requires Run(limits, actions).Some?
    requires var s := Run(limits, actions).value;
             Enabled(s, Store(k, now)) && IsLatest(s.cache.latest, k)
    ensures var s := Run(limits, actions).value;
            var l := s.leases[k];
            var (stored, charge) := ReplayStorage(l.reply, l.slackPrefix, l.slackPayload);
            var after := Step(s, limits, Store(k, now)).cache.entries;
            && (k in after <==> charge <= limits.maxBytes)
            && (k in after ==> after[k] == Completed(stored, charge, now) && stored.Wire() == l.reply.Wire())
  {
    var s := Run(limits, actions).value;
    RunKeepsInv(limits, actions);
    hide LogOk, Run, WellFormed, GrantsLive, EntriesLogged, WaitersLogged, NoneLost, Squeezed, Keep;
    LenIsWireLength(s.leases[k].reply);
  }

  /** Completing an out-of-date generation touches no `latest` record, caches
      nothing and evicts nothing. */
  lemma StaleCompletionIsInert(limits: Limits, actions: seq<Action>, k: EntryKey, now: nat)
    requires Run(limits, actions).Some?
    requires var s := Run(limits, actions).value;
             Enabled(s, Store(k, now)) && !IsLatest(s.cache.latest, k)
    ensures var s := Run(limits, actions).value;
            Step(s, limits, Store(k, now)).cache == s.cache.(entries := s.cache.entries - {k})
  {
    var s := Run(limits, actions).value;
    RunKeepsInv(limits, actions);
    StaleRemoval(s.cache, limits, k);
    hide Run, Without, Inv;
    StoreFacts(s, limits, k, now);
  }

  lemma StaleCancellationIsInert(limits: Limits, actions: seq<Action>, k: EntryKey)
    requires Run(limits, actions).Some?
    requires var s := Run(limits, actions).value;
             Enabled(s, Abandon(k)) && !IsLatest(s.cache.latest, k)
    ensures var s := Run(limits, actions).value;
            Step(s, limits, Abandon(k)).cache == s.cache.(entries := s.cache.entries - {k})
  {
    var s := Run(limits, actions).value;
    RunKeepsInv(limits, actions);
    StaleRemoval(s.cache, limits, k);
    assert k in InFlightKeys(s.cache.entries);
    hide Run, Without, Inv;
  }

  lemma StaleRemoval(c: Cache, limits: Limits, k: EntryKey)
    requires WellFormed(c, limits) && !IsLatest(c.latest, k)
    ensures Without(c, {k}) == c.(entries := c.entries - {k})
  {
    assert k !in c.queue;
    KeepAll(c.queue, c.entries.Keys - {k});
    hide Keep;
    assert Without(c, {k}).latest == c.latest;
  }

  // ------------------------------------------------------- out of date means out of date for good

  /** `latest` of `after` names nothing old that `before` did not name. */
  ghost predicate NoRevival(before: Cache, after: Cache) {
    && before.next <= after.next
    && forall k: EntryKey :: k.generation < before.next && IsLatest(after.latest, k) ==> IsLatest(before.latest, k)
  }

  lemma WithoutNoRevival(c: Cache, dead: set<EntryKey>)
    ensures NoRevival(c, Without(c, dead))
  {
  }

  lemma NoRevivalTransitive(a: Cache, b: Cache, c: Cache)
    requires NoRevival(a, b) && NoRevival(b, c)
    ensures NoRevival(a, c)
  {
  }

  lemma AdmitNoRevival(c: Cache, limits: Limits, r: RequestKey, f: Fingerprint)
    ensures NoRevival(c, Admit(c, limits, r, f).0)
  {
    hide Keep, Displaced, SupersededBy;
    var free := Without(c, SupersededBy(c, r));
    var roomy := Without(free, Displaced(free, limits));
    WithoutNoRevival(c, SupersededBy(c, r));
    WithoutNoRevival(free, Displaced(free, limits));
    NoRevivalTransitive(c, free, roomy);
    hide Without;
    assert NoRevival(roomy, Grant(roomy, r, f));
    NoRevivalTransitive(c, roomy, Grant(roomy, r, f));
  }

  lemma BeginNoRevival(c: Cache, limits: Limits, r: RequestKey, f: Fingerprint, now: nat, open: set<WaiterId>, w: WaiterId)
    ensures NoRevival(c, Begin(c, limits, r, f, now, open, w).0)
  {
    var live := ExpireAll(c, now, limits.ttl);
    WithoutNoRevival(c, ExpiredKeys(c.entries, now, limits.ttl));
    assert NoRevival(c, live);
    hide Keep, ExpireAll, Admit;
    if !Known(live, r, f) {
      AdmitNoRevival(live, limits, r, f);
      NoRevivalTransitive(c, live, Admit(live, limits, r, f).0);
    }
  }

  /** A step makes a generation the latest only when it creates it. */
  lemma StepNoRevival(s: System, limits: Limits, a: Action)
    requires Enabled(s, a)
    ensures NoRevival(s.cache, Step(s, limits, a).cache)
  {
    hide Keep, Begin, Squeezed, NoRevival;
    match a
    case Arrive(r, f, now) =>
      BeginNoRevival(s.cache, limits, r, f, now, Open(s), s.nextWaiter);
    case Store(k, now) =>
      CompleteNoRevival(s.cache, limits, k, StorageOf(s.leases[k]), now);
    case Abandon(k) =>
      WithoutNoRevival(s.cache, {k});
      SameNoRevival(s.cache, s.cache);
    case _ => SameNoRevival(s.cache, s.cache);
  }

  lemma SameNoRevival(c: Cache, c': Cache)
    requires c'.latest == c.latest && c'.next == c.next
    ensures NoRevival(c, c')
  {
  }

  lemma CompleteNoRevival(c: Cache, limits: Limits, k: EntryKey, storage: Option<(Reply, nat)>, now: nat)
    ensures NoRevival(c, Complete(c, limits, k, storage, now))
  {
    hide Keep, Squeezed, Without, NoRevival;
    SameNoRevival(c, c);
    WithoutNoRevival(c, {k});
    if Retains(c, limits, k, storage) {
      var roomy := Without(c, Squeezed(c, storage.value.1, limits.maxBytes));
      WithoutNoRevival(c, Squeezed(c, storage.value.1, limits.maxBytes));
      SameNoRevival(roomy, Insert(roomy, k, storage.value.0, storage.value.1, now));
      NoRevivalTransitive(c, roomy, Insert(roomy, k, storage.value.0, storage.value.1, now));
    }
  }

  /** Once superseded, a generation is never again the latest and never cached,
      however the run continues. */
  lemma {:induction false} StaleForever(limits: Limits, actions: seq<Action>, more: seq<Action>, k: EntryKey)
    requires Run(limits, actions).Some? && Run(limits, actions + more).Some?
    requires var s := Run(limits, actions).value;
             k.generation < s.cache.next && !IsLatest(s.cache.latest, k)
    ensures var s' := Run(limits, actions + more).value;
            && k.generation < s'.cache.next && !IsLatest(s'.cache.latest, k)
            && k !in CompletedKeys(s'.cache.entries)
    decreases |more|
  {
    hide Run, Inv, Step, Enabled, IsLatest, CompletedKeys;
    if more == [] {
      assert actions + more == actions;
    } else {
      var n := |more| - 1;
      var before := actions + more[..n];
      assert actions + more == before + [more[n]];
      RunExtends(limits, before, more[n], actions + more);
      StaleForever(limits, actions, more[..n], k);
      StepNoRevival(Run(limits, before).value, limits, more[n]);
    }
    RunKeepsInv(limits, actions + more);
    CompletedIsLatest(Run(limits, actions + more).value, limits, k);
  }

  lemma RunExtends(limits: Limits, before: seq<Action>, a: Action, all: seq<Action>)
    requires all == before + [a] && Run(limits, all).Some?
    ensures Run(limits, before).Some? && Enabled(Run(limits, before).value, a)
    ensures Run(limits, all).value == Step(Run(limits, before).value, limits, a)
  {
    hide Step, Enabled;
    assert all[..|all| - 1] == before;
  }

  lemma CompletedIsLatest(s: System, limits: Limits, k: EntryKey)
    requires Inv(s, limits)
    ensures k in CompletedKeys(s.cache.entries) ==> IsLatest(s.cache.latest, k)
  {
  }
}
