/** What can happen next in a run of the replay cache, told from its history alone, and that
    every run can be brought to rest. */
module ReplayProgress {
  import opened Sequences
  import opened ReplayModel
  import opened ReplayLemmas
  import opened ReplayRuns

  ghost predicate Executing(log: seq<Event>, k: EntryKey) {
    Granted(k) in log && !Ended(log, k)
  }

  /** The first lock of the completion of `k` has been taken. */
  ghost predicate Prepared(actions: seq<Action>, k: EntryKey) {
    exists a :: a in actions && a.Prepare? && a.key == k
  }

  ghost predicate HasJoined(log: seq<Event>, w: WaiterId) {
    exists k :: Joined(k, w) in log
  }

  /** Calls arrive at any time; an execution that has not ended can be given up, or completed
      in two steps, the second no earlier than any before it; a duplicate that waits or has
      waited can disconnect. */
  ghost predicate Possible(log: seq<Event>, actions: seq<Action>, a: Action) {
    match a
    case Arrive(_, _, _) => true
    case Prepare(k, _, _, _) => Executing(log, k) && !Prepared(actions, k)
    case Store(k, now) =>
      && Executing(log, k) && Prepared(actions, k)
      && forall b :: b in actions && b.Store? ==> b.now <= now
    case Abandon(k) => Executing(log, k) && !Prepared(actions, k)
    case Disconnect(w) => HasJoined(log, w)
  }

  // ----------------------------------------------------------------- state and history

  ghost predicate LeasesTold(s: System, actions: seq<Action>) {
    && (forall k :: Granted(k) in s.log ==> k in s.leases || Ended(s.log, k))
    && (forall k :: Prepared(actions, k) ==> Granted(k) in s.log)
    && (forall k :: k in s.leases ==> (s.leases[k].Storing? <==> Prepared(actions, k)))
  }

  ghost predicate ClockTold(s: System, actions: seq<Action>) {
    && (forall b :: b in actions && b.Store? ==> b.now <= s.clock)
    && (s.clock == 0 || exists b :: b in actions && b.Store? && b.now == s.clock)
  }

  ghost predicate WaitersTold(s: System) {
    forall w: WaiterId :: w < s.nextWaiter <==> HasJoined(s.log, w)
  }

  ghost predicate Told(s: System, actions: seq<Action>) {
    LeasesTold(s, actions) && ClockTold(s, actions) && WaitersTold(s)
  }

  // ------------------------------------------------------------------- what steps log

  /** The events after `log` grant and end these executions and enter these waiters. */
  ghost predicate Adds(log: seq<Event>, log': seq<Event>, granted: set<EntryKey>, ended: set<EntryKey>,
                       joined: set<WaiterId>) {
    && (forall k :: Granted(k) in log' <==> Granted(k) in log || k in granted)
    && (forall k :: Ended(log', k) <==> Ended(log, k) || k in ended)
    && (forall w: WaiterId :: HasJoined(log', w) <==> HasJoined(log, w) || w in joined)
  }

  lemma AddsOne(log: seq<Event>, e: Event)
    ensures Adds(log, log + [e],
                 if e.Granted? then {e.key} else {},
                 if e.Finished? || e.Cancelled? then {e.key} else {},
                 if e.Joined? then {e.waiter} else {})
  {
    forall k
      ensures Ended(log + [e], k) <==> Ended(log, k) || Ends(e, k)
    {
      if Ended(log, k) {
        var d :| d in log && Ends(d, k);
        assert d in log + [e];
      }
      assert e in log + [e];
    }
    forall w: WaiterId
      ensures HasJoined(log + [e], w) <==> HasJoined(log, w) || (e.Joined? && e.waiter == w)
    {
      if HasJoined(log, w) {
        var k :| Joined(k, w) in log;
        assert Joined(k, w) in log + [e];
      } else if e.Joined? && e.waiter == w {
        assert Joined(e.key, w) in log + [e];
      }
    }
  }

  /** Neither the call nor what expired or was evicted grants, ends or joins anything. */
  lemma AddsAfter(log: seq<Event>, a: Event, b: Event, e: Event)
    requires !a.Granted? && !a.Finished? && !a.Cancelled? && !a.Joined?
    requires !b.Granted? && !b.Finished? && !b.Cancelled? && !b.Joined?
    ensures Adds(log, log + [a] + [b] + [e],
                 if e.Granted? then {e.key} else {},
                 if e.Finished? || e.Cancelled? then {e.key} else {},
                 if e.Joined? then {e.waiter} else {})
  {
    AddsOne(log, a);
    AddsOne(log + [a], b);
    AddsOne(log + [a] + [b], e);
    hide Ended, HasJoined;
  }

  /** An arrival grants the next generation, enters the next waiter, or does neither. */
  lemma ArriveAdds(s: System, limits: Limits, r: RequestKey, f: Fingerprint, now: nat)
    ensures var s' := ArriveStep(s, limits, r, f, now);
            var k := EntryKey(r, f, s.cache.next);
            && s'.clock == s.clock
            && (|| (s'.leases == s.leases && s'.nextWaiter == s.nextWaiter && Adds(s.log, s'.log, {}, {}, {}))
                || (&& s'.leases == s.leases && s'.nextWaiter == s.nextWaiter + 1
                    && Adds(s.log, s'.log, {}, {}, {s.nextWaiter}))
                || (&& s'.leases == s.leases[k := Working] && s'.nextWaiter == s.nextWaiter
                    && Adds(s.log, s'.log, {k}, {}, {})))
  {
    var live := ExpireAll(s.cache, now, limits.ttl);
    var d := Begin(s.cache, limits, r, f, now, Open(s), s.nextWaiter).1;
    BeginDecision(s.cache, limits, r, f, now, Open(s), s.nextWaiter);
    var asked, expired := Asked(Call(r, f)), Expired(ExpiredKeys(s.cache.entries, now, limits.ttl));
    var evicted := Evicted(Displaced(Without(live, SupersededBy(live, r)), limits));
    hide Begin, ExpireAll, ExpiredKeys, Without, Displaced, SupersededBy, Open, Adds;
    match d
    case Execute(k) =>
      var log := s.log + [asked];
      AddsAfter(log, expired, evicted, Granted(k));
      AddsOne(s.log, asked);
      assert Adds(s.log, log + [expired] + [evicted] + [Granted(k)], {k}, {}, {}) by {
        AddsTwice(s.log, log, log + [expired] + [evicted] + [Granted(k)], {k}, {}, {});
      }
    case Replay(k, reply) => AddsAfter(s.log, asked, expired, Replayed(k, reply.Wire()));
    case Wait(k, w) => AddsAfter(s.log, asked, expired, Joined(k, w));
    case Refuse => AddsAfter(s.log, asked, expired, Refused(Call(r, f)));
  }

  lemma AddsTwice(a: seq<Event>, b: seq<Event>, c: seq<Event>, granted: set<EntryKey>, ended: set<EntryKey>,
                  joined: set<WaiterId>)
    requires Adds(a, b, {}, {}, {}) && Adds(b, c, granted, ended, joined)
    ensures Adds(a, c, granted, ended, joined)
  {
    hide Ended, HasJoined;
  }

  lemma BeginDecision(c: Cache, limits: Limits, r: RequestKey, f: Fingerprint, now: nat, open: set<WaiterId>, w: WaiterId)
    ensures var d := Begin(c, limits, r, f, now, open, w).1;
            (d.Execute? ==> d.key == EntryKey(r, f, c.next)) && (d.Wait? ==> d.waiter == w)
  {
    var live := ExpireAll(c, now, limits.ttl);
    assert live.next == c.next;
    hide ExpireAll, Without, SupersededBy, Displaced, Grant, Join;
    if !Known(live, r, f) {
      AdmitSteps(live, limits, r, f);
    }
  }

  // ------------------------------------------------------------ the history tells the state

  lemma PreparedAppend(actions: seq<Action>, a: Action)
    ensures forall k :: Prepared(actions + [a], k) <==> Prepared(actions, k) || (a.Prepare? && a.key == k)
  {
    forall k
      ensures Prepared(actions + [a], k) <==> Prepared(actions, k) || (a.Prepare? && a.key == k)
    {
      if Prepared(actions, k) {
        var b :| b in actions && b.Prepare? && b.key == k;
        assert b in actions + [a];
      }
      assert a in actions + [a];
    }
  }

  lemma NextIsNew(s: System, limits: Limits, r: RequestKey, f: Fingerprint)
    requires Inv(s, limits)
    ensures Granted(EntryKey(r, f, s.cache.next)) !in s.log
  {
    hide WellFormed, LogOk, GrantsLive, LatestLive, WaitersLogged, NoneLost, LeasesOk, ClockOk, Ended;
    assert EntriesLogged(s.cache, s.log);
  }

  lemma LeaseIsLogged(s: System, limits: Limits, k: EntryKey)
    requires Inv(s, limits) && k in s.leases
    ensures Executing(s.log, k)
  {
    hide WellFormed, LogOk, GrantsLive, LatestLive, WaitersLogged, NoneLost, ClockOk, Ended;
    assert LeasesOk(s, limits) && EntriesLogged(s.cache, s.log);
  }

  /** Granting a new execution. */
  lemma GrantTold(s: System, s': System, actions: seq<Action>, a: Action, k: EntryKey)
    requires LeasesTold(s, actions) && a.Arrive? && Granted(k) !in s.log
    requires s'.leases == s.leases[k := Working] && Adds(s.log, s'.log, {k}, {}, {})
    ensures LeasesTold(s', actions + [a])
  {
    PreparedAppend(actions, a);
    hide Ended, HasJoined, Prepared;
  }

  /** Whatever grants and ends nothing. */
  lemma QuietTold(s: System, s': System, actions: seq<Action>, a: Action, joined: set<WaiterId>)
    requires LeasesTold(s, actions) && !a.Prepare?
    requires s'.leases == s.leases && Adds(s.log, s'.log, {}, {}, joined)
    ensures LeasesTold(s', actions + [a])
  {
    PreparedAppend(actions, a);
    hide Ended, HasJoined, Prepared;
  }

  /** Ending an execution. */
  lemma EndTold(s: System, s': System, actions: seq<Action>, a: Action, k: EntryKey)
    requires LeasesTold(s, actions) && !a.Prepare?
    requires s'.leases == s.leases - {k} && Adds(s.log, s'.log, {}, {k}, {})
    ensures LeasesTold(s', actions + [a])
  {
    PreparedAppend(actions, a);
    hide Ended, HasJoined, Prepared;
  }

  lemma JoinTold(s: System, s': System, granted: set<EntryKey>, ended: set<EntryKey>, joined: set<WaiterId>)
    requires WaitersTold(s) && Adds(s.log, s'.log, granted, ended, joined)
    requires (s'.nextWaiter == s.nextWaiter && joined == {})
             || (s'.nextWaiter == s.nextWaiter + 1 && joined == {s.nextWaiter})
    ensures WaitersTold(s')
  {
    hide Ended, HasJoined;
  }

  lemma ArriveTold(s: System, limits: Limits, actions: seq<Action>, r: RequestKey, f: Fingerprint, now: nat)
    requires Inv(s, limits) && LeasesTold(s, actions) && WaitersTold(s)
    ensures LeasesTold(ArriveStep(s, limits, r, f, now), actions + [Arrive(r, f, now)])
    ensures WaitersTold(ArriveStep(s, limits, r, f, now))
  {
    hide Inv, ArriveStep, Adds, LeasesTold, WaitersTold;
    var s', a, k := ArriveStep(s, limits, r, f, now), Arrive(r, f, now), EntryKey(r, f, s.cache.next);
    NextIsNew(s, limits, r, f);
    ArriveAdds(s, limits, r, f, now);
    if s'.nextWaiter != s.nextWaiter {
      QuietTold(s, s', actions, a, {s.nextWaiter});
      JoinTold(s, s', {}, {}, {s.nextWaiter});
    } else if Adds(s.log, s'.log, {}, {}, {}) && s'.leases == s.leases {
      QuietTold(s, s', actions, a, {});
      JoinTold(s, s', {}, {}, {});
    } else {
      GrantTold(s, s', actions, a, k);
      JoinTold(s, s', {k}, {}, {});
    }
  }

  lemma PrepareTold(s: System, limits: Limits, actions: seq<Action>, a: Action)
    requires Inv(s, limits) && a.Prepare? && Enabled(s, a) && LeasesTold(s, actions)
    ensures LeasesTold(Step(s, limits, a), actions + [a])
  {
    hide Inv, Ended, Prepared, EligibleAt;
    LeaseIsLogged(s, limits, a.key);
    PreparedAppend(actions, a);
  }

  lemma AbandonTold(s: System, limits: Limits, actions: seq<Action>, k: EntryKey)
    requires Enabled(s, Abandon(k)) && LeasesTold(s, actions) && WaitersTold(s)
    ensures LeasesTold(Step(s, limits, Abandon(k)), actions + [Abandon(k)])
    ensures WaitersTold(Step(s, limits, Abandon(k)))
  {
    hide Adds, LeasesTold, WaitersTold, Cancel, Keep, WaitersOf, Open;
    var s' := Step(s, limits, Abandon(k));
    AddsOne(s.log, Cancelled(k, Keep(WaitersOf(s.cache, k), Open(s))));
    EndTold(s, s', actions, Abandon(k), k);
    JoinTold(s, s', {}, {k}, {});
  }

  lemma StepLeasesTold(s: System, limits: Limits, actions: seq<Action>, a: Action)
    requires Inv(s, limits) && Enabled(s, a) && LeasesTold(s, actions) && WaitersTold(s)
    ensures LeasesTold(Step(s, limits, a), actions + [a]) && WaitersTold(Step(s, limits, a))
  {
    hide Inv, Ended, HasJoined, Prepared, ArriveStep, StoreStep, Cancel, Keep, EligibleAt;
    match a
    case Arrive(r, f, now) => ArriveTold(s, limits, actions, r, f, now);
    case Prepare(_, _, _, _) => PrepareTold(s, limits, actions, a);
    case Store(k, now) => StoreTold(s, limits, actions, k, now);
    case Abandon(k) => AbandonTold(s, limits, actions, k);
    case Disconnect(_) => PreparedAppend(actions, a);
  }

  lemma StoreTold(s: System, limits: Limits, actions: seq<Action>, k: EntryKey, now: nat)
    requires Enabled(s, Store(k, now)) && LeasesTold(s, actions) && WaitersTold(s)
    ensures LeasesTold(StoreStep(s, limits, k, now), actions + [Store(k, now)])
    ensures WaitersTold(StoreStep(s, limits, k, now))
  {
    hide Adds, LeasesTold, WaitersTold, Complete, Keep, WaitersOf, Open, Squeezed;
    var s' := StoreStep(s, limits, k, now);
    var storage := StorageOf(s.leases[k]);
    var retained := Retains(s.cache, limits, k, storage);
    var evicted := Evicted(if retained then Squeezed(s.cache, storage.value.1, limits.maxBytes) else {});
    var finished := Finished(k, s.leases[k].reply.Wire(), retained, Keep(WaitersOf(s.cache, k), Open(s)));
    AddsOne(s.log, evicted);
    AddsOne(s.log + [evicted], finished);
    AddsTwice(s.log, s.log + [evicted], s.log + [evicted] + [finished], {}, {k}, {});
    EndTold(s, s', actions, Store(k, now), k);
    JoinTold(s, s', {}, {k}, {});
  }

  lemma StepClockTold(s: System, limits: Limits, actions: seq<Action>, a: Action)
    requires Enabled(s, a) && ClockTold(s, actions)
    ensures ClockTold(Step(s, limits, a), actions + [a])
  {
    if a.Arrive? {
      ArriveAdds(s, limits, a.request, a.fingerprint, a.now);
    }
    hide ArriveStep, Complete, Cancel, Keep, Retains, Squeezed, EligibleAt;
    var s' := Step(s, limits, a);
    assert s'.clock == if a.Store? then a.now else s.clock;
    assert a in actions + [a];
    if !a.Store? && s.clock != 0 {
      var b :| b in actions && b.Store? && b.now == s.clock;
      assert b in actions + [a];
    }
  }

  lemma StartTold()
    ensures Told(START, [])
  {
  }

  lemma StepTold(s: System, limits: Limits, actions: seq<Action>, a: Action)
    requires Inv(s, limits) && Enabled(s, a) && Told(s, actions)
    ensures Told(Step(s, limits, a), actions + [a])
  {
    hide Inv, LeasesTold, ClockTold, WaitersTold, Step, Enabled;
    StepLeasesTold(s, limits, actions, a);
    StepClockTold(s, limits, actions, a);
  }

  lemma {:induction false} RunTold(limits: Limits, actions: seq<Action>)
    requires Run(limits, actions).Some?
    ensures Told(Run(limits, actions).value, actions)
  {
    hide Inv, Told, Step, Enabled;
    if actions == [] {
      StartTold();
    } else {
      var n := |actions| - 1;
      var before := actions[..n];
      RunTold(limits, before);
      RunKeepsInv(limits, before);
      StepTold(Run(limits, before).value, limits, before, actions[n]);
      assert before + [actions[n]] == actions;
    }
  }

  lemma LeaseMeansExecuting(s: System, limits: Limits, actions: seq<Action>, k: EntryKey)
    requires Inv(s, limits) && LeasesTold(s, actions)
    ensures k in s.leases <==> Executing(s.log, k)
  {
    hide Inv, Ended;
    if k in s.leases {
      LeaseIsLogged(s, limits, k);
    }
  }

  lemma StoreIsTimely(s: System, actions: seq<Action>, now: nat)
    requires ClockTold(s, actions)
    ensures s.clock <= now <==> forall b :: b in actions && b.Store? ==> b.now <= now
  {
    if s.clock != 0 {
      var b :| b in actions && b.Store? && b.now == s.clock;
    }
  }

  /** The history tells what is enabled. */
  lemma EnabledIsPossible(s: System, limits: Limits, actions: seq<Action>, a: Action)
    requires Inv(s, limits) && LeasesTold(s, actions) && ClockTold(s, actions) && WaitersTold(s)
    ensures Enabled(s, a) <==> Possible(s.log, actions, a)
  {
    hide Inv, ClockTold, Ended, Executing, HasJoined, Prepared;
    if !a.Arrive? && !a.Disconnect? {
      LeaseMeansExecuting(s, limits, actions, a.key);
    }
    if a.Store? {
      StoreIsTimely(s, actions, a.now);
    }
  }

  lemma RunOneMore(limits: Limits, actions: seq<Action>, a: Action)
    requires Run(limits, actions).Some?
    ensures Run(limits, actions + [a]).Some? <==> Enabled(Run(limits, actions).value, a)
  {
    hide Enabled, Step;
    assert (actions + [a])[..|actions|] == actions;
  }

  /** A run can go on with exactly the actions that its history allows. */
  lemma RunsGoOn(limits: Limits, actions: seq<Action>, a: Action)
    requires Run(limits, actions).Some?
    ensures Run(limits, actions + [a]).Some? <==> Possible(Run(limits, actions).value.log, actions, a)
  {
    hide Run, Inv, Enabled, Possible, LeasesTold, ClockTold, WaitersTold;
    RunOneMore(limits, actions, a);
    RunTold(limits, actions);
    RunKeepsInv(limits, actions);
    EnabledIsPossible(Run(limits, actions).value, limits, actions, a);
  }

  // --------------------------------------------------------------------------- coming to rest

  /** After `more`, which only ends executions, nothing executes and every duplicate that is
      still connected has been answered. */
  ghost predicate Rests(limits: Limits, actions: seq<Action>, more: seq<Action>) {
    && (forall a :: a in more ==> a.Store? || a.Abandon?)
    && Run(limits, actions + more).Some?
    && var s := Run(limits, actions + more).value;
       && (forall k :: !Executing(s.log, k))
       && (forall k, w: WaiterId :: Joined(k, w) in s.log && w !in s.closed ==> Delivered(s.log, k, w))
  }

  lemma NoLeaseNoWaiter(s: System, limits: Limits, k: EntryKey, w: WaiterId)
    requires Inv(s, limits) && s.leases == map[] && Joined(k, w) in s.log && w !in s.closed
    ensures Delivered(s.log, k, w)
  {
    hide WellFormed, LogOk, GrantsLive, LatestLive, EntriesLogged, WaitersLogged, ClockOk, Delivered;
    assert LeasesOk(s, limits) && NoneLost(s);
    assert k !in InFlightKeys(s.cache.entries);
  }

  lemma RestsAtOnce(limits: Limits, actions: seq<Action>)
    requires Run(limits, actions).Some? && Run(limits, actions).value.leases == map[]
    ensures Rests(limits, actions, [])
  {
    var s := Run(limits, actions).value;
    assert actions + [] == actions;
    RunTold(limits, actions);
    RunKeepsInv(limits, actions);
    hide Run, Inv, Executing, Delivered, LeasesTold, ClockTold, WaitersTold;
    forall k
      ensures !Executing(s.log, k)
    {
      LeaseMeansExecuting(s, limits, actions, k);
    }
    forall k, w: WaiterId | Joined(k, w) in s.log && w !in s.closed
      ensures Delivered(s.log, k, w)
    {
      NoLeaseNoWaiter(s, limits, k, w);
    }
  }

  /** Some lease can be ended now. */
  lemma EndOne(limits: Limits, actions: seq<Action>) returns (a: Action)
    requires Run(limits, actions).Some? && Run(limits, actions).value.leases != map[]
    ensures a.Store? || a.Abandon?
    ensures Run(limits, actions + [a]).Some?
    ensures |Run(limits, actions + [a]).value.leases| < |Run(limits, actions).value.leases|
  {
    var s := Run(limits, actions).value;
    assert s.leases.Keys != {};
    var k :| k in s.leases;
    a := if s.leases[k].Working? then Abandon(k) else Store(k, s.clock);
    assert (actions + [a])[..|actions|] == actions;
    hide Complete, Cancel, Keep, Retains, Squeezed;
    var s' := Step(s, limits, a);
    assert s'.leases == s.leases - {k};
    assert s'.leases.Keys == s.leases.Keys - {k};
    assert |s'.leases| == |s'.leases.Keys| && |s.leases| == |s.leases.Keys|;
  }

  /** Every run can be brought to rest. */
  lemma {:induction false} EveryRunCanRest(limits: Limits, actions: seq<Action>)
    requires Run(limits, actions).Some?
    ensures exists more :: Rests(limits, actions, more)
    decreases |Run(limits, actions).value.leases|
  {
    hide Run;
    if Run(limits, actions).value.leases == map[] {
      RestsAtOnce(limits, actions);
    } else {
      var a := EndOne(limits, actions);
      EveryRunCanRest(limits, actions + [a]);
      var more :| Rests(limits, actions + [a], more);
      assert actions + [a] + more == actions + ([a] + more);
      assert Rests(limits, actions, [a] + more);
    }
  }
}
