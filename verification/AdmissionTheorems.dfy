/** Admission never locks up: requests wait only for requests that are further along, so
    some request can always move, and with no new arrivals every schedule empties the
    server and returns every byte and permit. */
module AdmissionTheorems {
  import opened Sequences
  import opened AdmissionModel
  import opened AdmissionSteps
  import Limits

  /** Request `r` waits for `p`: `p` holds what `r` wants, is ahead of it in the same line,
      or is the request that `r` duplicates. */
  ghost predicate WaitsFor(m: map<Rid, Request>, r: Rid, p: Rid) {
    && r in m && p in m
    && ((Wants(m[r]).Some? && Holds(Wants(m[r]).value, m[p]))
        || Ahead(m[p], m[r])
        || m[r].stage == WaitLeader(p))
  }

  /** `p` is further along than `q`. */
  predicate Beyond(p: Request, q: Request) {
    Rank(p.stage) > Rank(q.stage) || (Rank(p.stage) == Rank(q.stage) && p.ticket < q.ticket)
  }

  /** Waiting goes only forward: request bytes, then a queue place, a slot, reply bytes, the
      leader's reply, an execution permit, an outgoing place, the writer. */
  lemma WaitsOnlyForward(b: Budgets, s: State, r: Rid, p: Rid)
    requires Inv(b, s) && WaitsFor(s.requests, r, p)
    ensures Beyond(s.requests[p], s.requests[r])
  {
    hide Conserved, Bounded, Ticketed, Count;
    if s.requests[r].stage.WaitLeader? {
      assert Leads(s.requests, s.requests[r].stage.leader);
    }
  }

  ghost predicate IsFurthest(m: map<Rid, Request>, group: set<Rid>, r: Rid) {
    && r in group && r in m
    && forall x :: x in group && x in m ==> !Beyond(m[x], m[r])
  }

  /** Among finitely many requests one is furthest along. */
  lemma {:induction false} SomeFurthest(m: map<Rid, Request>, group: set<Rid>)
    requires group != {} && forall x :: x in group ==> x in m
    ensures exists r :: IsFurthest(m, group, r)
    decreases |group|
  {
    var r :| r in group;
    if group == {r} {
      assert IsFurthest(m, group, r);
    } else {
      SomeFurthest(m, group - {r});
      var best :| IsFurthest(m, group - {r}, best);
      forall x | x in group && x != r
        ensures !Beyond(m[x], m[best])
      {
        assert x in group - {r};
      }
      assert IsFurthest(m, group, if Beyond(m[r], m[best]) then r else best);
    }
  }

  /** `r` waits for no member of the group. */
  ghost predicate FreeIn(m: map<Rid, Request>, group: set<Rid>, r: Rid) {
    forall p :: p in group ==> !WaitsFor(m, r, p)
  }

  /** No set of requests waits on one another: in every group some request waits for no
      member of the group. */
  lemma NoCircularWait(b: Budgets, s: State, group: set<Rid>)
    requires Inv(b, s) && group != {} && forall x :: x in group ==> x in s.requests
    ensures exists r :: r in group && FreeIn(s.requests, group, r)
  {
    hide Inv, WaitsFor, Beyond;
    SomeFurthest(s.requests, group);
    var r :| IsFurthest(s.requests, group, r);
    forall p | p in group
      ensures !WaitsFor(s.requests, r, p)
    {
      if WaitsFor(s.requests, r, p) {
        WaitsOnlyForward(b, s, r, p);
      }
    }
    assert FreeIn(s.requests, group, r);
  }

  // ------------------------------------------------------------------------------- order

  /** Two requests wait in the same line: for request bytes, reply bytes or a permit, or in the
      same connection's queue or outgoing queue. */
  predicate SameLine(p: Request, q: Request) {
    || (p.stage.WaitRequest? && q.stage.WaitRequest?)
    || (p.stage.WaitReply? && q.stage.WaitReply?)
    || (p.stage.WaitPermit? && q.stage.WaitPermit?)
    || (p.connection == q.connection && p.stage.Queued? && q.stage.Queued?)
    || (p.connection == q.connection && p.stage.Outbound? && q.stage.Outbound?)
  }

  /** First come, first served: while `p` is in front of `q` in a line, no step serves `q`; it
      can only be given up. Steps of others leave both where they are. */
  lemma NoOvertaking(b: Budgets, s: State, a: Action, p: Rid, q: Rid)
    requires Enabled(b, s, a) && p in s.requests && q in s.requests
    requires SameLine(s.requests[p], s.requests[q]) && s.requests[p].ticket < s.requests[q].ticket
    ensures a.r == q ==> a.Drop? || a.TimeOut?
    ensures var m, n := s.requests, Apply(b, s, a).requests;
            && (a.r != q ==> q in n && n[q] == m[q])
            && (a.r != p ==> p in n && n[p] == m[p])
  {
    hide Count, Followers;
    if a.r == q {
      assert Ahead(s.requests[p], s.requests[q]);
      assert !First(s.requests, q);
    }
  }

  /** A line has an order: of two requests in it, one is in front. */
  lemma LineIsOrdered(b: Budgets, s: State, p: Rid, q: Rid)
    requires Inv(b, s) && p in s.requests && q in s.requests && p != q
    ensures s.requests[p].ticket < s.requests[q].ticket || s.requests[q].ticket < s.requests[p].ticket
  {
    hide Conserved, Bounded, Led;
    assert s.requests[p].ticket != s.requests[q].ticket;
  }

  /** Who joins a line stands behind everybody in it. */
  lemma NewcomersStandBehind(b: Budgets, s: State, a: Action, p: Rid)
    requires Inv(b, s) && Enabled(b, s, a) && p in s.requests && p != a.r
    ensures var m, n := s.requests, Apply(b, s, a).requests;
            a.r in n && SameLine(m[p], n[a.r]) && (a.r in m ==> !SameLine(m[p], m[a.r])) ==>
              m[p].ticket < n[a.r].ticket
  {
    hide Conserved, Bounded, Led, Count, First, Followers, Settle, Holds;
    assert s.requests[p].ticket < s.clock;
  }

  // ---------------------------------------------------------------------------- progress

  /** Steps that serve a request; the others bring one in or give up on one. */
  predicate Advances(a: Action) {
    !a.Arrive? && !a.TimeOut? && !a.Drop?
  }

  /** The step that takes a request on. */
  function NextStep(q: Request, r: Rid): Action {
    match q.stage
    case WaitRequest => GrantRequest(r)
    case Reading => Receive(r)
    case Sending => Enqueue(r)
    case Queued => Take(r)
    case WaitReply => GrantReply(r)
    case Dispatching => Lead(r)
    case WaitLeader(_) => Finish(r)
    case WaitPermit => GrantPermit(r)
    case Executing(_) => Finish(r)
    case Answering => Send(r)
    case Outbound => Pick(r)
    case Writing => Written(r)
  }

  /** A resource that nobody in the way holds is free. */
  lemma NobodyHolds(m: map<Rid, Request>, r: Rid, k: Resource)
    requires r in m && Wants(m[r]) == Some(k) && forall p :: !WaitsFor(m, r, p)
    ensures Count(m, k) == 0
  {
    hide Holds, Wants;
    forall p
      ensures p !in Holders(m, k)
    {
      assert !WaitsFor(m, r, p);
    }
    assert Holders(m, k) == {};
  }

  lemma DuplicateWaits(b: Budgets, s: State, r: Rid)
    requires Inv(b, s) && r in s.requests && s.requests[r].stage.WaitLeader?
    ensures exists p :: WaitsFor(s.requests, r, p)
  {
    assert Leads(s.requests, s.requests[r].stage.leader);
    assert WaitsFor(s.requests, r, s.requests[r].stage.leader);
  }

  /** A request that waits for no other can take its next step: with nobody holding what it
      wants, the whole budget is there, and the budgets each hold one record. */
  lemma UnblockedAdvances(b: Budgets, s: State, r: Rid)
    requires Adequate(b) && Inv(b, s) && r in s.requests
    requires forall p :: !WaitsFor(s.requests, r, p)
    ensures Enabled(b, s, NextStep(s.requests[r], r))
  {
    hide Count, Holds;
    var m, q := s.requests, s.requests[r];
    if q.stage.WaitLeader? {
      DuplicateWaits(b, s, r);
    }
    forall p | p in m
      ensures !Ahead(m[p], m[r])
    {
      assert !WaitsFor(m, r, p);
    }
    if Wants(q).Some? {
      NobodyHolds(m, r, Wants(q).value);
    }
  }

  /** As long as any request is in the server, some request can move on, without cancelling
      anything. */
  lemma NeverStuck(b: Budgets, s: State)
    requires Adequate(b) && Inv(b, s) && s.requests != map[]
    ensures exists a :: Advances(a) && Enabled(b, s, a)
  {
    hide Inv, WaitsFor, Enabled;
    SomeKey(s.requests);
    NoCircularWait(b, s, s.requests.Keys);
    var r :| r in s.requests.Keys && FreeIn(s.requests, s.requests.Keys, r);
    forall p
      ensures !WaitsFor(s.requests, r, p)
    {
      if p !in s.requests {
        WaitsForLive(s.requests, r, p);
      }
    }
    UnblockedAdvances(b, s, r);
    assert Advances(NextStep(s.requests[r], r));
  }

  lemma SomeKey(m: map<Rid, Request>)
    ensures m.Keys == {} ==> m == map[]
  {
  }

  lemma WaitsForLive(m: map<Rid, Request>, r: Rid, p: Rid)
    requires p !in m
    ensures !WaitsFor(m, r, p)
  {
  }

  // ---------------------------------------------------------------------------- draining

  /** How far all requests together still have to go: each counts once for every rank it
      has not passed. */
  function Remaining(m: map<Rid, Request>, rank: nat): nat {
    Count(m, Progress(rank)) + if rank == 0 then 0 else Remaining(m, rank - 1)
  }

  const LAST_RANK: nat := 12

  /** Fewer or equally many at every rank, and fewer at one. */
  lemma {:induction false} RemainingDrops(m: map<Rid, Request>, n: map<Rid, Request>, rank: nat, drop: int)
    requires forall j :: 0 <= j <= rank ==> Count(n, Progress(j)) <= Count(m, Progress(j))
    ensures Remaining(n, rank) <= Remaining(m, rank)
    ensures 0 <= drop <= rank && Count(n, Progress(drop)) < Count(m, Progress(drop)) ==>
              Remaining(n, rank) < Remaining(m, rank)
  {
    hide Count;
    if rank == 0 {
    } else {
      RemainingDrops(m, n, rank - 1, drop);
    }
  }

  lemma MoveLowers(m: map<Rid, Request>, r: Rid, q: Request)
    requires r in m && Rank(m[r].stage) < Rank(q.stage)
    ensures Remaining(m[r := q], LAST_RANK) < Remaining(m, LAST_RANK)
  {
    hide Count, Remaining, Rank;
    forall j
      ensures Count(m[r := q], Progress(j)) <= Count(m, Progress(j))
    {
      MoveCount(m, r, q, Progress(j));
    }
    MoveCount(m, r, q, Progress(Rank(m[r].stage)));
    RankBounds(m[r].stage);
    RemainingDrops(m, m[r := q], LAST_RANK, Rank(m[r].stage));
  }

  lemma RankBounds(g: Stage)
    ensures 0 <= Rank(g) <= LAST_RANK
  {
  }

  lemma RemoveLowers(m: map<Rid, Request>, r: Rid)
    requires r in m
    ensures Remaining(m - {r}, LAST_RANK) < Remaining(m, LAST_RANK)
  {
    hide Count, Remaining, Rank;
    forall j
      ensures Count(m - {r}, Progress(j)) <= Count(m, Progress(j))
    {
      RemoveCount(m, r, Progress(j));
    }
    RemoveCount(m, r, Progress(Rank(m[r].stage)));
    RankBounds(m[r].stage);
    RemainingDrops(m, m - {r}, LAST_RANK, Rank(m[r].stage));
  }

  lemma SettleLowers(m: map<Rid, Request>, leader: Rid)
    ensures Remaining(Settle(m, leader), LAST_RANK) <= Remaining(m, LAST_RANK)
  {
    hide Count, Remaining, Settle;
    forall j
      ensures Count(Settle(m, leader), Progress(j)) <= Count(m, Progress(j))
    {
      SettleCount(m, leader, Progress(j));
    }
    RemainingDrops(m, Settle(m, leader), LAST_RANK, 0);
  }

  /** Every step except an arrival leaves less to do. */
  lemma StepLowers(b: Budgets, s: State, a: Action)
    requires Inv(b, s) && Enabled(b, s, a) && !a.Arrive?
    ensures Remaining(Apply(b, s, a).requests, LAST_RANK) < Remaining(s.requests, LAST_RANK)
  {
    hide Count, Remaining, First, Settle, Followers, Inv;
    var m, t := s.requests, Apply(b, s, a);
    match a
    case Arrive(_, _) =>
    case Finish(r) =>
      SettleLowers(m, r);
      SettleKeepsLeader(b, s, r);
      if m[r].stage == Executing(true) {
        MoveLowers(Settle(m, r), r, t.requests[r]);
      } else {
        RemoveLowers(Settle(m, r), r);
      }
    case TimeOut(r) =>
      SettleLowers(m, r);
      SettleKeepsLeader(b, s, r);
      MoveLowers(Settle(m, r), r, t.requests[r]);
    case Drop(r) => DropLowers(b, s, r);
    case Written(r) => RemoveLowers(m, r);
    case _ => MoveLowers(m, a.r, t.requests[a.r]);
  }

  lemma DropLowers(b: Budgets, s: State, r: Rid)
    requires Inv(b, s) && r in s.requests && s.requests[r].stage != Executing(false)
    ensures Remaining(DropStep(b, s, r).requests, LAST_RANK) < Remaining(s.requests, LAST_RANK)
  {
    hide Count, Remaining, Settle, Followers, Inv;
    var m := s.requests;
    if m[r].stage.Executing? {
      MoveLowers(m, r, DropStep(b, s, r).requests[r]);
    } else if m[r].stage.WaitPermit? {
      SettleLowers(m, r);
      SettleKeepsLeader(b, s, r);
      RemoveLowers(Settle(m, r), r);
    } else {
      RemoveLowers(m, r);
    }
  }

  /** A request does not wait for itself, so ending its own lease leaves it where it is. */
  lemma SettleKeepsLeader(b: Budgets, s: State, r: Rid)
    requires Inv(b, s) && r in s.requests
    ensures r in Settle(s.requests, r) && Settle(s.requests, r)[r] == s.requests[r]
  {
    hide Conserved, Bounded, Ticketed, Led;
    NotOwnLeader(s.requests, r);
  }

  /** Once requests stop arriving, every schedule is finite, whatever times out or
      disconnects, and one that runs until no request can be served any further leaves the
      server empty with every byte and every permit returned. */
  lemma {:induction false} EveryScheduleDrains(b: Budgets, s: State, actions: seq<Action>, t: State)
    requires Adequate(b) && Inv(b, s) && Runs(b, s, actions, t)
    requires forall i :: 0 <= i < |actions| ==> !actions[i].Arrive?
    ensures |actions| <= Remaining(s.requests, LAST_RANK)
    ensures (forall a :: Advances(a) ==> !Enabled(b, t, a)) ==>
              t == State(map[], b.requestBytes, b.replyBytes, b.permits, t.clock)
    decreases |actions|
  {
    hide Inv, Enabled, Apply, Remaining, Advances;
    if actions == [] {
      if s.requests != map[] {
        NeverStuck(b, s);
      } else {
        EmptyIsFull(b, s);
      }
    } else {
      var next := Apply(b, s, actions[0]);
      StepKeepsInv(b, s, actions[0]);
      StepLowers(b, s, actions[0]);
      EveryScheduleDrains(b, next, actions[1..], t);
    }
  }

  lemma EmptyIsFull(b: Budgets, s: State)
    requires Inv(b, s) && s.requests == map[]
    ensures s == State(map[], b.requestBytes, b.replyBytes, b.permits, s.clock)
  {
    var none: map<Rid, Request> := map[];
    assert Holders(none, RequestBytes) == {} && Holders(none, ReplyBytes) == {} && Holders(none, Permit) == {};
  }

  /** The server runs empty by steps that serve requests, with everything returned. */
  ghost predicate Serves(b: Budgets, s: State, actions: seq<Action>, t: State) {
    && Runs(b, s, actions, t)
    && (forall i :: 0 <= i < |actions| ==> Advances(actions[i]))
    && t == State(map[], b.requestBytes, b.replyBytes, b.permits, t.clock)
  }

  lemma {:induction false} SomeScheduleServes(b: Budgets, s: State)
    requires Adequate(b) && Inv(b, s)
    ensures exists actions, t :: Serves(b, s, actions, t)
    decreases Remaining(s.requests, LAST_RANK)
  {
    hide Inv, Enabled, Apply, Remaining, Advances;
    if s.requests == map[] {
      EmptyIsFull(b, s);
      assert Serves(b, s, [], s);
    } else {
      NeverStuck(b, s);
      var a :| Advances(a) && Enabled(b, s, a);
      assert !a.Arrive? by {
        NoArrival(a);
      }
      StepKeepsInv(b, s, a);
      StepLowers(b, s, a);
      SomeScheduleServes(b, Apply(b, s, a));
      var actions, t :| Serves(b, Apply(b, s, a), actions, t);
      assert ([a] + actions)[1..] == actions;
      assert Serves(b, s, [a] + actions, t);
    }
  }

  lemma NoArrival(a: Action)
    requires Advances(a)
    ensures !a.Arrive?
  {
  }

  /** A new request can always arrive, and then it and all others can be served to the end,
      without a cancellation or a timeout. */
  lemma NewcomerCanBeServed(b: Budgets, s: State, r: Rid, c: Connection)
    requires Adequate(b) && Inv(b, s) && r !in s.requests
    ensures Enabled(b, s, Arrive(r, c)) && r in Apply(b, s, Arrive(r, c)).requests
    ensures exists actions, t :: Serves(b, Apply(b, s, Arrive(r, c)), actions, t)
  {
    hide Inv;
    StepKeepsInv(b, s, Arrive(r, c));
    SomeScheduleServes(b, Apply(b, s, Arrive(r, c)));
  }

  /** A request can be dropped at any point, and time out while it waits for a permit or for
      another's execution. An execution goes on without its connection; otherwise the request
      goes, or is answered with the timeout. Whoever waited for its execution is answered, and
      nobody else is touched. */
  lemma GivingUp(b: Budgets, s: State, r: Rid, p: Rid)
    requires Inv(b, s) && r in s.requests
    ensures var m, stage := s.requests, s.requests[r].stage;
            && (stage.Executing? && stage.attached ==>
                  && Enabled(b, s, Drop(r))
                  && Apply(b, s, Drop(r)).requests == m[r := m[r].(stage := Executing(false))])
            && (!stage.Executing? ==>
                  && Enabled(b, s, Drop(r))
                  && var t := Apply(b, s, Drop(r)).requests;
                     && r !in t
                     && (p != r ==> (p in t <==> p in m))
                     && (p in t ==> t[p] == if m[p].stage == WaitLeader(r) then m[p].(stage := Answering) else m[p]))
            && (stage.WaitPermit? || stage.WaitLeader? ==>
                  && Enabled(b, s, TimeOut(r))
                  && var t := Apply(b, s, TimeOut(r)).requests;
                     && t.Keys == m.Keys
                     && t[r] == m[r].(stage := Answering)
                     && (p in m && p != r ==>
                           t[p] == if m[p].stage == WaitLeader(r) then m[p].(stage := Answering) else m[p]))
  {
    hide Conserved, Bounded, Ticketed, Followers;
    NotOwnLeader(s.requests, r);
    assert p in s.requests && s.requests[p].stage == WaitLeader(r) ==> Leads(s.requests, r);
  }

  /** The budgets a configuration sets up. */
  function BudgetsOf(l: Limits.ServerLimits): Budgets {
    Budgets(l.maxRpcRecordSize, l.maxBufferedRequestBytes, l.maxBufferedReplyBytes, l.maxInflightRequests,
            l.maxRequestsPerConnection)
  }

  /** A request is charged for its record from the moment its bytes are granted until it is
      answered, and for its reply from the dispatcher on until that is written; it holds a
      permit while it executes. */
  predicate ChargedForRecord(q: Request) {
    !q.stage.WaitRequest? && !q.stage.Answering? && !q.stage.Outbound? && !q.stage.Writing?
  }

  predicate ChargedForReply(q: Request) {
    || q.stage.Dispatching? || q.stage.WaitLeader? || q.stage.WaitPermit? || q.stage.Executing?
    || q.stage.Answering? || q.stage.Outbound? || q.stage.Writing?
  }

  /** A task of its connection works on it. */
  predicate OccupiesSlot(q: Request) {
    || q.stage.WaitReply? || q.stage.Dispatching? || q.stage.WaitLeader? || q.stage.WaitPermit?
    || q.stage == Executing(true) || q.stage.Answering?
  }

  lemma ChargesInStages(m: map<Rid, Request>, c: Connection)
    ensures Count(m, RequestBytes) == |set r | r in m && ChargedForRecord(m[r])|
    ensures Count(m, ReplyBytes) == |set r | r in m && ChargedForReply(m[r])|
    ensures Count(m, Permit) == |set r | r in m && m[r].stage.Executing?|
    ensures Count(m, Place(c)) == |set r | r in m && m[r].connection == c && m[r].stage.Queued?|
    ensures Count(m, Slot(c)) == |set r | r in m && m[r].connection == c && OccupiesSlot(m[r])|
    ensures Count(m, Outgoing(c)) == |set r | r in m && m[r].connection == c && m[r].stage.Outbound?|
    ensures Count(m, Writer(c)) == |set r | r in m && m[r].connection == c && m[r].stage.Writing?|
  {
    assert Holders(m, RequestBytes) == set r | r in m && ChargedForRecord(m[r]);
    assert Holders(m, ReplyBytes) == set r | r in m && ChargedForReply(m[r]);
    assert Holders(m, Permit) == set r | r in m && m[r].stage.Executing?;
    assert Holders(m, Place(c)) == set r | r in m && m[r].connection == c && m[r].stage.Queued?;
    assert Holders(m, Slot(c)) == set r | r in m && m[r].connection == c && OccupiesSlot(m[r]);
    assert Holders(m, Outgoing(c)) == set r | r in m && m[r].connection == c && m[r].stage.Outbound?;
    assert Holders(m, Writer(c)) == set r | r in m && m[r].connection == c && m[r].stage.Writing?;
  }

  /** In every state that any run of the server can reach, however requests are interleaved,
      timed out or disconnected: free bytes and charged records add up to the configured
      budgets, free and used permits to the configured number, a connection's tasks and
      queues stay within its limit, no group of requests waits on one another, and some
      request can move on unless the server is empty. */
  lemma EveryReachableState(l: Limits.ServerLimits, actions: seq<Action>, s: State, c: Connection)
    requires Limits.Validate(l).None?
    requires Runs(BudgetsOf(l), State(map[], l.maxBufferedRequestBytes, l.maxBufferedReplyBytes, l.maxInflightRequests, 0),
                  actions, s)
    ensures s.freeRequest + l.maxRpcRecordSize * |set r | r in s.requests && ChargedForRecord(s.requests[r])|
            == l.maxBufferedRequestBytes
    ensures s.freeReply + l.maxRpcRecordSize * |set r | r in s.requests && ChargedForReply(s.requests[r])|
            == l.maxBufferedReplyBytes
    ensures s.freePermits + |set r | r in s.requests && s.requests[r].stage.Executing?| == l.maxInflightRequests
    ensures 0 <= s.freeRequest && 0 <= s.freeReply && 0 <= s.freePermits
    ensures var m, most := s.requests, l.maxRequestsPerConnection;
            && |set r | r in m && m[r].connection == c && m[r].stage.Queued?| <= most
            && |set r | r in m && m[r].connection == c && OccupiesSlot(m[r])| <= most
            && |set r | r in m && m[r].connection == c && m[r].stage.Outbound?| <= most
            && |set r | r in m && m[r].connection == c && m[r].stage.Writing?| <= 1
    ensures forall group: set<Rid> :: group != {} && group <= s.requests.Keys ==>
              exists r :: r in group && FreeIn(s.requests, group, r)
    ensures s.requests != map[] ==> exists a :: Advances(a) && Enabled(BudgetsOf(l), s, a)
  {
    var b := BudgetsOf(l);
    assert Adequate(b) by {
      hide Limits.Carries, Runs;
      Limits.ValidateIsAdequacy(l);
    }
    hide Limits.Validate, Runs, Enabled, FreeIn, Ticketed, Led, Count;
    IdleIsInv(b);
    RunKeepsInv(b, Idle(b), actions, s);
    ChargesInStages(s.requests, c);
    assert Bounded(b, s.requests);
    forall group: set<Rid> | group != {} && group <= s.requests.Keys
      ensures exists r :: r in group && FreeIn(s.requests, group, r)
    {
      NoCircularWait(b, s, group);
    }
    if s.requests != map[] {
      NeverStuck(b, s);
    }
  }
}
