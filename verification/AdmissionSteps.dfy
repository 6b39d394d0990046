/** Every admission step keeps the invariant. */
module AdmissionSteps {
  import opened Sequences
  import opened AdmissionModel

  // ---------------------------------------------------------------------------- counting

  function One(p: bool): int {
    if p then 1 else 0
  }

  lemma MoveCount(m: map<Rid, Request>, r: Rid, q: Request, k: Resource)
    requires r in m
    ensures Count(m[r := q], k) == Count(m, k) - One(Holds(k, m[r])) + One(Holds(k, q))
  {
    hide Holds;
    var before, after := Holders(m, k), Holders(m[r := q], k);
    OthersKeepHolding(m, r, q, k);
    RemoveOne(before, r);
    RemoveOne(after, r);
  }

  lemma OthersKeepHolding(m: map<Rid, Request>, r: Rid, q: Request, k: Resource)
    requires r in m
    ensures Holders(m, k) - {r} == Holders(m[r := q], k) - {r}
  {
    hide Holds;
    forall x
      ensures x in Holders(m, k) - {r} <==> x in Holders(m[r := q], k) - {r}
    {
      if x != r {
        assert x in m <==> x in m[r := q];
        assert x in m ==> m[r := q][x] == m[x];
      }
    }
  }

  lemma RemoveOne(s: set<Rid>, r: Rid)
    ensures |s| == |s - {r}| + One(r in s)
  {
    if r !in s {
      assert s - {r} == s;
    }
  }

  lemma AddCount(m: map<Rid, Request>, r: Rid, q: Request, k: Resource)
    requires r !in m
    ensures Count(m[r := q], k) == Count(m, k) + One(Holds(k, q))
  {
    hide Holds;
    var before, after := Holders(m, k), Holders(m[r := q], k);
    assert before == after - {r};
    RemoveOne(after, r);
  }

  lemma RemoveCount(m: map<Rid, Request>, r: Rid, k: Resource)
    requires r in m
    ensures Count(m - {r}, k) == Count(m, k) - One(Holds(k, m[r]))
  {
    hide Holds;
    var before, after := Holders(m, k), Holders(m - {r}, k);
    assert after == before - {r};
    RemoveOne(before, r);
  }

  /** Settling takes the request bytes from the duplicates it answers and nothing else. */
  lemma SettleCount(m: map<Rid, Request>, leader: Rid, k: Resource)
    ensures k.RequestBytes? ==> Count(Settle(m, leader), k) + |Followers(m, leader)| == Count(m, k)
    ensures !k.RequestBytes? && !k.Progress? ==> Count(Settle(m, leader), k) == Count(m, k)
    ensures k.Progress? ==> Count(Settle(m, leader), k) <= Count(m, k)
  {
    hide Settle, Followers, Holds, Holders;
    SettledHolders(m, leader, k);
    var before, after := Holders(m, k), Holders(Settle(m, leader), k);
    if k.Progress? {
      SubsetSize(after, before);
    }
  }

  lemma SettledHolders(m: map<Rid, Request>, leader: Rid, k: Resource)
    ensures var before, after, followers := Holders(m, k), Holders(Settle(m, leader), k), Followers(m, leader);
            if k.RequestBytes? then after !! followers && before == after + followers
            else if k.Progress? then after <= before
            else after == before
  {
    var before, after, followers := Holders(m, k), Holders(Settle(m, leader), k), Followers(m, leader);
    forall x
      ensures k.RequestBytes? && x in followers ==> x !in after && x in before
      ensures x !in followers || !(k.RequestBytes? || k.Progress?) ==> (x in after <==> x in before)
      ensures k.Progress? && x in after ==> x in before
    {
      if x in m {
        SettledHolds(m, leader, k, x);
      }
    }
  }

  lemma SettledHolds(m: map<Rid, Request>, leader: Rid, k: Resource, x: Rid)
    requires x in m
    ensures x in Settle(m, leader)
    ensures x !in Followers(m, leader) ==> Settle(m, leader)[x] == m[x]
    ensures x in Followers(m, leader) ==>
              var q := Settle(m, leader)[x];
              if k.RequestBytes? then Holds(k, m[x]) && !Holds(k, q)
              else if k.Progress? then Holds(k, q) ==> Holds(k, m[x])
              else Holds(k, q) == Holds(k, m[x])
  {
  }

  // ------------------------------------------------------------------------ conservation

  lemma Times(a: nat, x: int, y: int)
    ensures a * (x + y) == a * x + a * y
  {
  }

  /** One request changes stage and the free amounts change to match. */
  lemma ConservedMove(b: Budgets, s: State, t: State, r: Rid, q: Request)
    requires Conserved(b, s) && r in s.requests && t.requests == s.requests[r := q]
    requires var p := s.requests[r];
             && t.freeRequest == s.freeRequest + b.record * (One(Holds(RequestBytes, p)) - One(Holds(RequestBytes, q)))
             && t.freeReply == s.freeReply + b.record * (One(Holds(ReplyBytes, p)) - One(Holds(ReplyBytes, q)))
             && t.freePermits == s.freePermits + One(Holds(Permit, p)) - One(Holds(Permit, q))
    ensures Conserved(b, t)
  {
    hide Holds, Count, One;
    var p := s.requests[r];
    MoveCount(s.requests, r, q, RequestBytes);
    MoveCount(s.requests, r, q, ReplyBytes);
    MoveCount(s.requests, r, q, Permit);
    Times(b.record, Count(t.requests, RequestBytes), One(Holds(RequestBytes, p)) - One(Holds(RequestBytes, q)));
    Times(b.record, Count(t.requests, ReplyBytes), One(Holds(ReplyBytes, p)) - One(Holds(ReplyBytes, q)));
  }

  lemma ConservedRemove(b: Budgets, s: State, t: State, r: Rid)
    requires Conserved(b, s) && r in s.requests && t.requests == s.requests - {r}
    requires var p := s.requests[r];
             && t.freeRequest == s.freeRequest + b.record * One(Holds(RequestBytes, p))
             && t.freeReply == s.freeReply + b.record * One(Holds(ReplyBytes, p))
             && t.freePermits == s.freePermits + One(Holds(Permit, p))
    ensures Conserved(b, t)
  {
    hide Holds, Count, One;
    var p := s.requests[r];
    RemoveCount(s.requests, r, RequestBytes);
    RemoveCount(s.requests, r, ReplyBytes);
    RemoveCount(s.requests, r, Permit);
    Times(b.record, Count(t.requests, RequestBytes), One(Holds(RequestBytes, p)));
    Times(b.record, Count(t.requests, ReplyBytes), One(Holds(ReplyBytes, p)));
  }

  /** The state in which a lease has ended but its owner has not moved. */
  function Settled(b: Budgets, s: State, leader: Rid): State {
    s.(requests := Settle(s.requests, leader),
       freeRequest := s.freeRequest + b.record * |Followers(s.requests, leader)|)
  }

  lemma ConservedSettle(b: Budgets, s: State, leader: Rid)
    requires Conserved(b, s)
    ensures Conserved(b, Settled(b, s, leader))
  {
    hide Count, Settle, Followers;
    SettleCount(s.requests, leader, RequestBytes);
    SettleCount(s.requests, leader, ReplyBytes);
    SettleCount(s.requests, leader, Permit);
    Times(b.record, Count(Settle(s.requests, leader), RequestBytes), |Followers(s.requests, leader)|);
  }

  // ------------------------------------------------------------- places, tickets, leaders

  /** A move keeps the bounds if each place it takes was free. */
  lemma BoundedMove(b: Budgets, m: map<Rid, Request>, r: Rid, q: Request)
    requires Bounded(b, m) && r in m && q.connection == m[r].connection
    requires var c := q.connection;
             && (Holds(Place(c), q) && !Holds(Place(c), m[r]) ==> Count(m, Place(c)) < b.slots)
             && (Holds(Slot(c), q) && !Holds(Slot(c), m[r]) ==> Count(m, Slot(c)) < b.slots)
             && (Holds(Outgoing(c), q) && !Holds(Outgoing(c), m[r]) ==> Count(m, Outgoing(c)) < b.slots)
             && (Holds(Writer(c), q) && !Holds(Writer(c), m[r]) ==> Count(m, Writer(c)) < 1)
    ensures Bounded(b, m[r := q])
  {
    hide Count, Rank;
    forall c
      ensures Count(m[r := q], Place(c)) <= b.slots
      ensures Count(m[r := q], Slot(c)) <= b.slots
      ensures Count(m[r := q], Outgoing(c)) <= b.slots
      ensures Count(m[r := q], Writer(c)) <= 1
    {
      MoveCount(m, r, q, Place(c));
      MoveCount(m, r, q, Slot(c));
      MoveCount(m, r, q, Outgoing(c));
      MoveCount(m, r, q, Writer(c));
    }
  }

  lemma BoundedRemove(b: Budgets, m: map<Rid, Request>, r: Rid)
    requires Bounded(b, m) && r in m
    ensures Bounded(b, m - {r})
  {
    hide Count, Holds;
    forall c
      ensures Count(m - {r}, Place(c)) <= b.slots
      ensures Count(m - {r}, Slot(c)) <= b.slots
      ensures Count(m - {r}, Outgoing(c)) <= b.slots
      ensures Count(m - {r}, Writer(c)) <= 1
    {
      RemoveCount(m, r, Place(c));
      RemoveCount(m, r, Slot(c));
      RemoveCount(m, r, Outgoing(c));
      RemoveCount(m, r, Writer(c));
    }
  }

  lemma BoundedSettle(b: Budgets, m: map<Rid, Request>, leader: Rid)
    requires Bounded(b, m)
    ensures Bounded(b, Settle(m, leader))
  {
    hide Count, Holds, Settle;
    forall c
      ensures Count(Settle(m, leader), Place(c)) <= b.slots
      ensures Count(Settle(m, leader), Slot(c)) <= b.slots
      ensures Count(Settle(m, leader), Outgoing(c)) <= b.slots
      ensures Count(Settle(m, leader), Writer(c)) <= 1
    {
      SettleCount(m, leader, Place(c));
      SettleCount(m, leader, Slot(c));
      SettleCount(m, leader, Outgoing(c));
      SettleCount(m, leader, Writer(c));
    }
  }

  /** No duplicate waits for `r`. */
  ghost predicate Unfollowed(m: map<Rid, Request>, r: Rid) {
    forall p :: p in m ==> m[p].stage != WaitLeader(r)
  }

  /** The invariant without the free amounts. */
  ghost predicate Shape(b: Budgets, s: State) {
    Bounded(b, s.requests) && Ticketed(s.requests, s.clock) && Led(s.requests)
  }

  lemma ShapeMove(b: Budgets, s: State, t: State, r: Rid, q: Request)
    requires Shape(b, s) && r in s.requests && t.requests == s.requests[r := q]
    requires q.connection == s.requests[r].connection
    requires (q.ticket == s.requests[r].ticket && t.clock == s.clock)
             || (q.ticket == s.clock && t.clock == s.clock + 1)
    requires Leads(s.requests, r) ==> Leads(t.requests, r) || Unfollowed(s.requests, r)
    requires q.stage.WaitLeader? ==> q.stage.leader != r && Leads(s.requests, q.stage.leader)
    requires Bounded(b, t.requests)
    ensures Shape(b, t)
  {
    hide Bounded;
    assert Ticketed(t.requests, t.clock);
    forall p | p in t.requests && t.requests[p].stage.WaitLeader?
      ensures Leads(t.requests, t.requests[p].stage.leader)
    {
      if p != r {
        assert s.requests[p] == t.requests[p];
      }
    }
  }

  lemma ShapeRemove(b: Budgets, s: State, t: State, r: Rid)
    requires Shape(b, s) && r in s.requests && t.requests == s.requests - {r} && t.clock == s.clock
    requires Leads(s.requests, r) ==> Unfollowed(s.requests, r)
    ensures Shape(b, t)
  {
    hide Bounded;
    BoundedRemove(b, s.requests, r);
    forall p | p in t.requests && t.requests[p].stage.WaitLeader?
      ensures Leads(t.requests, t.requests[p].stage.leader)
    {
      assert s.requests[p] == t.requests[p];
    }
  }

  /** A request does not wait for itself. */
  lemma NotOwnLeader(m: map<Rid, Request>, r: Rid)
    requires Led(m) && r in m
    ensures m[r].stage != WaitLeader(r)
  {
  }

  lemma ShapeSettle(b: Budgets, s: State, leader: Rid)
    requires Shape(b, s)
    ensures Shape(b, Settled(b, s, leader)) && Unfollowed(Settled(b, s, leader).requests, leader)
    ensures leader in s.requests ==>
              leader in Settled(b, s, leader).requests
              && Settled(b, s, leader).requests[leader] == s.requests[leader]
  {
    hide Bounded, Followers;
    BoundedSettle(b, s.requests, leader);
    if leader in s.requests {
      NotOwnLeader(s.requests, leader);
    }
    var t := Settled(b, s, leader);
    assert Ticketed(t.requests, t.clock);
    forall p | p in t.requests && t.requests[p].stage.WaitLeader?
      ensures Leads(t.requests, t.requests[p].stage.leader)
    {
      assert s.requests[p] == t.requests[p] && Leads(s.requests, s.requests[p].stage.leader);
    }
  }

  // ------------------------------------------------------------------------------- steps

  ghost predicate Funded(s: State) {
    0 <= s.freeRequest && 0 <= s.freeReply && 0 <= s.freePermits
  }

  /** A request moves on by itself. */
  lemma MoveKeepsInv(b: Budgets, s: State, t: State, r: Rid, q: Request)
    requires Inv(b, s) && Funded(t) && r in s.requests && t.requests == s.requests[r := q]
    requires q.connection == s.requests[r].connection
    requires (q.ticket == s.requests[r].ticket && t.clock == s.clock)
             || (q.ticket == s.clock && t.clock == s.clock + 1)
    requires Leads(s.requests, r) ==> Leads(t.requests, r) || Unfollowed(s.requests, r)
    requires q.stage.WaitLeader? ==> q.stage.leader != r && Leads(s.requests, q.stage.leader)
    requires var p := s.requests[r];
             && t.freeRequest == s.freeRequest + b.record * (One(Holds(RequestBytes, p)) - One(Holds(RequestBytes, q)))
             && t.freeReply == s.freeReply + b.record * (One(Holds(ReplyBytes, p)) - One(Holds(ReplyBytes, q)))
             && t.freePermits == s.freePermits + One(Holds(Permit, p)) - One(Holds(Permit, q))
    requires var m, c := s.requests, q.connection;
             && (Holds(Place(c), q) && !Holds(Place(c), m[r]) ==> Count(m, Place(c)) < b.slots)
             && (Holds(Slot(c), q) && !Holds(Slot(c), m[r]) ==> Count(m, Slot(c)) < b.slots)
             && (Holds(Outgoing(c), q) && !Holds(Outgoing(c), m[r]) ==> Count(m, Outgoing(c)) < b.slots)
             && (Holds(Writer(c), q) && !Holds(Writer(c), m[r]) ==> Count(m, Writer(c)) < 1)
    ensures Inv(b, t)
  {
    hide Holds, Count, One, Bounded, Ticketed, Led, Conserved, Leads, Unfollowed;
    ConservedMove(b, s, t, r, q);
    BoundedMove(b, s.requests, r, q);
    ShapeMove(b, s, t, r, q);
  }

  lemma ArriveKeepsInv(b: Budgets, s: State, a: Action)
    requires Inv(b, s) && a.Arrive? && Enabled(b, s, a)
    ensures Inv(b, Apply(b, s, a))
  {
    hide Count;
    var t := Apply(b, s, a);
    var q := Request(a.connection, WaitRequest, s.clock);
    AddCount(s.requests, a.r, q, RequestBytes);
    AddCount(s.requests, a.r, q, ReplyBytes);
    AddCount(s.requests, a.r, q, Permit);
    forall c
      ensures Count(t.requests, Place(c)) <= b.slots
      ensures Count(t.requests, Slot(c)) <= b.slots
      ensures Count(t.requests, Outgoing(c)) <= b.slots
      ensures Count(t.requests, Writer(c)) <= 1
    {
      AddCount(s.requests, a.r, q, Place(c));
      AddCount(s.requests, a.r, q, Slot(c));
      AddCount(s.requests, a.r, q, Outgoing(c));
      AddCount(s.requests, a.r, q, Writer(c));
    }
    forall p | p in t.requests && t.requests[p].stage.WaitLeader?
      ensures Leads(t.requests, t.requests[p].stage.leader)
    {
      assert s.requests[p] == t.requests[p];
    }
  }

  /** The steps on which one request moves and no other changes. */
  predicate Simple(a: Action) {
    !a.Arrive? && !a.Finish? && !a.TimeOut? && !a.Written? && !a.Drop?
  }

  lemma SimpleKeepsInv(b: Budgets, s: State, a: Action)
    requires Inv(b, s) && Simple(a) && Enabled(b, s, a)
    ensures Inv(b, Apply(b, s, a))
  {
    hide Inv, Enabled, Apply;
    if MovesBudget(a) {
      BudgetStepKeepsInv(b, s, a);
    } else {
      PlainStepKeepsInv(b, s, a);
    }
  }

  /** The simple steps that take from a budget or give back to one. */
  predicate MovesBudget(a: Action) {
    a.GrantRequest? || a.GrantReply? || a.GrantPermit? || a.Answer?
  }

  lemma BudgetStepKeepsInv(b: Budgets, s: State, a: Action)
    requires Inv(b, s) && MovesBudget(a) && Enabled(b, s, a)
    ensures Inv(b, Apply(b, s, a))
  {
    hide Count, First, Bounded, Conserved, Ticketed, Led, Unfollowed;
    var t := Apply(b, s, a);
    MoveKeepsInv(b, s, t, a.r, t.requests[a.r]);
  }

  lemma PlainStepKeepsInv(b: Budgets, s: State, a: Action)
    requires Inv(b, s) && Simple(a) && !MovesBudget(a) && Enabled(b, s, a)
    ensures Inv(b, Apply(b, s, a))
  {
    hide Count, First, Bounded, Conserved, Ticketed, Led, Unfollowed;
    var t := Apply(b, s, a);
    MoveKeepsInv(b, s, t, a.r, t.requests[a.r]);
  }

  lemma WrittenKeepsInv(b: Budgets, s: State, a: Action)
    requires Inv(b, s) && a.Written? && Enabled(b, s, a)
    ensures Inv(b, Apply(b, s, a))
  {
    hide Count, Bounded, Conserved, Ticketed, Led, Unfollowed;
    ConservedRemove(b, s, Apply(b, s, a), a.r);
    ShapeRemove(b, s, Apply(b, s, a), a.r);
  }

  lemma FinishKeepsInv(b: Budgets, s: State, a: Action)
    requires Inv(b, s) && a.Finish? && Enabled(b, s, a)
    ensures Inv(b, Apply(b, s, a))
  {
    hide Count, Bounded, Conserved, Ticketed, Led, Unfollowed, Followers, Settle;
    var mid, t := Settled(b, s, a.r), Apply(b, s, a);
    ConservedSettle(b, s, a.r);
    ShapeSettle(b, s, a.r);
    if s.requests[a.r].stage == Executing(true) {
      MoveKeepsInv(b, mid, t, a.r, t.requests[a.r]);
    } else {
      ConservedRemove(b, mid, t, a.r);
      ShapeRemove(b, mid, t, a.r);
    }
  }

  lemma TimeOutKeepsInv(b: Budgets, s: State, a: Action)
    requires Inv(b, s) && a.TimeOut? && Enabled(b, s, a)
    ensures Inv(b, Apply(b, s, a))
  {
    hide Count, Bounded, Conserved, Ticketed, Led, Unfollowed, Followers, Settle;
    var mid, t := Settled(b, s, a.r), Apply(b, s, a);
    ConservedSettle(b, s, a.r);
    ShapeSettle(b, s, a.r);
    MoveKeepsInv(b, mid, t, a.r, t.requests[a.r]);
  }

  lemma DropKeepsInv(b: Budgets, s: State, a: Action)
    requires Inv(b, s) && a.Drop? && Enabled(b, s, a)
    ensures Inv(b, Apply(b, s, a))
  {
    hide Count, Bounded, Conserved, Ticketed, Led, Unfollowed, Followers, Settle;
    var t, q := Apply(b, s, a), s.requests[a.r];
    if q.stage.Executing? {
      MoveKeepsInv(b, s, t, a.r, t.requests[a.r]);
    } else {
      var mid := if q.stage.WaitPermit? then Settled(b, s, a.r) else s;
      if q.stage.WaitPermit? {
        ConservedSettle(b, s, a.r);
        ShapeSettle(b, s, a.r);
      }
      ConservedRemove(b, mid, t, a.r);
      ShapeRemove(b, mid, t, a.r);
    }
  }

  lemma StepKeepsInv(b: Budgets, s: State, a: Action)
    requires Inv(b, s) && Enabled(b, s, a)
    ensures Inv(b, Apply(b, s, a))
  {
    hide Inv, Enabled, Apply;
    match a
    case Arrive(_, _) => ArriveKeepsInv(b, s, a);
    case Finish(_) => FinishKeepsInv(b, s, a);
    case TimeOut(_) => TimeOutKeepsInv(b, s, a);
    case Written(_) => WrittenKeepsInv(b, s, a);
    case Drop(_) => DropKeepsInv(b, s, a);
    case _ => SimpleKeepsInv(b, s, a);
  }

  lemma IdleIsInv(b: Budgets)
    ensures Inv(b, Idle(b))
  {
    var m := Idle(b).requests;
    assert forall k :: Holders(m, k) == {};
  }

  /** Conservation over every run: at every moment, for any number of connections, free and
      held amounts add up to the configured totals, and nothing is ever overdrawn. */
  lemma {:induction false} RunKeepsInv(b: Budgets, s: State, actions: seq<Action>, t: State)
    requires Inv(b, s) && Runs(b, s, actions, t)
    ensures Inv(b, t)
    decreases |actions|
  {
    hide Inv, Enabled, Apply;
    if actions == [] {
    } else {
      StepKeepsInv(b, s, actions[0]);
      RunKeepsInv(b, Apply(b, s, actions[0]), actions[1..], t);
    }
  }
}
