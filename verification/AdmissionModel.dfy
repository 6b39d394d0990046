/** Admission of requests (src/server/connection.rs, src/rpc/record.rs) as a state machine
    over any number of requests and connections. A request acquires, in this order, request
    bytes, a place in its connection's queue, one of its connection's slots, reply bytes,
    then either the reply of the request it duplicates or an execution permit, then a place in
    its connection's outgoing queue, and at last its connection's writer. */
module AdmissionModel {
  import opened Sequences

  type Rid = nat
  type Connection = nat

  datatype Stage =
    | WaitRequest                 // first fragment header seen, record not yet charged
    | Reading                     // the client is sending the record
    | Sending                     // waiting for a place in the connection's queue
    | Queued                      // waiting for one of the connection's slots
    | WaitReply                   // waiting for reply bytes
    | Dispatching                 // fully charged, about to ask the replay cache
    | WaitLeader(leader: Rid)     // a duplicate, waiting for the request it duplicates
    | WaitPermit                  // owns the replay lease, waiting to execute
    | Executing(attached: bool)   // detached once its connection is gone
    | Answering                   // waiting for a place in the outgoing queue
    | Outbound                    // in the outgoing queue, waiting for the writer
    | Writing                     // taken by the writer

  /** `ticket` orders requests that wait for the same thing. */
  datatype Request = Request(connection: Connection, stage: Stage, ticket: nat)

  /** `record` is the charge of one record; `slots` bounds a connection's tasks and both
      of its queues. */
  datatype Budgets = Budgets(record: nat, requestBytes: nat, replyBytes: nat, permits: nat, slots: nat)

  /** What limit validation guarantees. */
  predicate Adequate(b: Budgets) {
    b.record <= b.requestBytes && b.record <= b.replyBytes && 1 <= b.permits && 1 <= b.slots
  }

  datatype State = State(
    requests: map<Rid, Request>, freeRequest: int, freeReply: int, freePermits: int, clock: nat)

  function Idle(b: Budgets): State {
    State(map[], b.requestBytes, b.replyBytes, b.permits, 0)
  }

  // --------------------------------------------------------------------------- resources

  datatype Resource =
    | RequestBytes
    | ReplyBytes
    | Permit
    | Place(connection: Connection)
    | Slot(connection: Connection)
    | Outgoing(connection: Connection)
    | Writer(connection: Connection)
    | Progress(rank: int)  // not a resource: the requests that have come no further than `rank`

  function Rank(g: Stage): int {
    match g
    case WaitRequest => 0
    case Reading => 1
    case Sending => 2
    case Queued => 3
    case WaitReply => 4
    case Dispatching => 5
    case WaitLeader(_) => 6
    case WaitPermit => 7
    case Executing(attached) => if attached then 8 else 9
    case Answering => 10
    case Outbound => 11
    case Writing => 12
  }

  predicate Holds(k: Resource, q: Request) {
    match k
    case RequestBytes => 1 <= Rank(q.stage) <= 9
    case ReplyBytes => 5 <= Rank(q.stage)
    case Permit => q.stage.Executing?
    case Place(c) => q.connection == c && q.stage.Queued?
    case Slot(c) => q.connection == c && 4 <= Rank(q.stage) <= 10 && q.stage != Executing(false)
    case Outgoing(c) => q.connection == c && q.stage.Outbound?
    case Writer(c) => q.connection == c && q.stage.Writing?
    case Progress(rank) => Rank(q.stage) <= rank
  }

  /** What a waiting request waits for. */
  function Wants(q: Request): Option<Resource> {
    match q.stage
    case WaitRequest => Some(RequestBytes)
    case Sending => Some(Place(q.connection))
    case Queued => Some(Slot(q.connection))
    case WaitReply => Some(ReplyBytes)
    case WaitPermit => Some(Permit)
    case Answering => Some(Outgoing(q.connection))
    case Outbound => Some(Writer(q.connection))
    case _ => None
  }

  function Holders(m: map<Rid, Request>, k: Resource): set<Rid> {
    set r | r in m && Holds(k, m[r])
  }

  function Count(m: map<Rid, Request>, k: Resource): nat {
    |Holders(m, k)|
  }

  /** The budgets serve their waiters in order of arrival; so do a connection's queues. */
  predicate Ordered(q: Request) {
    q.stage.WaitRequest? || q.stage.Queued? || q.stage.WaitReply? || q.stage.WaitPermit? || q.stage.Outbound?
  }

  predicate Ahead(p: Request, q: Request) {
    Ordered(q) && p.stage == q.stage && Wants(p) == Wants(q) && p.ticket < q.ticket
  }

  ghost predicate First(m: map<Rid, Request>, r: Rid)
    requires r in m
  {
    forall p :: p in m ==> !Ahead(m[p], m[r])
  }

  // ------------------------------------------------------------------------------- steps

  datatype Action =
    | Arrive(r: Rid, connection: Connection)
    | GrantRequest(r: Rid)
    | Receive(r: Rid)
    | Enqueue(r: Rid)
    | Take(r: Rid)
    | GrantReply(r: Rid)
    | Answer(r: Rid)
    | Follow(r: Rid, leader: Rid)
    | Lead(r: Rid)
    | GrantPermit(r: Rid)
    | Finish(r: Rid)
    | TimeOut(r: Rid)
    | Send(r: Rid)
    | Pick(r: Rid)
    | Written(r: Rid)
    | Drop(r: Rid)

  /** A lease belongs to a request that waits for a permit or executes. */
  predicate Leads(m: map<Rid, Request>, r: Rid) {
    r in m && (m[r].stage.WaitPermit? || m[r].stage.Executing?)
  }

  ghost predicate Enabled(b: Budgets, s: State, a: Action) {
    var m := s.requests;
    if a.Arrive? then a.r !in m
    else
      && a.r in m
      && var q := m[a.r];
         match a
         case Arrive(_, _) => false
         case GrantRequest(r) => q.stage.WaitRequest? && First(m, r) && b.record <= s.freeRequest
         case Receive(_) => q.stage.Reading?
         case Enqueue(_) => q.stage.Sending? && Count(m, Place(q.connection)) < b.slots
         case Take(r) => q.stage.Queued? && First(m, r) && Count(m, Slot(q.connection)) < b.slots
         case GrantReply(r) => q.stage.WaitReply? && First(m, r) && b.record <= s.freeReply
         case Answer(_) => q.stage.Dispatching?
         case Follow(_, leader) => q.stage.Dispatching? && Leads(m, leader)
         case Lead(_) => q.stage.Dispatching?
         case GrantPermit(r) => q.stage.WaitPermit? && First(m, r) && 1 <= s.freePermits
         case Finish(_) => q.stage.Executing?
         case Send(_) => q.stage.Answering? && Count(m, Outgoing(q.connection)) < b.slots
         case TimeOut(_) => q.stage.WaitLeader? || q.stage.WaitPermit?
         case Pick(r) => q.stage.Outbound? && First(m, r) && Count(m, Writer(q.connection)) < 1
         case Written(_) => q.stage.Writing?
         case Drop(_) => q.stage != Executing(false)
  }

  function Followers(m: map<Rid, Request>, leader: Rid): set<Rid> {
    set r | r in m && m[r].stage == WaitLeader(leader)
  }

  /** The end of a lease answers every request that waits for it. */
  function Settle(m: map<Rid, Request>, leader: Rid): map<Rid, Request> {
    map r | r in m :: if m[r].stage == WaitLeader(leader) then m[r].(stage := Answering) else m[r]
  }

  function Move(m: map<Rid, Request>, r: Rid, stage: Stage, ticket: nat): map<Rid, Request>
    requires r in m
  {
    m[r := Request(m[r].connection, stage, ticket)]
  }

  function Step(s: State, r: Rid, stage: Stage): State
    requires r in s.requests
  {
    s.(requests := Move(s.requests, r, stage, s.requests[r].ticket))
  }

  /** Entering an ordered wait draws a new ticket. */
  function StepTicketed(s: State, r: Rid, stage: Stage): State
    requires r in s.requests
  {
    s.(requests := Move(s.requests, r, stage, s.clock), clock := s.clock + 1)
  }

  /** The execution ends: its permit and request bytes come back, its reply bytes stay with
      the reply unless nobody is left to send it. Duplicates stop holding the bytes of
      their own requests. */
  function FinishStep(b: Budgets, s: State, r: Rid): State
    requires r in s.requests
  {
    var settled := Settle(s.requests, r);
    var answered := |Followers(s.requests, r)|;
    var attached := s.requests[r].stage == Executing(true);
    State(if attached then Move(settled, r, Answering, s.requests[r].ticket) else settled - {r},
          s.freeRequest + b.record + b.record * answered,
          if attached then s.freeReply else s.freeReply + b.record,
          s.freePermits + 1,
          s.clock)
  }

  /** The deadline passes while a duplicate waits for its leader or a lease owner for its
      permit: the request is answered with an error and its own bytes come back. A lease
      that never executed is cancelled, which answers its duplicates too. */
  function TimeOutStep(b: Budgets, s: State, r: Rid): State
    requires r in s.requests
  {
    var settled := Settle(s.requests, r);
    State(Move(settled, r, Answering, s.requests[r].ticket),
          s.freeRequest + b.record + b.record * |Followers(s.requests, r)|,
          s.freeReply,
          s.freePermits,
          s.clock)
  }

  /** Any other deadline, a disconnect or a protocol error. An execution is never abandoned, only
      detached; a lease that never executed is cancelled. */
  function DropStep(b: Budgets, s: State, r: Rid): State
    requires r in s.requests
  {
    var q := s.requests[r];
    if q.stage.Executing? then Step(s, r, Executing(false))
    else
      var answered := if q.stage.WaitPermit? then |Followers(s.requests, r)| else 0;
      var settled := if q.stage.WaitPermit? then Settle(s.requests, r) else s.requests;
      State(settled - {r},
            s.freeRequest + (if Holds(RequestBytes, q) then b.record else 0) + b.record * answered,
            s.freeReply + (if Holds(ReplyBytes, q) then b.record else 0),
            s.freePermits,
            s.clock)
  }

  function Apply(b: Budgets, s: State, a: Action): State
    requires Enabled(b, s, a)
  {
    match a
    case Arrive(r, c) => s.(requests := s.requests[r := Request(c, WaitRequest, s.clock)], clock := s.clock + 1)
    case GrantRequest(r) => Step(s, r, Reading).(freeRequest := s.freeRequest - b.record)
    case Receive(r) => Step(s, r, Sending)
    case Enqueue(r) => StepTicketed(s, r, Queued)
    case Take(r) => StepTicketed(s, r, WaitReply)
    case GrantReply(r) => Step(s, r, Dispatching).(freeReply := s.freeReply - b.record)
    case Answer(r) => Step(s, r, Answering).(freeRequest := s.freeRequest + b.record)
    case Follow(r, leader) => Step(s, r, WaitLeader(leader))
    case Lead(r) => StepTicketed(s, r, WaitPermit)
    case GrantPermit(r) => Step(s, r, Executing(true)).(freePermits := s.freePermits - 1)
    case Finish(r) => FinishStep(b, s, r)
    case TimeOut(r) => TimeOutStep(b, s, r)
    case Send(r) => StepTicketed(s, r, Outbound)
    case Pick(r) => Step(s, r, Writing)
    case Written(r) => s.(requests := s.requests - {r}, freeReply := s.freeReply + b.record)
    case Drop(r) => DropStep(b, s, r)
  }

  /** The state after a run of steps, each enabled when it is taken. */
  ghost predicate Runs(b: Budgets, s: State, actions: seq<Action>, t: State)
    decreases |actions|
  {
    if actions == [] then t == s
    else Enabled(b, s, actions[0]) && Runs(b, Apply(b, s, actions[0]), actions[1..], t)
  }

  // --------------------------------------------------------------------------- invariant

  /** What is free and what is held add up to the whole. */
  ghost predicate Conserved(b: Budgets, s: State) {
    && s.freeRequest + b.record * Count(s.requests, RequestBytes) == b.requestBytes
    && s.freeReply + b.record * Count(s.requests, ReplyBytes) == b.replyBytes
    && s.freePermits + Count(s.requests, Permit) == b.permits
  }

  ghost predicate Bounded(b: Budgets, m: map<Rid, Request>) {
    forall c ::
      && Count(m, Place(c)) <= b.slots
      && Count(m, Slot(c)) <= b.slots
      && Count(m, Outgoing(c)) <= b.slots
      && Count(m, Writer(c)) <= 1
  }

  ghost predicate Ticketed(m: map<Rid, Request>, clock: nat) {
    && (forall r :: r in m ==> m[r].ticket < clock)
    && (forall r, p :: r in m && p in m && r != p ==> m[r].ticket != m[p].ticket)
  }

  /** Every duplicate waits for a request that still owns its lease. */
  ghost predicate Led(m: map<Rid, Request>) {
    forall r :: r in m && m[r].stage.WaitLeader? ==> Leads(m, m[r].stage.leader)
  }

  ghost predicate Inv(b: Budgets, s: State) {
    && 0 <= s.freeRequest && 0 <= s.freeReply && 0 <= s.freePermits
    && Conserved(b, s)
    && Bounded(b, s.requests)
    && Ticketed(s.requests, s.clock)
    && Led(s.requests)
  }
}
