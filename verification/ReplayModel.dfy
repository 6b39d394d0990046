/** The duplicate-request cache as a value: what `begin`, `complete` and `cancel`
    of src/replay/cache.rs do, stated over full scans instead of a lazily
    cleaned queue. `queue` holds exactly the completed entries, oldest first. */
module ReplayModel {
  import opened Sequences
  import opened Replies

  type Fingerprint = seq<byte>
  type WaiterId = nat

  datatype RequestKey = RequestKey(client: seq<byte>, exportId: nat, xid: nat)

  datatype EntryKey = EntryKey(request: RequestKey, fingerprint: Fingerprint, generation: nat)

  datatype Latest = Latest(fingerprint: Fingerprint, generation: nat)

  datatype EntryState =
    | InFlight(waiters: seq<WaiterId>)
    | Completed(reply: Reply, charge: nat, at: nat)

  datatype Limits = Limits(capacity: nat, maxBytes: nat, ttl: nat)

  datatype Cache = Cache(
    entries: map<EntryKey, EntryState>,
    latest: map<RequestKey, Latest>,
    queue: seq<EntryKey>,
    next: nat)

  /** `Execute` carries the lease's key, `Wait` the new waiter and the entry it
      joined, `Replay` the cached reply of the entry it names. */
  datatype Decision =
    | Execute(key: EntryKey)
    | Replay(key: EntryKey, reply: Reply)
    | Wait(key: EntryKey, waiter: WaiterId)
    | Refuse

  const EMPTY := Cache(map[], map[], [], 0)

  function Named(r: RequestKey, l: Latest): EntryKey {
    EntryKey(r, l.fingerprint, l.generation)
  }

  predicate IsLatest(latest: map<RequestKey, Latest>, k: EntryKey) {
    k.request in latest && latest[k.request] == Latest(k.fingerprint, k.generation)
  }

  function CompletedKeys(entries: map<EntryKey, EntryState>): set<EntryKey> {
    set k | k in entries && entries[k].Completed?
  }

  function InFlightKeys(entries: map<EntryKey, EntryState>): set<EntryKey> {
    set k | k in entries && entries[k].InFlight?
  }

  function ChargeOf(entries: map<EntryKey, EntryState>, k: EntryKey): nat {
    if k in entries && entries[k].Completed? then entries[k].charge else 0
  }

  /** The bytes charged for the entries a queue names; tombstones cost nothing. */
  function Charges(queue: seq<EntryKey>, entries: map<EntryKey, EntryState>): nat {
    if queue == [] then 0 else ChargeOf(entries, queue[0]) + Charges(queue[1..], entries)
  }

  /** Age of a completion; the runtime's clock difference saturates at zero. */
  function Age(now: nat, at: nat): nat {
    if at <= now then now - at else 0
  }

  predicate IsExpired(s: EntryState, now: nat, ttl: nat) {
    s.Completed? && Age(now, s.at) >= ttl
  }

  function ExpiredKeys(entries: map<EntryKey, EntryState>, now: nat, ttl: nat): set<EntryKey> {
    set k | k in entries && IsExpired(entries[k], now, ttl)
  }

  // ---------------------------------------------------------------- invariant

  ghost predicate Sorted(queue: seq<EntryKey>, entries: map<EntryKey, EntryState>)
    requires forall k :: k in queue ==> k in entries && entries[k].Completed?
  {
    forall i, j :: 0 <= i < j < |queue| ==> entries[queue[i]].at <= entries[queue[j]].at
  }

  /** The queue lists every completed entry once, in completion order. */
  ghost predicate QueueOk(c: Cache) {
    && (forall k :: k in c.queue <==> k in c.entries && c.entries[k].Completed?)
    && Distinct(c.queue)
    && Sorted(c.queue, c.entries)
  }

  ghost predicate LatestOk(c: Cache) {
    && (forall r :: r in c.latest ==> Named(r, c.latest[r]) in c.entries)
    && (forall k :: k in c.entries && c.entries[k].Completed? ==> IsLatest(c.latest, k))
  }

  ghost predicate GenerationsOk(c: Cache) {
    forall k :: k in c.entries ==> k.generation < c.next
  }

  ghost predicate BoundsOk(c: Cache, limits: Limits) {
    && |c.entries| <= limits.capacity
    && Charges(c.queue, c.entries) <= limits.maxBytes
  }

  ghost predicate WellFormed(c: Cache, limits: Limits) {
    QueueOk(c) && LatestOk(c) && GenerationsOk(c) && BoundsOk(c, limits)
  }

  // --------------------------------------------------------------- operations

  /** The cache without the entries in `dead`, and without the `latest` records
      and queue positions that name them. */
  function Without(c: Cache, dead: set<EntryKey>): Cache {
    Cache(c.entries - dead,
          map r | r in c.latest && Named(r, c.latest[r]) !in dead :: c.latest[r],
          Keep(c.queue, c.entries.Keys - dead),
          c.next)
  }

  function ExpireAll(c: Cache, now: nat, ttl: nat): Cache {
    Without(c, ExpiredKeys(c.entries, now, ttl))
  }

  /** The completed reply that a new request with the same XID displaces. */
  function SupersededBy(c: Cache, r: RequestKey): set<EntryKey> {
    if r in c.latest && Named(r, c.latest[r]) in CompletedKeys(c.entries) then {Named(r, c.latest[r])} else {}
  }

  /** The oldest completed entry, if the cache is full and has one. */
  function Displaced(c: Cache, limits: Limits): set<EntryKey> {
    if |c.entries| >= limits.capacity && c.queue != [] then {c.queue[0]} else {}
  }

  function Grant(c: Cache, r: RequestKey, f: Fingerprint): Cache {
    Cache(c.entries[EntryKey(r, f, c.next) := InFlight([])],
          c.latest[r := Latest(f, c.next)],
          c.queue,
          c.next + 1)
  }

  function Join(c: Cache, k: EntryKey, open: set<WaiterId>, w: WaiterId): Cache
    requires k in c.entries && c.entries[k].InFlight?
  {
    c.(entries := c.entries[k := InFlight(Keep(c.entries[k].waiters, open) + [w])])
  }

  /** Starts a new generation for `r` if a slot can be found. */
  function Admit(c: Cache, limits: Limits, r: RequestKey, f: Fingerprint): (Cache, Decision) {
    var free := Without(c, SupersededBy(c, r));
    if |free.entries| >= limits.capacity && free.queue == [] then (free, Refuse)
    else (Grant(Without(free, Displaced(free, limits)), r, f), Execute(EntryKey(r, f, c.next)))
  }

  /** Whether the newest generation of `r` is an exact duplicate. */
  predicate Known(c: Cache, r: RequestKey, f: Fingerprint) {
    r in c.latest && c.latest[r].fingerprint == f && Named(r, c.latest[r]) in c.entries
  }

  /** Joins the in-flight duplicate or replays the completed one. */
  function Share(c: Cache, r: RequestKey, f: Fingerprint, open: set<WaiterId>, w: WaiterId): (Cache, Decision)
    requires Known(c, r, f)
  {
    var k := Named(r, c.latest[r]);
    match c.entries[k]
    case InFlight(_) => (Join(c, k, open, w), Wait(k, w))
    case Completed(reply, _, _) => (c, Replay(k, reply))
  }

  /** A request arrives. `open` are the waiters whose receiver still exists and
      `w` is the identity of a new one. */
  function Begin(c: Cache, limits: Limits, r: RequestKey, f: Fingerprint, now: nat,
                 open: set<WaiterId>, w: WaiterId): (Cache, Decision)
  {
    var live := ExpireAll(c, now, limits.ttl);
    if Known(live, r, f) then Share(live, r, f, open, w) else Admit(live, limits, r, f)
  }

  /** How many of the oldest entries must go before `charge` more bytes fit. */
  function Overflow(queue: seq<EntryKey>, entries: map<EntryKey, EntryState>, charge: nat, maxBytes: nat): (n: nat)
    ensures n <= |queue|
  {
    if queue == [] || Charges(queue, entries) + charge <= maxBytes then 0
    else 1 + Overflow(queue[1..], entries, charge, maxBytes)
  }

  function Oldest(queue: seq<EntryKey>, n: nat): set<EntryKey>
    requires n <= |queue|
  {
    set k | k in queue[..n]
  }

  /** Evictions that make room for `charge` bytes. */
  function Squeezed(c: Cache, charge: nat, maxBytes: nat): set<EntryKey> {
    Oldest(c.queue, Overflow(c.queue, c.entries, charge, maxBytes))
  }

  function Insert(c: Cache, k: EntryKey, reply: Reply, charge: nat, now: nat): Cache {
    c.(entries := c.entries[k := Completed(reply, charge, now)], queue := c.queue + [k])
  }

  predicate Retains(c: Cache, limits: Limits, k: EntryKey, storage: Option<(Reply, nat)>) {
    IsLatest(c.latest, k) && storage.Some? && storage.value.1 <= limits.maxBytes
  }

  /** The second lock of `complete`: the in-flight entry becomes a completed one,
      or disappears together with its own `latest` record. */
  function Complete(c: Cache, limits: Limits, k: EntryKey, storage: Option<(Reply, nat)>, now: nat): Cache {
    if !(k in c.entries && c.entries[k].InFlight?) then c
    else if Retains(c, limits, k, storage) then
      Insert(Without(c, Squeezed(c, storage.value.1, limits.maxBytes)), k, storage.value.0, storage.value.1, now)
    else Without(c, {k})
  }

  function Cancel(c: Cache, k: EntryKey): Cache {
    if k in c.entries && c.entries[k].InFlight? then Without(c, {k}) else c
  }
}
