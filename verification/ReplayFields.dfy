/** The fields of the replay cache as one value, the abstraction that takes the
    tombstones out of the completion queue, and what each primitive update of
    the fields does to that abstraction. */
module ReplayFields {
  import opened Sequences
  import opened Replies
  import opened ReplayModel
  import opened ReplayLemmas

  datatype Fields = Fields(
    entries: map<EntryKey, EntryState>,
    latest: map<RequestKey, Latest>,
    order: seq<EntryKey>,
    completedBytes: nat,
    nextGeneration: nat)
  {
    ghost function Abs(): Cache {
      Cache(entries, latest, Keep(order, CompletedKeys(entries)), nextGeneration)
    }

    /** The queue holds every completed key once, otherwise only tombstones of
        keys that can never be inserted again, and is charged exactly. */
    ghost predicate OrderOk() {
      && Distinct(order)
      && completedBytes == Charges(order, entries)
      && (forall k :: k in order ==> k !in InFlightKeys(entries) && k.generation < nextGeneration)
    }

    ghost predicate Valid(limits: Limits) {
      && OrderOk()
      && |order| <= Max(64, 2 * limits.capacity)
      && WellFormed(Abs(), limits)
    }
  }

  /** `remove_completed`: the queue is left alone. */
  function Removed(f: Fields, key: EntryKey): Fields {
    var charge := ChargeOf(f.entries, key);
    f.(entries := f.entries - {key},
       completedBytes := SaturatingSub(f.completedBytes, charge),
       latest := if IsLatest(f.latest, key) then f.latest - {key.request} else f.latest)
  }

  lemma RemovedLatest(f: Fields, key: EntryKey)
    ensures Removed(f, key).latest == Without(f.Abs(), {key}).latest
  {
  }

  lemma PopTombstone(f: Fields)
    requires f.OrderOk() && f.order != [] && f.order[0] !in CompletedKeys(f.entries)
    ensures f.(order := f.order[1..]).OrderOk()
    ensures f.(order := f.order[1..]).Abs() == f.Abs()
  {
  }

  lemma PopLive(f: Fields)
    requires f.OrderOk() && f.order != [] && f.order[0] in CompletedKeys(f.entries)
    ensures var f' := Removed(f.(order := f.order[1..]), f.order[0]);
            && f'.OrderOk()
            && f'.Abs() == Without(f.Abs(), {f.order[0]})
            && f.Abs().queue != [] && f.Abs().queue[0] == f.order[0]
  {
    var oldest, rest, was := f.order[0], f.order[1..], f.entries;
    ChargesCongruent(rest, was, was - {oldest});
    KeepKeep(rest, CompletedKeys(was), was.Keys - {oldest});
    KeepCongruent(rest, CompletedKeys(was) * (was.Keys - {oldest}), CompletedKeys(was - {oldest}));
    var queue := f.Abs().queue;
    assert queue[1..] == Keep(rest, CompletedKeys(was));
    assert Keep(queue, was.Keys - {oldest}) == Keep(queue[1..], was.Keys - {oldest});
    RemovedLatest(f.(order := rest), oldest);
    assert InFlightKeys(was - {oldest}) == InFlightKeys(was);
  }

  lemma EmptyOrder(f: Fields)
    requires f.order == []
    ensures f.Abs().queue == []
  {
  }

  /** Removing an entry whose queue position stays behind as a tombstone. */
  lemma RemoveBehind(f: Fields, key: EntryKey)
    requires f.OrderOk() && key in CompletedKeys(f.entries) && key in f.order
    ensures Removed(f, key).OrderOk()
    ensures Removed(f, key).Abs() == Without(f.Abs(), {key})
  {
    var was := f.entries;
    ChargesWithout(f.order, was, key);
    KeepKeep(f.order, CompletedKeys(was), was.Keys - {key});
    assert CompletedKeys(was) * (was.Keys - {key}) == CompletedKeys(was - {key});
    RemovedLatest(f, key);
  }

  lemma {:induction false} ChargesWithout(q: seq<EntryKey>, e: map<EntryKey, EntryState>, k: EntryKey)
    requires Distinct(q) && k in q
    ensures Charges(q, e) == Charges(q, e - {k}) + ChargeOf(e, k)
  {
    if q[0] == k {
      ChargesCongruent(q[1..], e, e - {k});
    } else {
      ChargesWithout(q[1..], e, k);
    }
  }

  lemma JoinFields(f: Fields, key: EntryKey, open: set<WaiterId>, w: WaiterId)
    requires f.OrderOk() && key in f.entries && f.entries[key].InFlight?
    ensures var f' := f.(entries := f.entries[key := InFlight(Keep(f.entries[key].waiters, open) + [w])]);
            f'.OrderOk() && f'.Abs() == Join(f.Abs(), key, open, w)
  {
    var after := f.entries[key := InFlight(Keep(f.entries[key].waiters, open) + [w])];
    ChargesCongruent(f.order, f.entries, after);
    assert CompletedKeys(after) == CompletedKeys(f.entries);
    assert InFlightKeys(after) == InFlightKeys(f.entries);
  }

  lemma GrantFields(f: Fields, r: RequestKey, fp: Fingerprint)
    requires f.OrderOk() && GenerationsOk(f.Abs())
    ensures var key := EntryKey(r, fp, f.nextGeneration);
            var f' := Fields(f.entries[key := InFlight([])], f.latest[r := Latest(fp, f.nextGeneration)],
                             f.order, f.completedBytes, f.nextGeneration + 1);
            f'.OrderOk() && f'.Abs() == Grant(f.Abs(), r, fp)
  {
    var key := EntryKey(r, fp, f.nextGeneration);
    var after := f.entries[key := InFlight([])];
    assert key !in f.order && key !in f.entries;
    ChargesCongruent(f.order, f.entries, after);
    assert CompletedKeys(after) == CompletedKeys(f.entries);
    assert InFlightKeys(after) == InFlightKeys(f.entries) + {key};
  }

  lemma CompactFields(f: Fields)
    requires f.OrderOk()
    ensures var f' := f.(order := Keep(f.order, CompletedKeys(f.entries)));
            f'.OrderOk() && f'.Abs() == f.Abs() && |f'.order| <= |f.entries|
  {
    var completed := CompletedKeys(f.entries);
    ChargesKeep(f.order, f.entries, completed);
    KeepDistinct(f.order, completed);
    KeepMembers(f.order, completed);
    KeepKeep(f.order, completed, completed);
    assert completed * completed == completed;
    DistinctLength(Keep(f.order, completed), f.entries.Keys);
  }

  /** An execution leaves `entries` before its fate is decided. */
  lemma TakeFields(f: Fields, key: EntryKey)
    requires f.OrderOk() && key in InFlightKeys(f.entries)
    ensures var f' := f.(entries := f.entries - {key});
            && f'.OrderOk()
            && f'.Abs() == f.Abs().(entries := f.entries - {key})
            && key !in f'.order
  {
    var after := f.entries - {key};
    ChargesCongruent(f.order, f.entries, after);
    assert CompletedKeys(after) == CompletedKeys(f.entries);
    assert InFlightKeys(after) == InFlightKeys(f.entries) - {key};
  }

  /** An execution that is not retained goes with its own `latest` record. */
  lemma DropFields(f: Fields, key: EntryKey)
    requires f.OrderOk() && key in InFlightKeys(f.entries)
    ensures var f' := f.(entries := f.entries - {key},
                         latest := if IsLatest(f.latest, key) then f.latest - {key.request} else f.latest);
            f'.OrderOk() && f'.Abs() == Without(f.Abs(), {key})
  {
    TakeFields(f, key);
    var was := f.entries;
    KeepKeep(f.order, CompletedKeys(was), was.Keys - {key});
    assert CompletedKeys(was) * (was.Keys - {key}) == CompletedKeys(was - {key});
    RemovedLatest(f, key);
  }

  /** A queue's charge is the charge of its live positions. */
  lemma ChargesOfQueue(f: Fields, was: map<EntryKey, EntryState>)
    requires f.OrderOk()
    requires forall k :: k in f.entries ==> k in was && was[k] == f.entries[k]
    ensures f.completedBytes == Charges(f.Abs().queue, was)
  {
    ChargesKeep(f.order, f.entries, CompletedKeys(f.entries));
    KeepMembers(f.order, CompletedKeys(f.entries));
    ChargesCongruent(f.Abs().queue, f.entries, was);
  }

  /** A completed entry is inserted at the back of the queue. */
  lemma InsertFields(f: Fields, key: EntryKey, reply: Reply, charge: nat, now: nat)
    requires f.OrderOk() && key !in f.entries && key !in f.order && key.generation < f.nextGeneration
    ensures var f' := f.(entries := f.entries[key := Completed(reply, charge, now)],
                         order := f.order + [key], completedBytes := f.completedBytes + charge);
            f'.OrderOk() && f'.Abs() == Insert(f.Abs(), key, reply, charge, now)
  {
    hide Distinct, Charges, Keep;
    var after := f.entries[key := Completed(reply, charge, now)];
    InsertedQueue(f, key, after);
    DistinctAppend(f.order, key);
    ChargesAppend(f.order, [key], after);
    ChargesCongruent(f.order, after, f.entries);
    ChargeOfOne(key, after);
    assert InFlightKeys(after) == InFlightKeys(f.entries);
  }

  lemma ChargeOfOne(key: EntryKey, entries: map<EntryKey, EntryState>)
    ensures Charges([key], entries) == ChargeOf(entries, key)
  {
  }

  lemma InsertedQueue(f: Fields, key: EntryKey, after: map<EntryKey, EntryState>)
    requires key !in f.order && key in after && after[key].Completed?
    requires forall k :: k != key ==> (k in after <==> k in f.entries) && (k in after ==> after[k] == f.entries[k])
    ensures Keep(f.order + [key], CompletedKeys(after)) == Keep(f.order, CompletedKeys(f.entries)) + [key]
  {
    KeepAppend(f.order, [key], CompletedKeys(after));
    KeepCongruent(f.order, CompletedKeys(after), CompletedKeys(f.entries));
  }
}
