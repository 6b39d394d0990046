/** What clients of the identifier map can rely on over any run of `intern`,
    `forget_prefix` and `move_prefix`. */
module FsRuns {
  import opened Sequences
  import opened FsIndex
  import opened FsMaps

  datatype Op =
    | Intern(relative: Path, id: Outcome<FileId>)
    | Forget(prefix: Path, done: Outcome<()>)
    | Move(from: Path, to: Path, moved: Outcome<()>)

  ghost predicate Step(key: KeyMap, m: Live, op: Op, m': Live) {
    match op
    case Intern(relative, id) => InternStep(key, m, relative, m', id)
    case Forget(prefix, done) => ForgetStep(key, m, prefix, m', done)
    case Move(from, to, moved) => MoveStep(key, m, from, to, m', moved)
  }

  const FRESH := Live(map[ROOT_ID := []], ROOT_ID + 1)

  ghost predicate IsRun(key: KeyMap, states: seq<Live>, ops: seq<Op>) {
    && |states| == |ops| + 1
    && states[0] == FRESH
    && forall i :: 0 <= i < |ops| ==> Step(key, states[i], ops[i], states[i + 1])
  }

  /** No two live identifiers share a path, and none is yet to be handed out. */
  ghost predicate LiveOk(m: Live) {
    PathsDiffer(m.paths) && forall id :: id in m.paths ==> id < m.next
  }

  lemma StepKeepsOk(key: KeyMap, m: Live, op: Op, m': Live)
    requires LiveOk(m) && Step(key, m, op, m')
    ensures LiveOk(m')
  {
    hide RelativeKey;
    match op
    case Intern(relative, id) =>
      if id.Ok? && id.value !in m.paths { FsMap.NewPathDiffers(m.paths, id.value, relative); }
    case Forget(_, _) =>
    case Move(from, to, _) => MovedPathsDiffer(m.paths, from, to);
  }

  lemma {:induction false} RunKeepsOk(key: KeyMap, states: seq<Live>, ops: seq<Op>, i: nat)
    requires IsRun(key, states, ops) && i < |states|
    ensures LiveOk(states[i])
  {
    if i == 0 {
    } else {
      RunKeepsOk(key, states, ops, i - 1);
      hide LiveOk, Step;
      assert Step(key, states[i - 1], ops[i - 1], states[i]);
      StepKeepsOk(key, states[i - 1], ops[i - 1], states[i]);
    }
  }

  /** A step brings to life at most the next identifier, and then counts it. */
  lemma StepBirths(key: KeyMap, m: Live, op: Op, m': Live)
    requires Step(key, m, op, m')
    ensures m.next <= m'.next
    ensures forall id :: id in m'.paths && id < m.next ==> id in m.paths
  {
    hide RelativeKey, RelativeEq, StartsWith, Overwritten;
  }

  /** A forgotten identifier never comes back. */
  lemma {:induction false} NeverReused(key: KeyMap, states: seq<Live>, ops: seq<Op>, i: nat, j: nat, k: nat, id: FileId)
    requires IsRun(key, states, ops) && i <= j <= k < |states|
    requires id in states[i].paths && id !in states[j].paths
    ensures id !in states[k].paths
  {
    RunKeepsOk(key, states, ops, i);
    NextGrows(key, states, ops, i, j);
    GoneForGood(key, states, ops, j, k, id);
  }

  lemma {:induction false} NextGrows(key: KeyMap, states: seq<Live>, ops: seq<Op>, i: nat, j: nat)
    requires IsRun(key, states, ops) && i <= j < |states|
    ensures states[i].next <= states[j].next
    decreases j
  {
    if i >= j {
    } else {
      NextGrows(key, states, ops, i, j - 1);
      hide Step;
      assert Step(key, states[j - 1], ops[j - 1], states[j]);
      StepBirths(key, states[j - 1], ops[j - 1], states[j]);
    }
  }

  lemma {:induction false} GoneForGood(key: KeyMap, states: seq<Live>, ops: seq<Op>, j: nat, k: nat, id: FileId)
    requires IsRun(key, states, ops) && j <= k < |states|
    requires id < states[j].next && id !in states[j].paths
    ensures id !in states[k].paths
    decreases k
  {
    if j >= k {
    } else {
      GoneForGood(key, states, ops, j, k - 1, id);
      NextGrows(key, states, ops, j, k - 1);
      hide Step;
      assert Step(key, states[k - 1], ops[k - 1], states[k]);
      StepBirths(key, states[k - 1], ops[k - 1], states[k]);
    }
  }

  /** An identifier stays the answer for its path as long as it holds that path:
      `intern` of an equal path returns it and changes nothing. */
  lemma InternIsStable(key: KeyMap, states: seq<Live>, ops: seq<Op>, i: nat, id: FileId)
    requires IsRun(key, states, ops) && i < |ops| && ops[i].Intern? && ops[i].id.Ok?
    requires id in states[i].paths && RelativeEq(states[i].paths[id], ops[i].relative)
    ensures ops[i].id == Ok(id) && states[i + 1] == states[i]
  {
    hide RelativeKey;
    RunKeepsOk(key, states, ops, i);
    assert Step(key, states[i], ops[i], states[i + 1]);
    var r := ops[i].id.value;
    assert r in states[i].paths;
  }

  // -------------------------------------------------------- one operation in plain terms

  /** The host has a key for every component, as on Unix. */
  ghost predicate Total(key: KeyMap) {
    forall c :: key(c).Some?
  }

  /** With such a host no operation of any run is refused, and `intern` leaves an
      identifier that holds an equal path. */
  lemma NothingIsRefused(key: KeyMap, states: seq<Live>, ops: seq<Op>, i: nat)
    requires Total(key) && IsRun(key, states, ops) && i < |ops|
    ensures match ops[i]
            case Intern(relative, id) =>
              id.Ok? && id.value in states[i + 1].paths && SamePath(states[i + 1].paths[id.value], relative)
            case Forget(_, done) => done.Ok?
            case Move(_, _, moved) => moved.Ok?
  {
    assert Step(key, states[i], ops[i], states[i + 1]);
    if ops[i].Intern? {
      PlainPaths(ops[i].relative, ops[i].relative);
      if ops[i].id.Ok? && ops[i].id.value in states[i].paths {
        PlainPaths(states[i].paths[ops[i].id.value], ops[i].relative);
      }
    }
  }

  /** `p` is `q` or lies below it, component by component. */
  ghost predicate AtOrBelow(p: Path, q: Path) {
    |q| <= |p| && forall i :: 0 <= i < |q| ==> p[i].fold == q[i].fold
  }

  ghost predicate SamePath(p: Path, q: Path) {
    |p| == |q| && forall i :: 0 <= i < |q| ==> p[i].fold == q[i].fold
  }

  lemma PlainPaths(p: Path, q: Path)
    ensures StartsWith(p, q) <==> AtOrBelow(p, q)
    ensures RelativeEq(p, q) <==> SamePath(p, q)
  {
    var f, g := FoldsOf(p), FoldsOf(q);
    if AtOrBelow(p, q) {
      assert forall i :: 0 <= i < |g| ==> f[i] == p[i].fold == q[i].fold == g[i];
      assert g <= f;
    }
    if StartsWith(p, q) {
      forall i | 0 <= i < |q|
        ensures p[i].fold == q[i].fold
      {
        assert f[i] == g[i];
      }
    }
    if RelativeEq(p, q) {
      assert StartsWith(p, q);
    }
    if SamePath(p, q) {
      assert f == g;
    }
  }

  /** What `intern` answers: the live identifier of an equal path if there is one, else the
      next number, under exactly the path that was given. */
  lemma InternIsExact(key: KeyMap, m: Live, relative: Path, m': Live, id: FileId)
    requires LiveOk(m) && InternStep(key, m, relative, m', Ok(id))
    ensures forall x :: x in m.paths && SamePath(m.paths[x], relative) ==> id == x && m' == m
    ensures (forall x :: x in m.paths ==> !SamePath(m.paths[x], relative)) ==>
              id == m.next && m' == Live(m.paths[id := relative], m.next + 1)
  {
    hide RelativeEq, SamePath;
    forall x | x in m.paths
      ensures RelativeEq(m.paths[x], relative) <==> SamePath(m.paths[x], relative)
      ensures id in m.paths ==> (SamePath(m.paths[x], relative) && SamePath(m.paths[id], relative) ==> RelativeEq(m.paths[x], m.paths[id]))
    {
      PlainPaths(m.paths[x], relative);
      if id in m.paths {
        PlainPaths(m.paths[id], relative);
        SameAsBoth(m.paths[x], m.paths[id], relative);
      }
    }
  }

  lemma SameAsBoth(p: Path, q: Path, r: Path)
    ensures RelativeEq(p, r) && RelativeEq(q, r) ==> RelativeEq(p, q)
  {
  }

  /** `forget_prefix` forgets exactly what is at or below the prefix. */
  lemma ForgetIsExact(key: KeyMap, m: Live, prefix: Path, m': Live, id: FileId)
    requires ForgetStep(key, m, prefix, m', Ok(()))
    ensures id in m'.paths <==> id in m.paths && !AtOrBelow(m.paths[id], prefix)
    ensures id in m'.paths ==> m'.paths[id] == m.paths[id]
    ensures m'.next == m.next
  {
    if id in m.paths {
      PlainPaths(m.paths[id], prefix);
    }
  }

  /** What `move_prefix` does to one identifier: forgotten if it is at or below a different
      target; else, at or below the source, the target with its own suffix; else unmoved. */
  lemma MoveIsExact(key: KeyMap, m: Live, from: Path, to: Path, m': Live, id: FileId)
    requires MoveStep(key, m, from, to, m', Ok(()))
    ensures id in m'.paths <==> id in m.paths && (SamePath(from, to) || !AtOrBelow(m.paths[id], to))
    ensures id in m'.paths && AtOrBelow(m.paths[id], from) ==> m'.paths[id] == to + m.paths[id][|from|..]
    ensures id in m'.paths && !AtOrBelow(m.paths[id], from) ==> m'.paths[id] == m.paths[id]
    ensures m'.next == m.next
  {
    if id in m.paths {
      PlainPaths(from, to);
      PlainPaths(m.paths[id], to);
      PlainPaths(m.paths[id], from);
    }
  }

  // -------------------------------------------------------------------------- moves

  /** Something live is at or below a path. */
  predicate Occupied(paths: map<FileId, Path>, p: Path) {
    exists id :: id in paths && StartsWith(paths[id], p)
  }

  /** Exactly when a move keeps every identifier at or below its source: unless the two
      paths are the same object, neither may contain the other, or the inner one must have
      nothing live at or below it. */
  lemma MoveKeepsSubtree(paths: map<FileId, Path>, from: Path, to: Path)
    ensures (forall id :: id in paths && StartsWith(paths[id], from) ==> id in Moved(paths, from, to)) <==>
            || RelativeEq(from, to)
            || (!StartsWith(from, to) && !StartsWith(to, from))
            || (StartsWith(from, to) && !Occupied(paths, from))
            || (StartsWith(to, from) && !Occupied(paths, to))
  {
    hide StartsWith, RelativeEq;
    var after := Moved(paths, from, to);
    forall id | id in paths
      ensures id in after <==> RelativeEq(from, to) || !StartsWith(paths[id], to)
    {
    }
    forall id | id in paths
      ensures StartsWith(paths[id], from) && StartsWith(paths[id], to) ==> StartsWith(from, to) || StartsWith(to, from)
      ensures StartsWith(from, to) && StartsWith(paths[id], from) ==> StartsWith(paths[id], to)
      ensures StartsWith(to, from) && StartsWith(paths[id], to) ==> StartsWith(paths[id], from)
    {
      Nested(paths[id], from, to);
    }
  }

  /** How a path at or below one of two others lies with respect to both. */
  lemma Nested(p: Path, from: Path, to: Path)
    ensures StartsWith(p, from) && StartsWith(p, to) ==> StartsWith(from, to) || StartsWith(to, from)
    ensures StartsWith(from, to) && StartsWith(p, from) ==> StartsWith(p, to)
    ensures StartsWith(to, from) && StartsWith(p, to) ==> StartsWith(p, from)
  {
    if StartsWith(p, from) && StartsWith(p, to) {
      PrefixesCompare(FoldsOf(from), FoldsOf(to), FoldsOf(p));
    }
  }

  /** Moving `a/b` onto its own parent `a` forgets everything it was to move. */
  lemma MoveOntoParentForgets(a: Component, b: Component)
    ensures var paths: map<FileId, Path> := map[1 := [], 2 := [a], 3 := [a, b]];
            Moved(paths, [a, b], [a]) == map[1 := []]
  {
    var paths: map<FileId, Path> := map[1 := [], 2 := [a], 3 := [a, b]];
    assert FoldsOf([a, b]) == [a.fold, b.fold] && FoldsOf([a]) == [a.fold] && FoldsOf([]) == [];
    assert !RelativeEq([a, b], [a]);
    assert StartsWith([a], [a]) && StartsWith([a, b], [a]) && !StartsWith([], [a]) && !StartsWith([], [a, b]);
    hide FoldsOf, StartsWith, RelativeEq;
    assert Moved(paths, [a, b], [a]).Keys == {1};
  }

  /** Exactly when a move takes a remembered verifier along: a live identifier that moves
      has its path. Otherwise nothing arrives at the new path, and the verifier stays where
      it was unless the target covers it. */
  lemma VerifierFollowsLiveId(key: KeyMap, before: map<Key, Bucket>, after: map<Key, Bucket>,
                              paths: map<FileId, Path>, from: Path, to: Path, f: Folds)
    requires VerifiersFollow(key, before, after, paths, from, to) && !RelativeEq(from, to)
    requires FoldsOf(from) <= f && Lookup(key, before, f).Some?
    ensures Lookup(key, after, FoldsOf(to) + f[|from|..]) == Lookup(key, before, f) <==>
            exists id :: id in Travelers(paths, from, to) && FoldsOf(paths[id]) == f
    ensures (forall id :: id in Travelers(paths, from, to) ==> FoldsOf(paths[id]) != f) && !(FoldsOf(to) <= f) ==>
              Lookup(key, after, f) == Lookup(key, before, f)
  {
    hide Lookup, FoldsOf, Renamed, StartsWith, Overwritten;
    var moved := Travelers(paths, from, to);
    var target := FoldsOf(to) + f[|from|..];
    forall id | id in moved
      ensures FoldsOf(Renamed(paths[id], from, to)) == target <==> FoldsOf(paths[id]) == f
      ensures FoldsOf(to) <= FoldsOf(Renamed(paths[id], from, to))
    {
      RenamedIsInjective(paths[id], from, to, f);
    }
    assert FoldsOf(to) <= target;
  }

  lemma RenamedIsInjective(p: Path, from: Path, to: Path, f: Folds)
    requires StartsWith(p, from) && FoldsOf(from) <= f
    ensures FoldsOf(Renamed(p, from, to)) == FoldsOf(to) + f[|from|..] <==> FoldsOf(p) == f
    ensures FoldsOf(to) <= FoldsOf(Renamed(p, from, to))
  {
    hide FoldsOf, Renamed;
    RenamedFolds(p, from, to);
    if FoldsOf(Renamed(p, from, to)) == FoldsOf(to) + f[|from|..] {
      SameSuffix(FoldsOf(from), FoldsOf(to), FoldsOf(p), f);
    }
  }

  /** A verifier remembered before its path is interned is left behind by a move in
      between: it answers for the old path and not for the new one. */
  lemma OrphanedVerifierStays(key: KeyMap, before: map<Key, Bucket>, after: map<Key, Bucket>,
                              a: Component, b: Component, v: Verifier)
    requires a.fold != b.fold && Lookup(key, before, [a.fold]) == Some(v)
    requires VerifiersFollow(key, before, after, map[ROOT_ID := []], [a], [b])
    ensures Lookup(key, after, [a.fold]) == Some(v) && Lookup(key, after, [b.fold]) == None
  {
    hide Lookup;
    var paths: map<FileId, Path> := map[ROOT_ID := []];
    assert FoldsOf([a]) == [a.fold] && FoldsOf([b]) == [b.fold] && FoldsOf([]) == [];
    assert Travelers(paths, [a], [b]) == {};
    assert [b.fold][0] != [a.fold][0];
    assert !RelativeEq([a], [b]);
  }

  /** Renaming there and back again restores every identifier to an equal path,
      provided the target was free and neither path contains the other. */
  lemma MoveRoundTrip(paths: map<FileId, Path>, from: Path, to: Path)
    requires !StartsWith(from, to) && !StartsWith(to, from)
    requires forall id :: id in paths ==> !StartsWith(paths[id], to)
    ensures var back := Moved(Moved(paths, from, to), to, from);
            back.Keys == paths.Keys && forall id :: id in paths ==> RelativeEq(back[id], paths[id])
  {
    var there := Moved(paths, from, to);
    var back := Moved(there, to, from);
    assert there.Keys == paths.Keys;
    forall id | id in paths ensures id in back && RelativeEq(back[id], paths[id]) {
      var p := paths[id];
      if StartsWith(p, from) {
        ThereAndBack(p, from, to);
      } else {
        assert there[id] == p;
      }
    }
    assert back.Keys == paths.Keys;
  }

  lemma ThereAndBack(p: Path, from: Path, to: Path)
    requires StartsWith(p, from) && !StartsWith(from, to) && !StartsWith(to, from)
    ensures StartsWith(Renamed(p, from, to), to) && !StartsWith(Renamed(p, from, to), from)
    ensures RelativeEq(Renamed(Renamed(p, from, to), to, from), p)
  {
    var q := Renamed(p, from, to);
    RenamedFolds(p, from, to);
    var fp, ff, ft := FoldsOf(p), FoldsOf(from), FoldsOf(to);
    assert StartsWith(q, to);
    RenamedFolds(q, to, from);
    assert fp == ff + fp[|from|..];
    assert FoldsOf(q)[|to|..] == fp[|from|..];
    if StartsWith(q, from) {
      PrefixesCompare(ff, ft, FoldsOf(q));
    }
  }

  /** Two prefixes of one sequence are comparable. */
  lemma PrefixesCompare(a: Folds, b: Folds, s: Folds)
    requires a <= s && b <= s
    ensures a <= b || b <= a
  {
    if |a| <= |b| { assert a == s[..|a|] == b[..|a|]; } else { assert b == s[..|b|] == a[..|b|]; }
  }
}
