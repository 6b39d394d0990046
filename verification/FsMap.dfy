/** The mirror file system's identifier map: three maps that must agree, and the
    exclusive-create verifiers, under `intern`, `forget_prefix` and
    `move_prefix` (examples/mirrorfs.rs). */
module FsMaps {
  import opened Sequences
  import opened FsIndex

  const ROOT_ID: FileId := 1

  datatype Outcome<+T> = Ok(value: T) | BadName

  /** The path of an identifier after `from` has been renamed to `to`. */
  function Renamed(p: Path, from: Path, to: Path): Path {
    to + if |from| <= |p| then p[|from|..] else []
  }

  /** Renaming onto another object forgets that object and all below it. */
  predicate Overwritten(p: Path, from: Path, to: Path) {
    !RelativeEq(from, to) && StartsWith(p, to)
  }

  function Forgotten(paths: map<FileId, Path>, prefix: Path): map<FileId, Path> {
    map id | id in paths && !StartsWith(paths[id], prefix) :: paths[id]
  }

  function MovedPath(p: Path, from: Path, to: Path): Path {
    if StartsWith(p, from) then Renamed(p, from, to) else p
  }

  /** Exact subtree renaming: what was under `to` is gone, what was under `from`
      keeps its identifier and suffix, everything else stays. */
  function Moved(paths: map<FileId, Path>, from: Path, to: Path): map<FileId, Path> {
    map id | id in paths && !Overwritten(paths[id], from, to) :: MovedPath(paths[id], from, to)
  }

  lemma RenamedFolds(p: Path, from: Path, to: Path)
    requires StartsWith(p, from)
    ensures |FoldsOf(from)| == |from| && FoldsOf(Renamed(p, from, to)) == FoldsOf(to) + FoldsOf(p)[|from|..]
  {
    FoldsConcat(to, p[|from|..]);
  }

  /** No two live identifiers share a path after a move, whether the two paths
      overlap, one contains the other, or they differ in case only. */
  lemma MovedPathsDiffer(paths: map<FileId, Path>, from: Path, to: Path)
    requires PathsDiffer(paths)
    ensures PathsDiffer(Moved(paths, from, to))
  {
    var after := Moved(paths, from, to);
    forall x, y | x in after && y in after && x != y ensures !RelativeEq(after[x], after[y]) {
      MovedPair(paths[x], paths[y], from, to);
    }
  }

  lemma MovedPair(p: Path, q: Path, from: Path, to: Path)
    requires !RelativeEq(p, q) && !Overwritten(p, from, to) && !Overwritten(q, from, to)
    ensures !RelativeEq(MovedPath(p, from, to), MovedPath(q, from, to))
  {
    if StartsWith(p, from) { RenamedFolds(p, from, to); }
    if StartsWith(q, from) { RenamedFolds(q, from, to); }
    hide Renamed, FoldsOf;
    if StartsWith(p, from) && StartsWith(q, from) && RelativeEq(Renamed(p, from, to), Renamed(q, from, to)) {
      SameSuffix(FoldsOf(from), FoldsOf(to), FoldsOf(p), FoldsOf(q));
    }
  }

  lemma SameSuffix(from: Folds, to: Folds, p: Folds, q: Folds)
    requires from <= p && from <= q && to + p[|from|..] == to + q[|from|..]
    ensures p == q
  {
    assert (to + p[|from|..])[|to|..] == p[|from|..] && (to + q[|from|..])[|to|..] == q[|from|..];
    assert p == from + p[|from|..] && q == from + q[|from|..];
  }

  // --------------------------------------------------------- verifiers follow their objects

  /** The buckets after the identifiers in `done` have been moved: each carries
      its verifier along, and nothing else changes. */
  ghost predicate Carried(key: KeyMap, before: map<Key, Bucket>, now: map<Key, Bucket>,
                          paths: map<FileId, Path>, done: set<FileId>, from: Path, to: Path) {
    && done <= paths.Keys
    && (forall id :: id in done ==>
          Lookup(key, now, FoldsOf(Renamed(paths[id], from, to))) == Lookup(key, before, FoldsOf(paths[id])))
    && (forall f {:trigger Lookup(key, now, f)} ::
          (forall id :: id in done ==> FoldsOf(Renamed(paths[id], from, to)) != f) ==>
          Lookup(key, now, f) == if (exists id :: id in done && FoldsOf(paths[id]) == f) then None else Lookup(key, before, f))
  }

  /** Among the identifiers a move touches, nobody's old path is another's new one. */
  lemma NoInterference(paths: map<FileId, Path>, from: Path, to: Path, x: FileId, y: FileId)
    requires PathsDiffer(paths) && x in paths && y in paths && x != y
    requires StartsWith(paths[x], from) && StartsWith(paths[y], from)
    requires !Overwritten(paths[x], from, to) && !Overwritten(paths[y], from, to)
    ensures FoldsOf(paths[x]) != FoldsOf(paths[y])
    ensures FoldsOf(Renamed(paths[x], from, to)) != FoldsOf(Renamed(paths[y], from, to))
    ensures FoldsOf(Renamed(paths[x], from, to)) != FoldsOf(paths[y])
  {
    MovedPair(paths[x], paths[y], from, to);
    RenamedFolds(paths[x], from, to);
    var fx, ff := FoldsOf(paths[x]), FoldsOf(from);
    if RelativeEq(from, to) {
      assert fx == ff + fx[|from|..];
      assert FoldsOf(Renamed(paths[x], from, to)) == fx;
    } else {
      assert FoldsOf(to) <= FoldsOf(Renamed(paths[x], from, to));
    }
  }

  function CarryOne(buckets: map<Key, Bucket>, oldKey: Key, oldFolds: Folds, v: Option<Verifier>, newKey: Key, newPath: Path)
    : map<Key, Bucket>
  {
    var taken := TakeAt(buckets, oldKey, oldFolds);
    if v.Some? then PutAt(taken, newKey, newPath, v.value) else taken
  }

  /** The buckets hold nothing at or below an overwritten target. */
  ghost predicate Cleared(key: KeyMap, buckets: map<Key, Bucket>, from: Path, to: Path) {
    !RelativeEq(from, to) ==> forall f :: FoldsOf(to) <= f ==> Lookup(key, buckets, f) == None
  }

  lemma CarryLookups(key: KeyMap, before: map<Key, Bucket>, now: map<Key, Bucket>,
                     paths: map<FileId, Path>, done: set<FileId>, from: Path, to: Path, id: FileId)
    requires PathsDiffer(paths) && Cleared(key, before, from, to)
    requires forall x :: x in done + {id} ==> x in paths && StartsWith(paths[x], from) && !Overwritten(paths[x], from, to)
    requires id !in done && Carried(key, before, now, paths, done, from, to)
    ensures var f, g := FoldsOf(paths[id]), FoldsOf(Renamed(paths[id], from, to));
            && Lookup(key, now, f) == Lookup(key, before, f)
            && (f != g ==> Lookup(key, now, g) == None)
  {
    var f, g := FoldsOf(paths[id]), FoldsOf(Renamed(paths[id], from, to));
    forall x | x in done
      ensures FoldsOf(Renamed(paths[x], from, to)) != f && FoldsOf(Renamed(paths[x], from, to)) != g && FoldsOf(paths[x]) != f
    {
      NoInterference(paths, from, to, x, id);
    }
    RenamedFolds(paths[id], from, to);
    if RelativeEq(from, to) {
      assert f == FoldsOf(from) + f[|from|..];
      assert f == g;
    } else {
      assert FoldsOf(to) <= g;
    }
  }

  lemma CarryOneOk(key: KeyMap, before: map<Key, Bucket>, now: map<Key, Bucket>,
                   paths: map<FileId, Path>, done: set<FileId>, from: Path, to: Path, id: FileId, oldKey: Key, newKey: Key)
    requires PathsDiffer(paths) && Cleared(key, before, from, to) && VerifiersOk(key, now)
    requires forall x :: x in done + {id} ==> x in paths && StartsWith(paths[x], from) && !Overwritten(paths[x], from, to)
    requires id !in done && Carried(key, before, now, paths, done, from, to)
    requires RelativeKey(key, paths[id]) == Some(oldKey)
    requires RelativeKey(key, Renamed(paths[id], from, to)) == Some(newKey)
    ensures var f := FoldsOf(paths[id]);
            var now' := CarryOne(now, oldKey, f, Lookup(key, now, f), newKey, Renamed(paths[id], from, to));
            && VerifiersOk(key, now')
            && forall q :: Lookup(key, now', q) ==
                 if q == FoldsOf(Renamed(paths[id], from, to)) then Lookup(key, before, f)
                 else if q == f then None else Lookup(key, now, q)
  {
    var f, p := FoldsOf(paths[id]), Renamed(paths[id], from, to);
    CarryLookups(key, before, now, paths, done, from, to, id);
    hide Carried, Cleared, PathsDiffer, Lookup, VerifiersOk, TakeAt, PutAt, StartsWith, Overwritten, Renamed;
    var taken := TakeAt(now, oldKey, f);
    TakeAtOk(key, now, oldKey, f);
    TakeAtLookup(key, now, oldKey, f, FoldsOf(p));
    var v := Lookup(key, now, f);
    if v.Some? { PutAtOk(key, taken, newKey, p, v.value); }
    forall q ensures Lookup(key, CarryOne(now, oldKey, f, v, newKey, p), q) ==
                 if q == FoldsOf(p) then Lookup(key, before, f) else if q == f then None else Lookup(key, now, q)
    {
      TakeAtLookup(key, now, oldKey, f, q);
      if v.Some? { PutAtLookup(key, taken, newKey, p, v.value, q); }
    }
  }

  lemma CarriedGrows(key: KeyMap, before: map<Key, Bucket>, now: map<Key, Bucket>, now': map<Key, Bucket>,
                     paths: map<FileId, Path>, done: set<FileId>, from: Path, to: Path, id: FileId)
    requires PathsDiffer(paths)
    requires forall x :: x in done + {id} ==> x in paths && StartsWith(paths[x], from) && !Overwritten(paths[x], from, to)
    requires id !in done && Carried(key, before, now, paths, done, from, to)
    requires forall q :: Lookup(key, now', q) ==
               if q == FoldsOf(Renamed(paths[id], from, to)) then Lookup(key, before, FoldsOf(paths[id]))
               else if q == FoldsOf(paths[id]) then None else Lookup(key, now, q)
    ensures Carried(key, before, now', paths, done + {id}, from, to)
  {
    hide Lookup, Overwritten, StartsWith, Renamed;
    forall x | x in done
      ensures FoldsOf(Renamed(paths[x], from, to)) != FoldsOf(Renamed(paths[id], from, to))
      ensures FoldsOf(Renamed(paths[x], from, to)) != FoldsOf(paths[id])
    {
      NoInterference(paths, from, to, x, id);
    }
    hide PathsDiffer;
  }

  // ------------------------------------------------------------------------- the map

  /** The live paths once the identifiers in `done` have been renamed. */
  function PartlyMoved(paths: map<FileId, Path>, done: set<FileId>, from: Path, to: Path): map<FileId, Path> {
    map id | id in paths :: if id in done then MovedPath(paths[id], from, to) else paths[id]
  }

  lemma FullyMoved(paths: map<FileId, Path>, live: map<FileId, Path>, done: set<FileId>, from: Path, to: Path)
    requires live == if RelativeEq(from, to) then paths else Forgotten(paths, to)
    requires done == set id | id in live && StartsWith(live[id], from)
    ensures PartlyMoved(live, done, from, to) == Moved(paths, from, to)
  {
  }

  lemma RenamedKey(key: KeyMap, p: Path, from: Path, to: Path, oldKey: Key, fromKey: Key, toKey: Key)
    requires StartsWith(p, from) && RelativeKey(key, p) == Some(oldKey)
    requires RelativeKey(key, from) == Some(fromKey) && RelativeKey(key, to) == Some(toKey)
    ensures |fromKey| == |from| <= |oldKey|
    ensures RelativeKey(key, Renamed(p, from, to)) == Some(toKey + oldKey[|fromKey|..])
  {
    hide KeyOfFolds;
    RenamedFolds(p, from, to);
    PrefixKey(key, FoldsOf(p), FoldsOf(from));
    KeyConcat(key, FoldsOf(to), FoldsOf(p)[|from|..]);
  }

  /** An identifier that a move carries along. */
  predicate Travels(p: Path, from: Path, to: Path) {
    StartsWith(p, from) && !Overwritten(p, from, to)
  }

  function Travelers(paths: map<FileId, Path>, from: Path, to: Path): set<FileId> {
    set id | id in paths && Travels(paths[id], from, to)
  }

  /** Verifiers of moved objects move with them; those at or below an overwritten
      target and those left behind at an old path are gone; all others stay. */
  ghost predicate VerifiersFollow(key: KeyMap, before: map<Key, Bucket>, after: map<Key, Bucket>,
                                  paths: map<FileId, Path>, from: Path, to: Path) {
    var moved := Travelers(paths, from, to);
    && (forall id :: id in moved ==>
          Lookup(key, after, FoldsOf(Renamed(paths[id], from, to))) == Lookup(key, before, FoldsOf(paths[id])))
    && (forall f {:trigger Lookup(key, after, f)} ::
          (forall id :: id in moved ==> FoldsOf(Renamed(paths[id], from, to)) != f) ==>
          Lookup(key, after, f) ==
          if (!RelativeEq(from, to) && FoldsOf(to) <= f) || (exists id :: id in moved && FoldsOf(paths[id]) == f)
          then None else Lookup(key, before, f))
  }

  /** The identifiers collected after forgetting the target are the travelers. */
  lemma CollectedTravel(paths: map<FileId, Path>, live: map<FileId, Path>, moved: set<FileId>, from: Path, to: Path)
    requires live == if RelativeEq(from, to) then paths else Forgotten(paths, to)
    requires moved == set id | id in live && StartsWith(live[id], from)
    ensures moved == Travelers(paths, from, to)
    ensures forall id :: id in moved ==> id in live && Travels(live[id], from, to) && live[id] == paths[id]
    ensures forall id :: id in moved ==> RelativeEq(from, to) || !(FoldsOf(to) <= FoldsOf(paths[id]))
  {
    hide FoldsOf;
  }

  lemma CarriedFollows(key: KeyMap, before: map<Key, Bucket>, cleared: map<Key, Bucket>, after: map<Key, Bucket>,
                       paths: map<FileId, Path>, live: map<FileId, Path>, from: Path, to: Path)
    requires forall f :: Lookup(key, cleared, f) ==
               if !RelativeEq(from, to) && FoldsOf(to) <= f then None else Lookup(key, before, f)
    requires forall id :: id in Travelers(paths, from, to) ==> id in live && live[id] == paths[id]
    requires forall id :: id in Travelers(paths, from, to) ==> RelativeEq(from, to) || !(FoldsOf(to) <= FoldsOf(paths[id]))
    requires Carried(key, cleared, after, live, Travelers(paths, from, to), from, to)
    ensures VerifiersFollow(key, before, after, paths, from, to)
  {
    hide Lookup, Renamed, FoldsOf, RelativeEq;
    var moved := Travelers(paths, from, to);
    assert moved <= paths.Keys;
    hide Travelers;
    forall id | id in moved
      ensures Lookup(key, after, FoldsOf(Renamed(paths[id], from, to))) == Lookup(key, before, FoldsOf(paths[id]))
    {
      assert Lookup(key, cleared, FoldsOf(paths[id])) == Lookup(key, before, FoldsOf(paths[id]));
    }
    forall f | forall id :: id in moved ==> FoldsOf(Renamed(paths[id], from, to)) != f
      ensures Lookup(key, after, f) ==
              if (!RelativeEq(from, to) && FoldsOf(to) <= f) || (exists id :: id in moved && FoldsOf(paths[id]) == f)
              then None else Lookup(key, before, f)
    {
      assert forall id :: id in moved ==> FoldsOf(Renamed(live[id], from, to)) != f;
      assert Lookup(key, after, f) == if (exists id :: id in moved && FoldsOf(live[id]) == f) then None else Lookup(key, cleared, f);
    }
  }

  // ------------------------------------------------------------------ operations as steps

  /** What clients see: the live paths and the next identifier. */
  datatype Live = Live(paths: map<FileId, Path>, next: FileId)

  /** `intern` answers as a search of all live paths would. */
  ghost predicate InternStep(key: KeyMap, m: Live, relative: Path, m': Live, r: Outcome<FileId>) {
    match r
    case BadName => !Keyed(key, relative) && m' == m
    case Ok(id) =>
      Keyed(key, relative) &&
      if id in m.paths then RelativeEq(m.paths[id], relative) && m' == m
      else
        && (forall x :: x in m.paths ==> !RelativeEq(m.paths[x], relative))
        && id == m.next && m' == Live(m.paths[id := relative], m.next + 1)
  }

  ghost predicate ForgetStep(key: KeyMap, m: Live, prefix: Path, m': Live, r: Outcome<()>) {
    match r
    case BadName => !Keyed(key, prefix) && m' == m
    case Ok(_) => Keyed(key, prefix) && m' == m.(paths := Forgotten(m.paths, prefix))
  }

  ghost predicate MoveStep(key: KeyMap, m: Live, from: Path, to: Path, m': Live, r: Outcome<()>) {
    match r
    case BadName => (!Keyed(key, from) || !Keyed(key, to)) && m' == m
    case Ok(_) =>
      && Keyed(key, from) && Keyed(key, to)
      && m' == m.(paths := Moved(m.paths, from, to))
  }

  class FsMap {
    const key: KeyMap
    var nextFileId: FileId
    var idToRelative: map<FileId, Path>
    var idToKey: map<FileId, Key>
    var relativeToId: map<Key, seq<FileId>>
    var exclusiveVerifiers: map<Key, Bucket>

    ghost predicate Valid()
      reads this
    {
      && IndexOk(key, idToRelative, idToKey, relativeToId)
      && PathsDiffer(idToRelative)
      && (forall id :: id in idToRelative ==> id < nextFileId)
      && VerifiersOk(key, exclusiveVerifiers)
    }

    ghost function Now(): Live
      reads this
    {
      Live(idToRelative, nextFileId)
    }

    constructor (keys: KeyMap)
      ensures Valid() && key == keys
      ensures Now() == Live(map[ROOT_ID := []], ROOT_ID + 1)
      ensures forall f :: Lookup(key, exclusiveVerifiers, f) == None
    {
      key := keys;
      nextFileId := ROOT_ID + 1;
      idToRelative := map[ROOT_ID := []];
      idToKey := map[ROOT_ID := []];
      relativeToId := map[[] := [ROOT_ID]];
      exclusiveVerifiers := map[];
    }

    /** The identifier of a path: the one live identifier with that path if there
        is one, else a fresh one. */
    method Intern(relative: Path) returns (r: Outcome<FileId>)
      requires Valid()
      modifies this`nextFileId, this`idToRelative, this`idToKey, this`relativeToId
      ensures Valid()
      ensures InternStep(key, old(Now()), relative, Now(), r)
    {
      hide IndexOk, RelativeEq, RelativeKey, VerifiersOk, PathsDiffer;
      KeyIsComponentwise(key, relative);
      var k := RelativeKey(key, relative);
      if k.None? { return BadName; }
      if k.value in relativeToId {
        BucketIsLive(key, idToRelative, idToKey, relativeToId, k.value);
        var found := FindId(relativeToId[k.value], relative);
        if found.Some? {
          return Ok(found.value);
        }
      }
      AbsentPath(key, idToRelative, idToKey, relativeToId, relative, k.value);
      var fileId := nextFileId;
      FileOk(key, idToRelative, idToKey, relativeToId, fileId, relative, k.value);
      NewPathDiffers(idToRelative, fileId, relative);
      nextFileId := nextFileId + 1;
      idToRelative := idToRelative[fileId := relative];
      idToKey := idToKey[fileId := k.value];
      relativeToId := relativeToId[k.value := (if k.value in relativeToId then relativeToId[k.value] else []) + [fileId]];
      r := Ok(fileId);
    }

    /** The first identifier of a bucket whose path equals `relative`. */
    method FindId(ids: seq<FileId>, relative: Path) returns (r: Option<FileId>)
      ensures r.Some? ==> r.value in idToRelative && RelativeEq(idToRelative[r.value], relative)
      ensures r.None? ==>
                forall j :: 0 <= j < |ids| && ids[j] in idToRelative ==> !RelativeEq(idToRelative[ids[j]], relative)
    {
      hide RelativeEq;
      var i := 0;
      while i < |ids|
        invariant 0 <= i <= |ids|
        invariant forall j :: 0 <= j < i && ids[j] in idToRelative ==> !RelativeEq(idToRelative[ids[j]], relative)
      {
        if ids[i] in idToRelative && RelativeEq(idToRelative[ids[i]], relative) {
          return Some(ids[i]);
        }
        i := i + 1;
      }
      return None;
    }

    static lemma BucketIsLive(key: KeyMap, paths: map<FileId, Path>, keys: map<FileId, Key>, ids: map<Key, seq<FileId>>,
                              k: Key)
      requires IndexOk(key, paths, keys, ids) && k in ids
      ensures forall j :: 0 <= j < |ids[k]| ==> ids[k][j] in paths
    {
      hide RelativeKey;
      forall j | 0 <= j < |ids[k]|
        ensures ids[k][j] in paths
      {
        assert ids[k][j] in ids[k];
      }
    }

    /** A path that its bucket does not hold is not live at all. */
    static lemma AbsentPath(key: KeyMap, paths: map<FileId, Path>, keys: map<FileId, Key>, ids: map<Key, seq<FileId>>,
                            relative: Path, k: Key)
      requires IndexOk(key, paths, keys, ids) && RelativeKey(key, relative) == Some(k)
      requires k in ids ==> forall j :: 0 <= j < |ids[k]| ==> ids[k][j] in paths && !RelativeEq(paths[ids[k][j]], relative)
      ensures forall id :: id in paths ==> !RelativeEq(paths[id], relative)
    {
      forall id | id in paths ensures !RelativeEq(paths[id], relative) {
        if keys[id] == k {
          assert id in ids[k];
        }
      }
    }

    static lemma NewPathDiffers(paths: map<FileId, Path>, id: FileId, relative: Path)
      requires PathsDiffer(paths) && id !in paths
      requires forall x :: x in paths ==> !RelativeEq(paths[x], relative)
      ensures PathsDiffer(paths[id := relative])
    {
    }

    method RemoveIndexedId(k: Key, fileId: FileId)
      modifies this`relativeToId
      ensures relativeToId == Unfile(old(relativeToId), k, fileId)
    {
      if k in relativeToId {
        var rest := Others(relativeToId[k], fileId);
        relativeToId := if rest == [] then relativeToId - {k} else relativeToId[k := rest];
      }
    }

    /** Forgets an object and everything below it, verifiers included. */
    method ForgetPrefix(prefix: Path) returns (r: Outcome<()>)
      requires Valid()
      modifies this`idToRelative, this`idToKey, this`relativeToId, this`exclusiveVerifiers
      ensures Valid()
      ensures ForgetStep(key, old(Now()), prefix, Now(), r)
      ensures r.BadName? ==> exclusiveVerifiers == old(exclusiveVerifiers)
      ensures r.Ok? ==>
                forall f :: Lookup(key, exclusiveVerifiers, f) ==
                            if FoldsOf(prefix) <= f then None else Lookup(key, old(exclusiveVerifiers), f)
    {
      hide IndexOk, VerifiersOk, PathsDiffer, RetainOutside, Lookup, KeyOfFolds;
      KeyIsComponentwise(key, prefix);
      var prefixKey := RelativeKey(key, prefix);
      if prefixKey.None? { return BadName; }
      var forgotten := set id | id in idToKey && prefixKey.value <= idToKey[id]
                                && id in idToRelative && StartsWith(idToRelative[id], prefix);
      KeyTestIsImplied(key, idToRelative, idToKey, relativeToId, prefix);
      ForgottenByIds(idToRelative, prefix, forgotten);
      ForgetAll(forgotten);
      RetainOutsideOk(key, exclusiveVerifiers, prefixKey.value, FoldsOf(prefix));
      ghost var buckets := exclusiveVerifiers;
      exclusiveVerifiers := RetainOutside(exclusiveVerifiers, prefixKey.value, FoldsOf(prefix));
      forall f ensures Lookup(key, exclusiveVerifiers, f) == if FoldsOf(prefix) <= f then None else Lookup(key, buckets, f) {
        RetainOutsideLookup(key, buckets, prefixKey.value, FoldsOf(prefix), f);
      }
      r := Ok(());
    }

    static lemma ForgottenByIds(paths: map<FileId, Path>, prefix: Path, forgotten: set<FileId>)
      requires forall id :: id in forgotten <==> id in paths && StartsWith(paths[id], prefix)
      ensures paths - forgotten == Forgotten(paths, prefix)
      ensures PathsDiffer(paths) ==> PathsDiffer(Forgotten(paths, prefix))
    {
      hide RelativeEq, StartsWith;
    }

    /** Selecting by key and path selects by path. */
    static lemma KeyTestIsImplied(key: KeyMap, paths: map<FileId, Path>, keys: map<FileId, Key>, ids: map<Key, seq<FileId>>,
                                  prefix: Path)
      requires IndexOk(key, paths, keys, ids) && RelativeKey(key, prefix).Some?
      ensures forall id :: id in paths && StartsWith(paths[id], prefix) ==>
                id in keys && RelativeKey(key, prefix).value <= keys[id]
    {
      hide KeyOfFolds;
      forall id | id in paths && StartsWith(paths[id], prefix) ensures RelativeKey(key, prefix).value <= keys[id] {
        PrefixKey(key, FoldsOf(paths[id]), FoldsOf(prefix));
      }
    }

    /** Removes identifiers one by one, in any order. */
    method ForgetAll(forgotten: set<FileId>)
      requires IndexOk(key, idToRelative, idToKey, relativeToId)
      requires forgotten <= idToRelative.Keys
      modifies this`idToRelative, this`idToKey, this`relativeToId
      ensures IndexOk(key, idToRelative, idToKey, relativeToId)
      ensures idToRelative == old(idToRelative) - forgotten
    {
      hide IndexOk, Unfile;
      var todo := forgotten;
      while todo != {}
        invariant todo <= forgotten
        invariant IndexOk(key, idToRelative, idToKey, relativeToId)
        invariant idToRelative == old(idToRelative) - (forgotten - todo)
        decreases todo
      {
        var fileId :| fileId in todo;
        IndexKeys(key, idToRelative, idToKey, relativeToId);
        UnfileOk(key, idToRelative, idToKey, relativeToId, fileId);
        OneMoreForgotten(old(idToRelative), forgotten, todo, fileId);
        var k := idToKey[fileId];
        idToRelative := idToRelative - {fileId};
        idToKey := idToKey - {fileId};
        RemoveIndexedId(k, fileId);
        todo := todo - {fileId};
      }
      assert forgotten - todo == forgotten;
    }

    static lemma OneMoreForgotten(paths: map<FileId, Path>, forgotten: set<FileId>, todo: set<FileId>, id: FileId)
      requires id in todo && todo <= forgotten
      ensures (paths - (forgotten - todo)) - {id} == paths - (forgotten - (todo - {id}))
    {
      assert (forgotten - todo) + {id} == forgotten - (todo - {id});
    }

    /** Subtree renaming. */
    method MovePrefix(from: Path, to: Path) returns (r: Outcome<()>)
      requires Valid()
      modifies this`idToRelative, this`idToKey, this`relativeToId, this`exclusiveVerifiers
      ensures Valid()
      ensures MoveStep(key, old(Now()), from, to, Now(), r)
      ensures r.BadName? ==> exclusiveVerifiers == old(exclusiveVerifiers)
      ensures r.Ok? ==> VerifiersFollow(key, old(exclusiveVerifiers), exclusiveVerifiers, old(idToRelative), from, to)
    {
      hide IndexOk, VerifiersOk, PathsDiffer, RelativeKey, Carried, VerifiersFollow, Moved, PartlyMoved, Lookup, Travels, Travelers, FoldsOf, Cleared;
      KeyIsComponentwise(key, from);
      KeyIsComponentwise(key, to);
      var fromKey, toKey := RelativeKey(key, from), RelativeKey(key, to);
      if fromKey.None? || toKey.None? { return BadName; }
      if !RelativeEq(from, to) {
        var forgot := ForgetPrefix(to);
      }
      ghost var live, cleared := idToRelative, exclusiveVerifiers;
      var moved := set id | id in idToKey && fromKey.value <= idToKey[id]
                            && id in idToRelative && StartsWith(idToRelative[id], from);
      KeyTestIsImplied(key, idToRelative, idToKey, relativeToId, from);
      FullyMoved(old(idToRelative), idToRelative, moved, from, to);
      CollectedTravel(old(idToRelative), idToRelative, moved, from, to);
      MovedPathsDiffer(old(idToRelative), from, to);
      ClearedByForgetting(key, old(exclusiveVerifiers), exclusiveVerifiers, from, to);
      MoveAll(moved, from, to, fromKey.value, toKey.value);
      CarriedFollows(key, old(exclusiveVerifiers), cleared, exclusiveVerifiers, old(idToRelative), live, from, to);
      MovedIds(old(idToRelative), from, to);
      r := Ok(());
    }

    static lemma ClearedByForgetting(key: KeyMap, before: map<Key, Bucket>, cleared: map<Key, Bucket>, from: Path, to: Path)
      requires forall f :: Lookup(key, cleared, f) ==
                 if !RelativeEq(from, to) && FoldsOf(to) <= f then None else Lookup(key, before, f)
      ensures Cleared(key, cleared, from, to)
    {
    }

    static lemma MovedIds(paths: map<FileId, Path>, from: Path, to: Path)
      ensures forall id :: id in Moved(paths, from, to) ==> id in paths
    {
    }

    /** Renames the collected identifiers one by one, in any order. */
    method MoveAll(moved: set<FileId>, from: Path, to: Path, fromKey: Key, toKey: Key)
      requires IndexOk(key, idToRelative, idToKey, relativeToId)
      requires PathsDiffer(idToRelative) && VerifiersOk(key, exclusiveVerifiers)
      requires RelativeKey(key, from) == Some(fromKey) && RelativeKey(key, to) == Some(toKey)
      requires Cleared(key, exclusiveVerifiers, from, to)
      requires forall id :: id in moved ==> id in idToRelative && Travels(idToRelative[id], from, to)
      modifies this`idToRelative, this`idToKey, this`relativeToId, this`exclusiveVerifiers
      ensures IndexOk(key, idToRelative, idToKey, relativeToId)
      ensures idToRelative == PartlyMoved(old(idToRelative), moved, from, to)
      ensures VerifiersOk(key, exclusiveVerifiers)
      ensures Carried(key, old(exclusiveVerifiers), exclusiveVerifiers, old(idToRelative), moved, from, to)
    {
      hide IndexOk, PathsDiffer, VerifiersOk, Carried, Cleared, RelativeKey, Travels, MovedPath;
      ghost var paths, before := idToRelative, exclusiveVerifiers;
      ghost var done: set<FileId> := {};
      var todo := moved;
      NothingCarried(key, before, paths, from, to);
      while todo != {}
        invariant done + todo == moved && done !! todo
        invariant IndexOk(key, idToRelative, idToKey, relativeToId)
        invariant idToRelative == PartlyMoved(paths, done, from, to)
        invariant VerifiersOk(key, exclusiveVerifiers)
        invariant Carried(key, before, exclusiveVerifiers, paths, done, from, to)
        decreases todo
      {
        var fileId :| fileId in todo;
        assert paths[fileId] == idToRelative[fileId];
        MoveOne(fileId, from, to, fromKey, toKey, before, paths, done);
        assert PartlyMoved(paths, done, from, to)[fileId := MovedPath(paths[fileId], from, to)]
            == PartlyMoved(paths, done + {fileId}, from, to);
        done := done + {fileId};
        todo := todo - {fileId};
      }
      assert done == moved;
    }

    static lemma NothingCarried(key: KeyMap, buckets: map<Key, Bucket>, paths: map<FileId, Path>, from: Path, to: Path)
      ensures Carried(key, buckets, buckets, paths, {}, from, to)
    {
    }

    method MoveOne(fileId: FileId, from: Path, to: Path, fromKey: Key, toKey: Key,
                   ghost before: map<Key, Bucket>, ghost paths: map<FileId, Path>, ghost done: set<FileId>)
      requires IndexOk(key, idToRelative, idToKey, relativeToId) && VerifiersOk(key, exclusiveVerifiers)
      requires PathsDiffer(paths) && Cleared(key, before, from, to)
      requires RelativeKey(key, from) == Some(fromKey) && RelativeKey(key, to) == Some(toKey)
      requires forall x :: x in done + {fileId} ==> x in paths && Travels(paths[x], from, to)
      requires fileId in idToRelative && idToRelative[fileId] == paths[fileId]
      requires fileId !in done && Carried(key, before, exclusiveVerifiers, paths, done, from, to)
      modifies this`idToRelative, this`idToKey, this`relativeToId, this`exclusiveVerifiers
      ensures IndexOk(key, idToRelative, idToKey, relativeToId) && VerifiersOk(key, exclusiveVerifiers)
      ensures idToRelative == old(idToRelative)[fileId := MovedPath(paths[fileId], from, to)]
      ensures Carried(key, before, exclusiveVerifiers, paths, done + {fileId}, from, to)
    {
      hide IndexOk, VerifiersOk, Carried, Cleared, PathsDiffer, RelativeKey, Lookup, TakeAt, Unfile, Overwritten;
      IndexKeys(key, idToRelative, idToKey, relativeToId);
      var oldKey := idToKey[fileId];
      var oldRelative := idToRelative[fileId];
      RenamedKey(key, oldRelative, from, to, oldKey, fromKey, toKey);
      var newRelative := to + oldRelative[|from|..];
      var newKey := toKey + oldKey[|fromKey|..];
      RefileOk(key, idToRelative, idToKey, relativeToId, fileId, newRelative, newKey);
      CarryOneOk(key, before, exclusiveVerifiers, paths, done, from, to, fileId, oldKey, newKey);
      ghost var buckets := exclusiveVerifiers;

      idToRelative := idToRelative[fileId := newRelative];
      idToKey := idToKey[fileId := newKey];
      RemoveIndexedId(oldKey, fileId);
      relativeToId := relativeToId[newKey := (if newKey in relativeToId then relativeToId[newKey] else []) + [fileId]];
      var verifier := TakeExclusiveVerifier(oldKey, oldRelative);
      if verifier.Some? {
        exclusiveVerifiers := exclusiveVerifiers[newKey :=
            (if newKey in exclusiveVerifiers then exclusiveVerifiers[newKey] else []) + [(newRelative, verifier.value)]];
      }
      CarriedGrows(key, before, buckets, exclusiveVerifiers, paths, done, from, to, fileId);
    }

    /** Removes and returns the verifier of a path. */
    method TakeExclusiveVerifier(k: Key, relative: Path) returns (verifier: Option<Verifier>)
      requires VerifiersOk(key, exclusiveVerifiers) && RelativeKey(key, relative) == Some(k)
      modifies this`exclusiveVerifiers
      ensures verifier == Lookup(key, old(exclusiveVerifiers), FoldsOf(relative))
      ensures exclusiveVerifiers == TakeAt(old(exclusiveVerifiers), k, FoldsOf(relative))
    {
      hide KeyOfFolds, Find, Except, FoldsOf;
      verifier := None;
      if k in exclusiveVerifiers {
        var kept;
        verifier, kept := SplitBucket(exclusiveVerifiers[k], FoldsOf(relative));
        exclusiveVerifiers := if kept == [] then exclusiveVerifiers - {k} else exclusiveVerifiers[k := kept];
      }
    }

    /** One pass over a bucket: the verifier of a path, and the others in their order. */
    static method SplitBucket(bucket: Bucket, f: Folds) returns (verifier: Option<Verifier>, kept: Bucket)
      requires forall i, j :: 0 <= i < j < |bucket| ==> !RelativeEq(bucket[i].0, bucket[j].0)
      ensures verifier == Find(bucket, f) && kept == Except(bucket, f)
    {
      verifier, kept := None, [];
      var i := 0;
      assert bucket[..0] == [];
      while i < |bucket|
        invariant 0 <= i <= |bucket|
        invariant kept == Except(bucket[..i], f)
        invariant verifier == Find(bucket[..i], f)
      {
        assert bucket[..i + 1] == bucket[..i] + [bucket[i]];
        ExceptAppend(bucket[..i], bucket[i], f);
        FindAppend(bucket[..i], bucket[i], f);
        FindMember(bucket[..i], f);
        if FoldsOf(bucket[i].0) == f {
          verifier := Some(bucket[i].1);
        } else {
          kept := kept + [bucket[i]];
        }
        i := i + 1;
      }
      assert bucket[..i] == bucket;
    }

    method ExclusiveVerifier(relative: Path) returns (r: Outcome<Option<Verifier>>)
      requires Valid()
      ensures r.BadName? <==> !Keyed(key, relative)
      ensures r.Ok? ==> r.value == Lookup(key, exclusiveVerifiers, FoldsOf(relative))
    {
      KeyIsComponentwise(key, relative);
      var k := RelativeKey(key, relative);
      if k.None? { return BadName; }
      if k.value !in exclusiveVerifiers { return Ok(None); }
      var bucket := exclusiveVerifiers[k.value];
      var f := FoldsOf(relative);
      var i := 0;
      hide KeyOfFolds;
      while i < |bucket|
        invariant 0 <= i <= |bucket|
        invariant Find(bucket[i..], f) == Find(bucket, f)
      {
        assert bucket[i..][1..] == bucket[i + 1..];
        if FoldsOf(bucket[i].0) == f { return Ok(Some(bucket[i].1)); }
        i := i + 1;
      }
      r := Ok(None);
    }

    /** Remembers the verifier of an exclusive create, replacing an older one. */
    method RememberExclusiveVerifier(relative: Path, verifier: Verifier) returns (r: Outcome<()>)
      requires Valid()
      modifies this`exclusiveVerifiers
      ensures Valid()
      ensures r.BadName? <==> !Keyed(key, relative)
      ensures r.BadName? ==> exclusiveVerifiers == old(exclusiveVerifiers)
      ensures r.Ok? ==>
                forall f :: Lookup(key, exclusiveVerifiers, f) ==
                            if f == FoldsOf(relative) then Some(verifier) else Lookup(key, old(exclusiveVerifiers), f)
    {
      hide IndexOk, PathsDiffer, VerifiersOk, Lookup, KeyOfFolds;
      KeyIsComponentwise(key, relative);
      var k := RelativeKey(key, relative);
      if k.None? { return BadName; }
      ghost var before, f := exclusiveVerifiers, FoldsOf(relative);
      var bucket := if k.value in exclusiveVerifiers then exclusiveVerifiers[k.value] else [];
      exclusiveVerifiers := exclusiveVerifiers[k.value := Except(bucket, FoldsOf(relative)) + [(relative, verifier)]];
      ghost var taken := TakeAt(before, k.value, f);
      TakeAtOk(key, before, k.value, f);
      TakeAtLookup(key, before, k.value, f, f);
      PutAtOk(key, taken, k.value, relative, verifier);
      assert exclusiveVerifiers == PutAt(taken, k.value, relative, verifier);
      forall g ensures Lookup(key, exclusiveVerifiers, g) == if g == f then Some(verifier) else Lookup(key, before, g) {
        TakeAtLookup(key, before, k.value, f, g);
        PutAtLookup(key, taken, k.value, relative, verifier, g);
      }
      r := Ok(());
    }
  }
}
