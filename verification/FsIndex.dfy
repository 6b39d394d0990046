/** Paths of the mirror file system, the reverse index from path keys to file
    identifiers, and the buckets of exclusive-create verifiers
    (examples/mirrorfs.rs). */
module FsIndex {
  import opened Sequences

  /** A path component. `fold` identifies the component up to the host's notion of
      equality: on Unix every spelling has its own fold, on Windows spellings
      that differ in case share one. */
  datatype Component = Component(spelling: string, fold: nat)

  type Path = seq<Component>
  type Folds = seq<nat>
  type Key = seq<nat>
  type FileId = nat
  type Verifier = seq<byte>

  /** The host's key of one component: equal components have equal keys, unequal
      ones may collide, and some have none. */
  type KeyMap = nat -> Option<nat>

  function FoldsOf(p: Path): (f: Folds)
    ensures |f| == |p| && forall i :: 0 <= i < |p| ==> f[i] == p[i].fold
  {
    seq(|p|, i requires 0 <= i < |p| => p[i].fold)
  }

  predicate RelativeEq(a: Path, b: Path) {
    FoldsOf(a) == FoldsOf(b)
  }

  predicate StartsWith(p: Path, prefix: Path) {
    FoldsOf(prefix) <= FoldsOf(p)
  }

  function KeyOfFolds(key: KeyMap, f: Folds): (k: Option<Key>)
    ensures k.Some? ==> |k.value| == |f|
  {
    if f == [] then Some([])
    else
      match (KeyOfFolds(key, f[..|f| - 1]), key(f[|f| - 1]))
      case (Some(k), Some(c)) => Some(k + [c])
      case _ => None
  }

  function RelativeKey(key: KeyMap, p: Path): Option<Key> {
    KeyOfFolds(key, FoldsOf(p))
  }

  /** Every component has a key; the host refuses other paths. */
  ghost predicate Keyed(key: KeyMap, p: Path) {
    forall i :: 0 <= i < |p| ==> key(p[i].fold).Some?
  }

  // -------------------------------------------------------------------- keys

  lemma {:induction false} FoldsKey(key: KeyMap, f: Folds)
    ensures KeyOfFolds(key, f).Some? <==> forall i :: 0 <= i < |f| ==> key(f[i]).Some?
    ensures KeyOfFolds(key, f).Some? ==> forall i :: 0 <= i < |f| ==> key(f[i]) == Some(KeyOfFolds(key, f).value[i])
  {
    if f == [] {
    } else {
      var n := |f| - 1;
      FoldsKey(key, f[..n]);
      assert forall i :: 0 <= i < n ==> f[..n][i] == f[i];
    }
  }

  /** A path has a key exactly when each of its components has one, and then it is made of
      theirs, in order. */
  lemma KeyIsComponentwise(key: KeyMap, p: Path)
    ensures RelativeKey(key, p).Some? <==> Keyed(key, p)
    ensures RelativeKey(key, p).Some? ==>
              var k := RelativeKey(key, p).value;
              |k| == |p| && forall i :: 0 <= i < |p| ==> key(p[i].fold) == Some(k[i])
  {
    var f := FoldsOf(p);
    FoldsKey(key, f);
    if KeyOfFolds(key, f).Some? {
      forall i | 0 <= i < |p|
        ensures key(p[i].fold) == Some(KeyOfFolds(key, f).value[i])
      {
        assert key(f[i]).Some?;
      }
    } else {
      var i :| 0 <= i < |f| && key(f[i]).None?;
      assert key(p[i].fold).None?;
    }
  }

  /** A path has a key exactly when both of its parts have, and it is theirs. */
  lemma {:induction false} KeyConcat(key: KeyMap, f: Folds, g: Folds)
    ensures KeyOfFolds(key, f + g) ==
            match (KeyOfFolds(key, f), KeyOfFolds(key, g)) {
              case (Some(a), Some(b)) => Some(a + b)
              case _ => None
            }
    decreases |g|
  {
    if g == [] {
      assert f + g == f;
      if KeyOfFolds(key, f).Some? { assert KeyOfFolds(key, f).value + [] == KeyOfFolds(key, f).value; }
    } else {
      var n := |g| - 1;
      assert (f + g)[..|f + g| - 1] == f + g[..n];
      KeyConcat(key, f, g[..n]);
      var a, b, c := KeyOfFolds(key, f), KeyOfFolds(key, g[..n]), key(g[n]);
      if a.Some? && b.Some? && c.Some? {
        assert a.value + (b.value + [c.value]) == (a.value + b.value) + [c.value];
      }
    }
  }

  /** A path under a prefix has a key under the prefix's key, so the key test in
      the source never rejects what the path test accepts. */
  lemma PrefixKey(key: KeyMap, f: Folds, prefix: Folds)
    requires prefix <= f && KeyOfFolds(key, f).Some?
    ensures KeyOfFolds(key, prefix).Some?
    ensures KeyOfFolds(key, prefix).value <= KeyOfFolds(key, f).value
    ensures KeyOfFolds(key, f[|prefix|..]) == Some(KeyOfFolds(key, f).value[|prefix|..])
  {
    hide KeyOfFolds;
    var rest := f[|prefix|..];
    assert f == prefix + rest;
    KeyConcat(key, prefix, rest);
    var a, b := KeyOfFolds(key, prefix).value, KeyOfFolds(key, rest).value;
    assert (a + b)[|a|..] == b;
  }

  lemma FoldsConcat(p: Path, q: Path)
    ensures FoldsOf(p + q) == FoldsOf(p) + FoldsOf(q)
  {
  }

  // ---------------------------------------------------------- the reverse index

  /** Every live identifier has the key of its path. */
  ghost predicate KeysOk(key: KeyMap, paths: map<FileId, Path>, keys: map<FileId, Key>) {
    && keys.Keys == paths.Keys
    && (forall id :: id in paths ==> RelativeKey(key, paths[id]) == Some(keys[id]))
  }

  /** Every identifier is filed once, under its key, and every bucket is in use. */
  ghost predicate FiledOk(keys: map<FileId, Key>, ids: map<Key, seq<FileId>>) {
    && (forall k :: k in ids ==> ids[k] != [] && Distinct(ids[k]))
    && (forall k, id :: k in ids && id in ids[k] ==> id in keys && keys[id] == k)
    && (forall id :: id in keys ==> keys[id] in ids && id in ids[keys[id]])
  }

  ghost predicate IndexOk(key: KeyMap, paths: map<FileId, Path>, keys: map<FileId, Key>, ids: map<Key, seq<FileId>>) {
    KeysOk(key, paths, keys) && FiledOk(keys, ids)
  }

  function Unfile(ids: map<Key, seq<FileId>>, k: Key, id: FileId): map<Key, seq<FileId>> {
    if k in ids then
      var rest := Others(ids[k], id);
      if rest == [] then ids - {k} else ids[k := rest]
    else ids
  }

  function File(ids: map<Key, seq<FileId>>, k: Key, id: FileId): map<Key, seq<FileId>> {
    ids[k := (if k in ids then ids[k] else []) + [id]]
  }

  function Others(bucket: seq<FileId>, id: FileId): seq<FileId> {
    Keep(bucket, (set x | x in bucket) - {id})
  }

  lemma OthersMembers(bucket: seq<FileId>, id: FileId)
    ensures forall x :: x in Others(bucket, id) <==> x in bucket && x != id
    ensures Distinct(bucket) ==> Distinct(Others(bucket, id))
  {
    KeepMembers(bucket, (set x | x in bucket) - {id});
    if Distinct(bucket) { KeepDistinct(bucket, (set x | x in bucket) - {id}); }
  }

  lemma UnfileKeepsFiled(keys: map<FileId, Key>, ids: map<Key, seq<FileId>>, id: FileId)
    requires FiledOk(keys, ids) && id in keys
    ensures FiledOk(keys - {id}, Unfile(ids, keys[id], id))
  {
    hide Keep, Others, Distinct;
    var k := keys[id];
    var ids' := Unfile(ids, k, id);
    OthersMembers(ids[k], id);
    assert forall k' :: k' in ids' && k' != k ==> k' in ids && ids'[k'] == ids[k'];
    assert k in ids' ==> ids'[k] == Others(ids[k], id);
    assert k !in ids' ==> Others(ids[k], id) == [];
    hide Unfile;
    forall x | x in keys - {id} ensures keys[x] in ids' && x in ids'[keys[x]] {
      assert x in ids[keys[x]];
      if keys[x] == k { assert x in Others(ids[k], id); }
    }
  }

  lemma UnfileOk(key: KeyMap, paths: map<FileId, Path>, keys: map<FileId, Key>, ids: map<Key, seq<FileId>>, id: FileId)
    requires IndexOk(key, paths, keys, ids) && id in paths
    ensures IndexOk(key, paths - {id}, keys - {id}, Unfile(ids, keys[id], id))
  {
    hide FiledOk, Unfile, RelativeKey;
    UnfileKeepsFiled(keys, ids, id);
  }

  lemma FileKeepsFiled(keys: map<FileId, Key>, ids: map<Key, seq<FileId>>, id: FileId, k: Key)
    requires FiledOk(keys, ids) && id !in keys
    ensures FiledOk(keys[id := k], File(ids, k, id))
  {
    if k in ids {
      assert id !in ids[k];
      DistinctAppend(ids[k], id);
    }
    assert forall x :: x in File(ids, k, id)[k] <==> x == id || (k in ids && x in ids[k]);
    hide Distinct;
  }

  lemma FileOk(key: KeyMap, paths: map<FileId, Path>, keys: map<FileId, Key>, ids: map<Key, seq<FileId>>,
               id: FileId, p: Path, k: Key)
    requires IndexOk(key, paths, keys, ids) && id !in paths && RelativeKey(key, p) == Some(k)
    ensures IndexOk(key, paths[id := p], keys[id := k], File(ids, k, id))
  {
    hide FiledOk, File, RelativeKey;
    FileKeepsFiled(keys, ids, id, k);
  }

  lemma IndexKeys(key: KeyMap, paths: map<FileId, Path>, keys: map<FileId, Key>, ids: map<Key, seq<FileId>>)
    requires IndexOk(key, paths, keys, ids)
    ensures keys.Keys == paths.Keys
    ensures forall id :: id in paths ==> RelativeKey(key, paths[id]) == Some(keys[id])
  {
  }

  lemma RefileOk(key: KeyMap, paths: map<FileId, Path>, keys: map<FileId, Key>, ids: map<Key, seq<FileId>>,
                 id: FileId, p: Path, k: Key)
    requires IndexOk(key, paths, keys, ids) && id in paths && RelativeKey(key, p) == Some(k)
    ensures id in keys && IndexOk(key, paths[id := p], keys[id := k], File(Unfile(ids, keys[id], id), k, id))
  {
    hide FiledOk, KeysOk, File, Unfile, RelativeKey;
    IndexKeys(key, paths, keys, ids);
    UnfileOk(key, paths, keys, ids, id);
    FileOk(key, paths - {id}, keys - {id}, Unfile(ids, keys[id], id), id, p, k);
    assert (paths - {id})[id := p] == paths[id := p];
    assert (keys - {id})[id := k] == keys[id := k];
  }

  /** No two live identifiers name the same object. */
  ghost predicate PathsDiffer(paths: map<FileId, Path>) {
    forall x, y :: x in paths && y in paths && x != y ==> !RelativeEq(paths[x], paths[y])
  }

  // ----------------------------------------------------------------- verifiers

  type Bucket = seq<(Path, Verifier)>

  /** The entries of a bucket share its key and name different paths. */
  ghost predicate BucketOk(key: KeyMap, k: Key, bucket: Bucket) {
    && (forall i :: 0 <= i < |bucket| ==> RelativeKey(key, bucket[i].0) == Some(k))
    && (forall i, j :: 0 <= i < j < |bucket| ==> !RelativeEq(bucket[i].0, bucket[j].0))
  }

  ghost predicate VerifiersOk(key: KeyMap, buckets: map<Key, Bucket>) {
    forall k :: k in buckets ==> buckets[k] != [] && BucketOk(key, k, buckets[k])
  }

  function Find(bucket: Bucket, f: Folds): Option<Verifier> {
    if bucket == [] then None
    else if FoldsOf(bucket[0].0) == f then Some(bucket[0].1)
    else Find(bucket[1..], f)
  }

  /** The verifier remembered for a path. */
  function Lookup(key: KeyMap, buckets: map<Key, Bucket>, f: Folds): Option<Verifier> {
    match KeyOfFolds(key, f)
    case None => None
    case Some(k) => if k in buckets then Find(buckets[k], f) else None
  }

  /** The bucket without the entries at or below `prefix`. */
  function Outside(bucket: Bucket, prefix: Folds): Bucket {
    if bucket == [] then []
    else (if prefix <= FoldsOf(bucket[0].0) then [] else [bucket[0]]) + Outside(bucket[1..], prefix)
  }

  /** The bucket without the entries for exactly `f`. */
  function Except(bucket: Bucket, f: Folds): Bucket {
    if bucket == [] then []
    else (if FoldsOf(bucket[0].0) == f then [] else [bucket[0]]) + Except(bucket[1..], f)
  }

  lemma {:induction false} FindMember(bucket: Bucket, f: Folds)
    ensures Find(bucket, f).None? <==> forall i :: 0 <= i < |bucket| ==> FoldsOf(bucket[i].0) != f
    ensures Find(bucket, f).Some? ==> exists i :: 0 <= i < |bucket| && FoldsOf(bucket[i].0) == f && bucket[i].1 == Find(bucket, f).value
  {
    if bucket == [] {
    } else {
      FindMember(bucket[1..], f);
      if Find(bucket, f).Some? && FoldsOf(bucket[0].0) != f {
        var i :| 0 <= i < |bucket[1..]| && FoldsOf(bucket[1..][i].0) == f && bucket[1..][i].1 == Find(bucket, f).value;
        assert bucket[i + 1] == bucket[1..][i];
      }
    }
  }

  lemma {:induction false} OutsideFinds(bucket: Bucket, prefix: Folds, f: Folds)
    ensures Find(Outside(bucket, prefix), f) == if prefix <= f then None else Find(bucket, f)
  {
    if bucket == [] {
    } else {
      OutsideFinds(bucket[1..], prefix, f);
      var rest := Outside(bucket[1..], prefix);
      assert ([bucket[0]] + rest)[1..] == rest && [] + rest == rest;
    }
  }

  lemma {:induction false} ExceptFinds(bucket: Bucket, f: Folds, g: Folds)
    ensures Find(Except(bucket, f), g) == if f == g then None else Find(bucket, g)
  {
    if bucket == [] {
    } else {
      ExceptFinds(bucket[1..], f, g);
      var rest := Except(bucket[1..], f);
      assert ([bucket[0]] + rest)[1..] == rest && [] + rest == rest;
    }
  }

  lemma {:induction false} OutsideMember(bucket: Bucket, prefix: Folds, x: (Path, Verifier))
    requires x in Outside(bucket, prefix)
    ensures x in bucket
  {
    if x == bucket[0] {
    } else {
      OutsideMember(bucket[1..], prefix, x);
    }
  }

  lemma {:induction false} ExceptMember(bucket: Bucket, f: Folds, x: (Path, Verifier))
    requires x in Except(bucket, f)
    ensures x in bucket
  {
    if x == bucket[0] {
    } else {
      ExceptMember(bucket[1..], f, x);
    }
  }

  lemma BucketCons(key: KeyMap, k: Key, x: (Path, Verifier), rest: Bucket, all: Bucket)
    requires BucketOk(key, k, [x] + all) && BucketOk(key, k, rest)
    requires forall y :: y in rest ==> y in all
    ensures BucketOk(key, k, [x] + rest)
  {
    hide RelativeKey, RelativeEq;
    var whole := [x] + all;
    assert whole[0] == x;
    forall j | 0 <= j < |rest| ensures !RelativeEq(x.0, rest[j].0) {
      assert rest[j] in all;
      var i :| 0 <= i < |all| && all[i] == rest[j];
      assert whole[i + 1] == rest[j];
    }
  }

  lemma {:induction false} OutsideOk(key: KeyMap, k: Key, bucket: Bucket, prefix: Folds)
    requires BucketOk(key, k, bucket)
    ensures BucketOk(key, k, Outside(bucket, prefix))
  {
    hide RelativeKey, RelativeEq;
    if bucket == [] {
    } else {
      var rest := Outside(bucket[1..], prefix);
      OutsideOk(key, k, bucket[1..], prefix);
      assert bucket == [bucket[0]] + bucket[1..];
      forall y | y in rest ensures y in bucket[1..] { OutsideMember(bucket[1..], prefix, y); }
      BucketCons(key, k, bucket[0], rest, bucket[1..]);
      assert [] + rest == rest;
    }
  }

  lemma {:induction false} ExceptOk(key: KeyMap, k: Key, bucket: Bucket, f: Folds)
    requires BucketOk(key, k, bucket)
    ensures BucketOk(key, k, Except(bucket, f))
  {
    hide RelativeKey, RelativeEq;
    if bucket == [] {
    } else {
      var rest := Except(bucket[1..], f);
      ExceptOk(key, k, bucket[1..], f);
      assert bucket == [bucket[0]] + bucket[1..];
      forall y | y in rest ensures y in bucket[1..] { ExceptMember(bucket[1..], f, y); }
      BucketCons(key, k, bucket[0], rest, bucket[1..]);
      assert [] + rest == rest;
    }
  }

  lemma {:induction false} AppendFinds(bucket: Bucket, p: Path, v: Verifier, g: Folds)
    requires Find(bucket, FoldsOf(p)) == None
    ensures Find(bucket + [(p, v)], g) == if g == FoldsOf(p) then Some(v) else Find(bucket, g)
  {
    if bucket == [] {
    } else {
      assert (bucket + [(p, v)])[1..] == bucket[1..] + [(p, v)];
      AppendFinds(bucket[1..], p, v, g);
    }
  }

  // ------------------------------------------------- updates of the verifier buckets

  function KeptIn(bucket: Bucket, k: Key, prefixKey: Key, prefix: Folds): Bucket {
    if prefixKey <= k then Outside(bucket, prefix) else bucket
  }

  function RetainOutside(buckets: map<Key, Bucket>, prefixKey: Key, prefix: Folds): map<Key, Bucket> {
    map k | k in buckets && KeptIn(buckets[k], k, prefixKey, prefix) != [] :: KeptIn(buckets[k], k, prefixKey, prefix)
  }

  lemma RetainOutsideOk(key: KeyMap, buckets: map<Key, Bucket>, prefixKey: Key, prefix: Folds)
    requires VerifiersOk(key, buckets)
    ensures VerifiersOk(key, RetainOutside(buckets, prefixKey, prefix))
  {
    forall k | k in RetainOutside(buckets, prefixKey, prefix)
      ensures BucketOk(key, k, RetainOutside(buckets, prefixKey, prefix)[k])
    {
      hide BucketOk;
      OutsideOk(key, k, buckets[k], prefix);
    }
  }

  lemma RetainOutsideLookup(key: KeyMap, buckets: map<Key, Bucket>, prefixKey: Key, prefix: Folds, f: Folds)
    requires KeyOfFolds(key, prefix) == Some(prefixKey)
    ensures Lookup(key, RetainOutside(buckets, prefixKey, prefix), f) ==
            if prefix <= f then None else Lookup(key, buckets, f)
  {
    hide KeyOfFolds;
    match KeyOfFolds(key, f)
    case None =>
    case Some(k) =>
      if prefix <= f { PrefixKey(key, f, prefix); }
      if k in buckets { OutsideFinds(buckets[k], prefix, f); }
  }

  /** The buckets without the entry for `f`, whose key is `k`. */
  function TakeAt(buckets: map<Key, Bucket>, k: Key, f: Folds): map<Key, Bucket> {
    if k in buckets then
      var rest := Except(buckets[k], f);
      if rest == [] then buckets - {k} else buckets[k := rest]
    else buckets
  }

  lemma TakeAtOk(key: KeyMap, buckets: map<Key, Bucket>, k: Key, f: Folds)
    requires VerifiersOk(key, buckets)
    ensures VerifiersOk(key, TakeAt(buckets, k, f))
  {
    hide BucketOk;
    if k in buckets { ExceptOk(key, k, buckets[k], f); }
  }

  lemma TakeAtLookup(key: KeyMap, buckets: map<Key, Bucket>, k: Key, f: Folds, g: Folds)
    requires KeyOfFolds(key, f) == Some(k)
    ensures Lookup(key, TakeAt(buckets, k, f), g) == if f == g then None else Lookup(key, buckets, g)
  {
    if k in buckets { ExceptFinds(buckets[k], f, g); }
  }

  function PutAt(buckets: map<Key, Bucket>, k: Key, p: Path, v: Verifier): map<Key, Bucket> {
    buckets[k := (if k in buckets then buckets[k] else []) + [(p, v)]]
  }

  lemma PutAtOk(key: KeyMap, buckets: map<Key, Bucket>, k: Key, p: Path, v: Verifier)
    requires VerifiersOk(key, buckets)
    requires RelativeKey(key, p) == Some(k) && Lookup(key, buckets, FoldsOf(p)) == None
    ensures VerifiersOk(key, PutAt(buckets, k, p, v))
  {
    hide KeyOfFolds, BucketOk, Find;
    var bucket := if k in buckets then buckets[k] else [];
    if k !in buckets {
      EmptyBucketOk(key, k, FoldsOf(p));
    }
    BucketGrows(key, k, bucket, p, v);
  }

  lemma EmptyBucketOk(key: KeyMap, k: Key, f: Folds)
    ensures BucketOk(key, k, []) && Find([], f) == None
  {
  }

  lemma BucketGrows(key: KeyMap, k: Key, bucket: Bucket, p: Path, v: Verifier)
    requires BucketOk(key, k, bucket) && RelativeKey(key, p) == Some(k) && Find(bucket, FoldsOf(p)) == None
    ensures BucketOk(key, k, bucket + [(p, v)])
  {
    hide KeyOfFolds;
    FindMember(bucket, FoldsOf(p));
  }

  lemma PutAtLookup(key: KeyMap, buckets: map<Key, Bucket>, k: Key, p: Path, v: Verifier, g: Folds)
    requires RelativeKey(key, p) == Some(k) && Lookup(key, buckets, FoldsOf(p)) == None
    ensures Lookup(key, PutAt(buckets, k, p, v), g) ==
            if g == FoldsOf(p) then Some(v) else Lookup(key, buckets, g)
  {
    hide KeyOfFolds;
    AppendFinds(if k in buckets then buckets[k] else [], p, v, g);
  }

  lemma {:induction false} FindAppend(bucket: Bucket, x: (Path, Verifier), f: Folds)
    ensures Find(bucket + [x], f) ==
            if Find(bucket, f).Some? then Find(bucket, f) else if FoldsOf(x.0) == f then Some(x.1) else None
  {
    if bucket == [] {
    } else {
      assert (bucket + [x])[1..] == bucket[1..] + [x];
      FindAppend(bucket[1..], x, f);
    }
  }

  lemma {:induction false} ExceptAppend(bucket: Bucket, x: (Path, Verifier), f: Folds)
    ensures Except(bucket + [x], f) == Except(bucket, f) + if FoldsOf(x.0) == f then [] else [x]
  {
    if bucket == [] {
    } else {
      assert (bucket + [x])[1..] == bucket[1..] + [x];
      ExceptAppend(bucket[1..], x, f);
    }
  }
}
