/** The demonstration backend (examples/demo.rs): a vector of objects whose directories
    hold lists of child IDs. `create` grows the tree; `readdir` pages through one list. */
module DemoListing {
  import opened Sequences
  import opened BigEndian
  import opened Replies
  import opened Results
  import opened ReadDirSelection
  import Arguments

  const GENERATION: u64 := 1
  const READDIR_VERIFIER: Verifier := [0x44, 0x45, 0x4d, 0x4f, 0x44, 0x49, 0x52, 0x31]

  datatype ObjectKey = ObjectKey(fileId: u64, generation: u64)
  datatype NfsError = Stale | NotDirectory | Exists | BadCookie
  datatype Outcome<+T> = Success(value: T) | Failure(error: NfsError)

  datatype Contents = FileContents(bytes: seq<byte>) | Children(ids: seq<u64>)
  datatype Node = Node(
    id: u64, attributes: FileAttributes, name: seq<byte>, parent: u64, contents: Contents,
    exclusiveVerifier: Option<seq<byte>>)

  // --------------------------------------------------------------------------- the tree

  predicate IsDirectory(nodes: seq<Node>, d: int) {
    0 <= d < |nodes| && nodes[d].contents.Children?
  }

  /** Every child of `d` exists, is listed once, names `d` as its parent, and no two
      children share a name. */
  ghost predicate DirectoryOk(nodes: seq<Node>, d: int)
    requires IsDirectory(nodes, d)
  {
    var ids := nodes[d].contents.ids;
    && (forall i :: 0 <= i < |ids| ==> ids[i] < |nodes| && nodes[ids[i]].parent == d)
    && (forall i, j :: 0 <= i < j < |ids| ==> ids[i] != ids[j] && nodes[ids[i]].name != nodes[ids[j]].name)
  }

  ghost predicate TreeOk(nodes: seq<Node>) {
    && |nodes| < U64_BOUND
    && (forall i :: 0 <= i < |nodes| ==> nodes[i].id == i)
    && (forall d :: IsDirectory(nodes, d) ==> DirectoryOk(nodes, d))
  }

  function Ascii(s: string): (b: seq<byte>)
    requires forall i :: 0 <= i < |s| ==> s[i] < 128 as char
    ensures |b| == |s| && forall i :: 0 <= i < |s| ==> b[i] == s[i] as int
  {
    seq(|s|, i requires 0 <= i < |s| => s[i] as int)
  }

  /** The first child of that name. */
  function FindChild(nodes: seq<Node>, ids: seq<u64>, name: seq<byte>): (r: Option<u64>)
    ensures r.Some? ==> r.value in ids && r.value < |nodes| && nodes[r.value].name == name
    ensures r.None? ==> forall i :: 0 <= i < |ids| && ids[i] < |nodes| ==> nodes[ids[i]].name != name
  {
    if ids == [] then None
    else if ids[0] < |nodes| && nodes[ids[0]].name == name then Some(ids[0])
    else
      var r := FindChild(nodes, ids[1..], name);
      assert forall i :: 0 < i < |ids| ==> ids[i] == ids[1..][i - 1];
      r
  }

  // --------------------------------------------------------------------------- new files

  /** The readings of the clock in the order in which a creation takes them. */
  datatype Readings = Readings(
    made: NfsTime, access: NfsTime, modified: NfsTime, change: NfsTime, directory: NfsTime)

  function MakeFile(name: seq<byte>, id: u64, parent: u64, verifier: Option<seq<byte>>, time: NfsTime): Node {
    Node(id,
         FileAttributes(Regular, 0x1ed, 1, 507, 507, 0, 0, None, 0, id, time, time, time),
         name, parent, FileContents([]), verifier)
  }

  function Resized(bytes: seq<byte>, size: nat): (r: seq<byte>)
    ensures |r| == size
  {
    if size <= |bytes| then bytes[..size] else bytes + Zeros(size - |bytes|)
  }

  function Timed(requested: Option<Arguments.SetTime>, current: NfsTime, now: NfsTime): NfsTime {
    match requested
    case None => current
    case Some(ServerTime) => now
    case Some(ClientTime(time)) => time
  }

  /** The requested attributes applied to a file, which may always be resized. */
  function ApplyToFile(file: Node, a: Arguments.SetAttributes, t: Readings): Node
    requires file.contents.FileContents?
  {
    var was := file.attributes;
    var owned := was.(mode := if a.mode.Some? then a.mode.value else was.mode,
                       uid := if a.uid.Some? then a.uid.value else was.uid,
                       gid := if a.gid.Some? then a.gid.value else was.gid);
    var sized := if a.size.Some? then owned.(size := a.size.value, used := a.size.value) else owned;
    file.(contents := if a.size.Some? then FileContents(Resized(file.contents.bytes, a.size.value)) else file.contents,
          attributes := sized.(accessTime := Timed(a.accessTime, was.accessTime, t.access),
                               modifyTime := Timed(a.modifyTime, was.modifyTime, t.modified),
                               changeTime := t.change))
  }

  function NewFile(name: seq<byte>, id: u64, parent: u64, mode: Arguments.CreateMode, a: Arguments.SetAttributes,
                   t: Readings): Node
  {
    ApplyToFile(MakeFile(name, id, parent, if mode.Exclusive? then Some(mode.verifier) else None, t.made), a, t)
  }

  /** What a creation gives a field of the attributes: the requested value, or what a fresh
      file has. */
  function Given<T>(requested: Option<T>, otherwise: T): T {
    if requested.Some? then requested.value else otherwise
  }

  /** A time is the client's or the server's at that moment as requested, and otherwise that
      of the file's making. */
  ghost predicate TimeAsRequested(requested: Option<Arguments.SetTime>, made: NfsTime, now: NfsTime, time: NfsTime) {
    && (requested.None? ==> time == made)
    && (requested == Some(Arguments.ServerTime) ==> time == now)
    && (requested.Some? && requested.value.ClientTime? ==> time == requested.value.time)
  }

  /** A new file is a regular file with one link and the requested size, all zero; mode,
      owner, group and times are the requested ones, or 0755, 507, 507 and the time of its
      making; and it remembers the verifier of an exclusive creation and no other. */
  lemma NewFileIsAsRequested(name: seq<byte>, id: u64, parent: u64, mode: Arguments.CreateMode,
                             a: Arguments.SetAttributes, t: Readings)
    ensures var file := NewFile(name, id, parent, mode, a, t);
            var size := Given(a.size, 0);
            && file.id == id && file.name == name && file.parent == parent
            && file.contents == FileContents(Zeros(size))
            && file.attributes == FileAttributes(Regular, Given(a.mode, 7 * 64 + 5 * 8 + 5), 1, Given(a.uid, 507),
                                                 Given(a.gid, 507), size, size, None, 0, id,
                                                 file.attributes.accessTime, file.attributes.modifyTime, t.change)
            && TimeAsRequested(a.accessTime, t.made, t.access, file.attributes.accessTime)
            && TimeAsRequested(a.modifyTime, t.made, t.modified, file.attributes.modifyTime)
            && (file.exclusiveVerifier.Some? <==> mode.Exclusive?)
            && (mode.Exclusive? ==> file.exclusiveVerifier.value == mode.verifier)
  {
    var size := Given(a.size, 0);
    assert [] + Zeros(size) == Zeros(size);
  }

  /** A creation changes the directory's list and change time, adds the file, and leaves
      every other object as it was. */
  lemma GrownIsExact(nodes: seq<Node>, d: nat, file: Node, changed: NfsTime, i: nat)
    requires IsDirectory(nodes, d) && |nodes| < U64_BOUND && i <= |nodes|
    ensures var grown := Grown(nodes, d, file, changed);
            && |grown| == |nodes| + 1
            && grown[|nodes|] == file
            && (i < |nodes| && i != d ==> grown[i] == nodes[i])
            && grown[d].contents == Children(nodes[d].contents.ids + [|nodes|])
            && grown[d].attributes.changeTime == changed
            && grown[d].(contents := nodes[d].contents,
                         attributes := grown[d].attributes.(changeTime := nodes[d].attributes.changeTime)) == nodes[d]
  {
  }

  /** The tree with one more file in directory `d`. */
  function Grown(nodes: seq<Node>, d: nat, file: Node, changed: NfsTime): seq<Node>
    requires IsDirectory(nodes, d) && |nodes| < U64_BOUND
  {
    var directory := nodes[d].(contents := Children(nodes[d].contents.ids + [|nodes|]),
                               attributes := nodes[d].attributes.(changeTime := changed));
    nodes[d := directory] + [file]
  }

  lemma GrownDirectory(nodes: seq<Node>, d: nat, file: Node, changed: NfsTime, e: int)
    requires TreeOk(nodes) && IsDirectory(nodes, d) && file.contents.FileContents? && file.parent == d
    requires FindChild(nodes, nodes[d].contents.ids, file.name).None?
    requires IsDirectory(Grown(nodes, d, file, changed), e)
    ensures DirectoryOk(Grown(nodes, d, file, changed), e)
  {
    hide FindChild;
    var grown := Grown(nodes, d, file, changed);
    var n := |nodes|;
    assert IsDirectory(nodes, e) && DirectoryOk(nodes, e);
    var ids := nodes[e].contents.ids;
    forall i | 0 <= i < n
      ensures grown[i].name == nodes[i].name && grown[i].parent == nodes[i].parent
    {
    }
    if e == d {
      assert grown[e].contents.ids == ids + [n] && grown[n] == file;
      ChildAdded(nodes, ids, d, file, grown);
    } else {
      assert grown[e].contents.ids == ids;
    }
  }

  lemma ChildAdded(nodes: seq<Node>, ids: seq<u64>, d: nat, file: Node, grown: seq<Node>)
    requires IsDirectory(nodes, d) && DirectoryOk(nodes, d) && ids == nodes[d].contents.ids
    requires |nodes| + 1 == |grown| <= U64_BOUND && grown[|nodes|] == file && file.parent == d
    requires grown[d].contents.Children? && grown[d].contents.ids == ids + [|nodes|]
    requires forall i :: 0 <= i < |nodes| ==> grown[i].name == nodes[i].name && grown[i].parent == nodes[i].parent
    requires forall i :: 0 <= i < |ids| && ids[i] < |nodes| ==> nodes[ids[i]].name != file.name
    ensures DirectoryOk(grown, d)
  {
    var all := grown[d].contents.ids;
    forall i | 0 <= i < |all|
      ensures all[i] < |grown| && grown[all[i]].parent == d
    {
    }
    forall i, j | 0 <= i < j < |all|
      ensures all[i] != all[j] && grown[all[i]].name != grown[all[j]].name
    {
      assert all[i] == ids[i];
    }
  }

  /** The tree every instance starts with; object 0 is never used. */
  function DefaultNodes(attributes: FileAttributes): seq<Node> {
    [
      Node(0, attributes, [], 0, FileContents([]), None),
      Node(1, attributes, Ascii("/"), 1, Children([2, 3, 4]), None),
      Node(2, attributes, Ascii("a.txt"), 1, FileContents(Ascii("hello world\n")), None),
      Node(3, attributes, Ascii("b.txt"), 1, FileContents(Ascii("Greetings to xet data\n")), None),
      Node(4, attributes, Ascii("another_dir"), 1, Children([5]), None),
      Node(5, attributes, Ascii("thisworks.txt"), 4, FileContents(Ascii("i hope\n")), None)
    ]
  }

  lemma DefaultTreeOk(attributes: FileAttributes)
    ensures TreeOk(DefaultNodes(attributes))
  {
    hide Ascii;
    var nodes := DefaultNodes(attributes);
    assert nodes[2].name[0] == 0x61 && nodes[3].name[0] == 0x62;
    assert |nodes[2].name| == |nodes[3].name| == 5 && |nodes[4].name| == 11;
    assert DirectoryOk(nodes, 1);
    assert DirectoryOk(nodes, 4);
    assert forall d :: IsDirectory(nodes, d) ==> d == 1 || d == 4;
  }

  class DemoFs {
    var nodes: seq<Node>

    constructor (attributes: FileAttributes)
      ensures TreeOk(nodes) && nodes == DefaultNodes(attributes)
    {
      nodes := DefaultNodes(attributes);
      new;
      DefaultTreeOk(attributes);
    }

    /** CREATE. A name that exists is never made twice, an error changes nothing, and a new
        file carries the requested attributes. */
    method Create(parent: ObjectKey, name: seq<byte>, attributes: Arguments.SetAttributes, mode: Arguments.CreateMode,
                  t: Readings)
      returns (r: Outcome<u64>)
      requires TreeOk(nodes) && |nodes| + 1 < U64_BOUND
      modifies this
      ensures TreeOk(nodes)
      ensures r.Failure? ==> nodes == old(nodes)
      ensures var d := parent.fileId;
              if parent.generation != GENERATION || d >= |old(nodes)| then r == Failure(Stale)
              else if old(nodes)[d].contents.FileContents? then r == Failure(NotDirectory)
              else match FindChild(old(nodes), old(nodes)[d].contents.ids, name)
                case Some(existing) =>
                  && nodes == old(nodes)
                  && r == if mode.Unchecked?
                             || (mode.Exclusive? && old(nodes)[existing].exclusiveVerifier == Some(mode.verifier))
                          then Success(existing) else Failure(Exists)
                case None =>
                  && r == Success(|old(nodes)|)
                  && nodes == Grown(old(nodes), d, NewFile(name, |old(nodes)|, d, mode, attributes, t), t.directory)
    {
      if parent.generation != GENERATION {
        return Failure(Stale);
      }
      var d := parent.fileId;
      if d >= |nodes| {
        return Failure(Stale);
      }
      if nodes[d].contents.FileContents? {
        return Failure(NotDirectory);
      }
      hide ApplyToFile, MakeFile;
      var ids := nodes[d].contents.ids;
      var found := FindChild(nodes, ids, name);
      if found.Some? {
        var replayed := mode.Exclusive? && nodes[found.value].exclusiveVerifier == Some(mode.verifier);
        return if mode.Unchecked? || replayed then Success(found.value) else Failure(Exists);
      }
      ghost var before := nodes;
      var id := |nodes|;
      var file := MakeFile(name, id, d, if mode.Exclusive? then Some(mode.verifier) else None, t.made);
      assert file.contents.FileContents? by {
        MadeIsFile(name, id, d, if mode.Exclusive? then Some(mode.verifier) else None, t.made);
      }
      file := ApplyToFile(file, attributes, t);
      NewFileIsAsRequested(name, id, d, mode, attributes, t);
      nodes := nodes + [file];
      nodes := nodes[d := nodes[d].(contents := Children(ids + [id]))];
      nodes := nodes[d := nodes[d].(attributes := nodes[d].attributes.(changeTime := t.directory))];
      assert nodes == Grown(before, d, file, t.directory);
      forall e | IsDirectory(nodes, e)
        ensures DirectoryOk(nodes, e)
      {
        GrownDirectory(before, d, file, t.directory, e);
      }
      return Success(id);
    }
  }

  lemma MadeIsFile(name: seq<byte>, id: u64, parent: u64, verifier: Option<seq<byte>>, time: NfsTime)
    ensures MakeFile(name, id, parent, verifier, time).contents == FileContents([])
  {
  }

  // ------------------------------------------------------------------------- the listing

  function Describe(nodes: seq<Node>, handles: u64 -> Handle, id: u64, index: nat): DirectoryEntry
    requires id < |nodes| && index + 1 < U64_BOUND
  {
    DirectoryEntry(nodes[id].id, nodes[id].name, index + 1, Some(nodes[id].attributes), handles(nodes[id].id))
  }

  /** The next `count` children, an ID without an object being passed over. */
  function Collect(nodes: seq<Node>, handles: u64 -> Handle, ids: seq<u64>, from: nat, count: nat): seq<DirectoryEntry>
    requires from + count <= |ids| < U64_BOUND
    decreases count
  {
    if count == 0 then []
    else
      (if ids[from] < |nodes| then [Describe(nodes, handles, ids[from], from)] else [])
      + Collect(nodes, handles, ids, from + 1, count - 1)
  }

  function ReadDirectory(nodes: seq<Node>, handles: u64 -> Handle, directory: ObjectKey, cookie: u64,
                         verifier: Verifier, hint: nat): Outcome<Page>
    requires forall d :: IsDirectory(nodes, d) ==> |nodes[d].contents.ids| < U64_BOUND
  {
    if cookie != 0 && verifier != READDIR_VERIFIER then Failure(BadCookie)
    else if directory.generation != GENERATION || directory.fileId >= |nodes| then Failure(Stale)
    else if !nodes[directory.fileId].contents.Children? then Failure(NotDirectory)
    else
      assert IsDirectory(nodes, directory.fileId);
      var ids := nodes[directory.fileId].contents.ids;
      var start := Min(cookie, |ids|);
      var page := Collect(nodes, handles, ids, start, Min(Max(hint, 1), |ids| - start));
      Success(Page(READDIR_VERIFIER, page, cookie + |page| >= |ids|))
  }

  /** In a well-formed tree nothing is passed over, and each entry speaks of one object: its
      ID, name, attributes and handle, and the cookie after its place in the list. */
  lemma {:induction false} CollectIsComplete(nodes: seq<Node>, handles: u64 -> Handle, ids: seq<u64>,
                                             from: nat, count: nat)
    requires from + count <= |ids| < U64_BOUND
    requires forall i :: 0 <= i < |ids| ==> ids[i] < |nodes|
    ensures |Collect(nodes, handles, ids, from, count)| == count
    ensures forall i :: 0 <= i < count ==>
              var child := nodes[ids[from + i]];
              Collect(nodes, handles, ids, from, count)[i] ==
              DirectoryEntry(child.id, child.name, from + i + 1, Some(child.attributes), handles(child.id))
    decreases count
  {
    if count == 0 {
    } else {
      CollectIsComplete(nodes, handles, ids, from + 1, count - 1);
      var page, rest := Collect(nodes, handles, ids, from, count), Collect(nodes, handles, ids, from + 1, count - 1);
      forall i | 0 <= i < count
        ensures page[i] == Describe(nodes, handles, ids[from + i], from + i)
      {
        if i > 0 {
          assert page[i] == rest[i - 1];
        }
      }
    }
  }

  /** Distinct IDs below a bound are at most that many. */
  lemma FewChildren(nodes: seq<Node>, d: int)
    requires TreeOk(nodes) && IsDirectory(nodes, d)
    ensures |nodes[d].contents.ids| <= |nodes|
  {
    assert DirectoryOk(nodes, d);
    Bounded(nodes[d].contents.ids, |nodes|);
  }

  lemma {:induction false} Bounded(ids: seq<u64>, n: nat)
    requires forall i :: 0 <= i < |ids| ==> ids[i] < n
    requires forall i, j :: 0 <= i < j < |ids| ==> ids[i] != ids[j]
    ensures |ids| <= n
    decreases n
  {
    if ids == [] {
    } else {
      assert 0 <= ids[0] < n;
      if k :| 0 <= k < |ids| && ids[k] == n - 1 {
        var rest := ids[..k] + ids[k + 1..];
        assert forall i :: 0 <= i < |rest| ==> rest[i] == if i < k then ids[i] else ids[i + 1];
        Bounded(rest, n - 1);
      } else {
        Bounded(ids, n - 1);
      }
    }
  }
}
