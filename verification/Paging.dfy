/** Following directory cookies: READDIR and READDIRPLUS calls against the demonstration
    backend, each continuing where the previous reply stopped. */
module Paging {
  import opened Sequences
  import opened BigEndian
  import opened Results
  import opened ReadDirSelection
  import opened ReadDirTheorems
  import ReadDirTrimming
  import opened DemoListing

  /** One call as the server sees it. `limit` is the smaller of the client's byte count
      and the configured response size; READDIRPLUS carries a second limit for the basic
      parts. `attributes` is what the backend says of the directory at that moment. */
  datatype Call = Call(plus: bool, cookie: u64, verifier: Verifier, directoryLimit: Option<nat>, limit: nat,
                       attributes: Option<FileAttributes>)

  /** How many entries the backend is asked for: as many as both limits hold at 32 bytes each,
      but one at least and 4096 at most. */
  function Hint(call: Call): (n: nat)
    ensures 1 <= n <= 4096
    ensures n > 1 ==> 32 * n <= call.limit && (call.directoryLimit.Some? ==> 32 * n <= call.directoryLimit.value)
    ensures n < 4096 ==> call.limit < 32 * (n + 1)
                         || (call.directoryLimit.Some? && call.directoryLimit.value < 32 * (n + 1))
  {
    var bytes := if call.directoryLimit.Some? then Min(call.directoryLimit.value, call.limit) else call.limit;
    Max(1, Min(bytes / 32, 4096))
  }

  function StatusOf(e: NfsError): u32 {
    match e
    case Stale => 70
    case NotDirectory => 20
    case Exists => 17
    case BadCookie => 10003
  }

  /** The answer to one call on the tree `nodes`. */
  ghost predicate Answers(nodes: seq<Node>, handles: u64 -> Handle, directory: ObjectKey, call: Call, c: Choice)
    requires TreeOk(nodes)
  {
    if call.limit < 20 then c == Chosen(ListingError(TOO_SMALL, None))
    else
      SmallDirectories(nodes);
      match ReadDirectory(nodes, handles, directory, call.cookie, call.verifier, Hint(call))
      case Failure(e) => c == Chosen(ListingError(StatusOf(e), None))
      case Success(page) => IsChoice(call.plus, call.attributes, page, call.directoryLimit, call.limit, c)
  }

  lemma SmallDirectories(nodes: seq<Node>)
    requires TreeOk(nodes)
    ensures forall d :: IsDirectory(nodes, d) ==> |nodes[d].contents.ids| < U64_BOUND
  {
    forall d | IsDirectory(nodes, d)
      ensures |nodes[d].contents.ids| < U64_BOUND
    {
      FewChildren(nodes, d);
    }
  }

  /** The READDIR and READDIRPLUS arms of the dispatcher. */
  method Dispatch(fs: DemoFs, handles: u64 -> Handle, directory: ObjectKey, call: Call) returns (c: Choice)
    requires TreeOk(fs.nodes)
    ensures Answers(fs.nodes, handles, directory, call, c)
  {
    if call.limit < 20 {
      return Chosen(ListingError(TOO_SMALL, None));
    }
    SmallDirectories(fs.nodes);
    var page := ReadDirectory(fs.nodes, handles, directory, call.cookie, call.verifier, Hint(call));
    match page {
      case Failure(e) => return Chosen(ListingError(StatusOf(e), None));
      case Success(p) => c := Select(call.plus, call.attributes, p, call.directoryLimit, call.limit);
    }
  }

  // --------------------------------------------------------------------- one answer

  /** The children of an existing directory. */
  function ChildrenOf(nodes: seq<Node>, directory: ObjectKey): seq<u64>
    requires IsDirectory(nodes, directory.fileId)
  {
    nodes[directory.fileId].contents.ids
  }

  /** If an entry says more than the basics, it carries the attributes and the handle of the
      object it names. */
  ghost predicate OwnExtension(nodes: seq<Node>, handles: u64 -> Handle, id: u64, e: Entry)
    requires id < |nodes|
  {
    e.extension.Plus? ==> e.extension == Plus(Some(nodes[id].attributes), Some(handles(id)))
  }

  /** Entry `e` describes the child at `index`: its ID, its name, the cookie that continues
      after it, and no other object's attributes or handle. */
  ghost predicate Names(nodes: seq<Node>, handles: u64 -> Handle, ids: seq<u64>, index: int, e: Entry) {
    && 0 <= index < |ids| && ids[index] < |nodes|
    && e.fileId == ids[index] && e.name == nodes[ids[index]].name && e.cookie == index + 1
    && OwnExtension(nodes, handles, ids[index], e)
  }

  /** A listing answered at `cookie` names the children that follow, in order and without
      gaps, with attributes and handles exactly if the call asked for them; it is final
      exactly when it reaches the last child, and otherwise not empty. */
  ghost predicate Continues(nodes: seq<Node>, handles: u64 -> Handle, ids: seq<u64>, plus: bool, cookie: nat,
                            r: ReadDirResult) {
    && r.Listing?
    && r.verifier == READDIR_VERIFIER
    && cookie + |r.entries| <= |ids|
    && (forall i :: 0 <= i < |r.entries| ==> Names(nodes, handles, ids, cookie + i, r.entries[i]))
    && (forall i :: 0 <= i < |r.entries| ==> r.entries[i].extension.Plus? == plus)
    && (r.eof <==> cookie + |r.entries| == |ids|)
    && (!r.eof ==> r.entries != [])
  }

  ghost predicate Live(nodes: seq<Node>, directory: ObjectKey) {
    TreeOk(nodes) && directory.generation == GENERATION && IsDirectory(nodes, directory.fileId)
  }

  /** The backend's page at a cookie it handed out. */
  lemma PageContinues(nodes: seq<Node>, handles: u64 -> Handle, directory: ObjectKey, cookie: u64, verifier: Verifier,
                      hint: nat, plus: bool, page: Page)
    requires Live(nodes, directory)
    requires cookie <= |ChildrenOf(nodes, directory)| && (cookie != 0 ==> verifier == READDIR_VERIFIER)
    requires |ChildrenOf(nodes, directory)| < U64_BOUND
    requires page == Page(READDIR_VERIFIER,
                          Collect(nodes, handles, ChildrenOf(nodes, directory), cookie,
                                  Min(Max(hint, 1), |ChildrenOf(nodes, directory)| - cookie)),
                          cookie + |page.entries| >= |ChildrenOf(nodes, directory)|)
    ensures var ids := ChildrenOf(nodes, directory);
            && cookie + |page.entries| <= |ids|
            && (forall i :: 0 <= i < |page.entries| ==>
                  Names(nodes, handles, ids, cookie + i, TypedEntry(plus, page.entries[i])))
            && (page.eof <==> cookie + |page.entries| == |ids|)
            && (page.entries == [] ==> page.eof)
  {
    hide IsChoice;
    var ids := ChildrenOf(nodes, directory);
    assert DirectoryOk(nodes, directory.fileId);
    CollectIsComplete(nodes, handles, ids, cookie, Min(Max(hint, 1), |ids| - cookie));
  }

  /** Every answer at a cookie the backend handed out is a listing that continues there,
      TOOSMALL, or a failure to encode. The other errors cannot happen. */
  lemma EveryAnswer(nodes: seq<Node>, handles: u64 -> Handle, directory: ObjectKey, call: Call, c: Choice)
    requires Live(nodes, directory) && Answers(nodes, handles, directory, call, c)
    requires call.cookie <= |ChildrenOf(nodes, directory)|
    requires call.cookie != 0 ==> call.verifier == READDIR_VERIFIER
    ensures c.Chosen? ==>
              || Continues(nodes, handles, ChildrenOf(nodes, directory), call.plus, call.cookie, c.result)
              || (c.result.ListingError? && c.result.status == TOO_SMALL)
  {
    hide IsChoice, Collect, DirectoryOk;
    if call.limit >= 20 && c.Chosen? {
      SmallDirectories(nodes);
      var ids := ChildrenOf(nodes, directory);
      var page := ReadDirectory(nodes, handles, directory, call.cookie, call.verifier, Hint(call)).value;
      PageContinues(nodes, handles, directory, call.cookie, call.verifier, Hint(call), call.plus, page);
      ChoiceContinues(nodes, handles, ids, call, page, c.result);
    }
  }

  /** The other errors, by their numbers in RFC 1813: a limit too small for any listing is
      NFS3ERR_TOOSMALL, a cookie without the verifier handed out NFS3ERR_BAD_COOKIE, an
      unknown object NFS3ERR_STALE, and a file NFS3ERR_NOTDIR, in that order. */
  lemma EveryFailure(nodes: seq<Node>, handles: u64 -> Handle, directory: ObjectKey, call: Call, c: Choice)
    requires TreeOk(nodes) && Answers(nodes, handles, directory, call, c) && !Live(nodes, directory)
    ensures c == Chosen(ListingError(
                   if call.limit < 20 then 10005
                   else if call.cookie != 0 && call.verifier != Ascii("DEMODIR1") then 10003
                   else if directory.generation != 1 || directory.fileId >= |nodes| then 70
                   else 20, None))
  {
    hide IsChoice, Collect, DirectoryOk;
  }

  /** A cookie without the verifier handed out is refused for an existing directory too. */
  lemma StaleCookie(nodes: seq<Node>, handles: u64 -> Handle, directory: ObjectKey, call: Call, c: Choice)
    requires Live(nodes, directory) && Answers(nodes, handles, directory, call, c)
    requires call.limit >= 20 && call.cookie != 0 && call.verifier != Ascii("DEMODIR1")
    ensures c == Chosen(ListingError(10003, None))
  {
    hide IsChoice, Collect, DirectoryOk;
  }

  lemma ChoiceContinues(nodes: seq<Node>, handles: u64 -> Handle, ids: seq<u64>, call: Call, page: Page, r: ReadDirResult)
    requires IsChoice(call.plus, call.attributes, page, call.directoryLimit, call.limit, Chosen(r))
    requires page.verifier == READDIR_VERIFIER && call.cookie + |page.entries| <= |ids|
    requires forall i :: 0 <= i < |page.entries| ==>
               Names(nodes, handles, ids, call.cookie + i, TypedEntry(call.plus, page.entries[i]))
    requires page.eof <==> call.cookie + |page.entries| == |ids|
    requires page.entries == [] ==> page.eof
    ensures Continues(nodes, handles, ids, call.plus, call.cookie, r) || (r.ListingError? && r.status == TOO_SMALL)
  {
    hide IsChoice, Longest, Names, BasicEntry, TypedEntry, ReadDirBytes, ReadDirTrimming.ArmSize, Kept, Base;
    if r.Listing? {
      ListingIsLongest(call.plus, call.attributes, page, call.directoryLimit, call.limit, r);
      var k := |r.entries|;
      forall i | 0 <= i < k
        ensures Names(nodes, handles, ids, call.cookie + i, r.entries[i]) && r.entries[i].extension.Plus? == call.plus
      {
        TypedKind(call.plus, page.entries[i]);
        assert r.entries[i] == TypedEntry(call.plus, page.entries[i]);
      }
    } else {
      ErrorIsTooSmall(call, page, r);
    }
  }

  lemma TypedKind(plus: bool, d: DirectoryEntry)
    ensures TypedEntry(plus, d).extension.Plus? == plus
  {
  }

  lemma ErrorIsTooSmall(call: Call, page: Page, r: ReadDirResult)
    requires IsChoice(call.plus, call.attributes, page, call.directoryLimit, call.limit, Chosen(r))
    requires r.ListingError?
    ensures r.status == TOO_SMALL
  {
    hide Longest, Obstacle, PostAttributes;
  }

  // ---------------------------------------------------------------------- whole listings

  /** A client reads a directory that does not change: the first call starts at cookie 0,
      each further call continues with the last cookie and the verifier of the reply
      before it, and only after a reply that was not final. Limits, the kind of call and
      the reported attributes may differ from call to call. */
  ghost predicate Session(nodes: seq<Node>, handles: u64 -> Handle, directory: ObjectKey,
                          calls: seq<Call>, replies: seq<ReadDirResult>)
    requires TreeOk(nodes)
  {
    && |calls| == |replies|
    && (calls != [] ==> calls[0].cookie == 0)
    && (forall i :: 0 <= i < |calls| ==>
          replies[i].Listing? && Answers(nodes, handles, directory, calls[i], Chosen(replies[i])))
    && (forall i :: 0 < i < |calls| ==> Resumes(replies[i - 1], calls[i]))
  }

  ghost predicate Resumes(previous: ReadDirResult, call: Call) {
    && previous.Listing? && !previous.eof
    && (previous.entries != [] ==> call.cookie == previous.entries[|previous.entries| - 1].cookie)
    && call.verifier == previous.verifier
  }

  /** All entries received, in order. */
  function Received(replies: seq<ReadDirResult>): seq<Entry> {
    if replies == [] then []
    else
      var last := replies[|replies| - 1];
      Received(replies[..|replies| - 1]) + (if last.Listing? then last.entries else [])
  }

  ghost predicate NamesFirst(nodes: seq<Node>, handles: u64 -> Handle, ids: seq<u64>, es: seq<Entry>) {
    |es| <= |ids| && forall i :: 0 <= i < |es| ==> Names(nodes, handles, ids, i, es[i])
  }

  /** After any number of replies the client has been told of the leading children, each
      once and in order; each reply but a final one advanced it. */
  lemma {:induction false} SessionProgress(nodes: seq<Node>, handles: u64 -> Handle, directory: ObjectKey,
                                           calls: seq<Call>, replies: seq<ReadDirResult>)
    requires Live(nodes, directory) && Session(nodes, handles, directory, calls, replies)
    ensures var ids, n := ChildrenOf(nodes, directory), |replies|;
            && NamesFirst(nodes, handles, ids, Received(replies))
            && (n > 0 ==>
                  && Continues(nodes, handles, ids, calls[n - 1].plus, |Received(replies[..n - 1])|, replies[n - 1])
                  && (replies[n - 1].eof <==> |Received(replies)| == |ids|))
            && (n > 0 && !replies[n - 1].eof ==> n <= |Received(replies)|)
    decreases |replies|
  {
    hide Answers, Names, TreeOk, DirectoryOk, Received, Resumes;
    var ids, n := ChildrenOf(nodes, directory), |replies|;
    if n == 0 {
      ReceivedNothing();
    } else {
      var earlier := replies[..n - 1];
      SessionPrefix(nodes, handles, directory, calls, replies, n - 1);
      SessionProgress(nodes, handles, directory, calls[..n - 1], earlier);
      var done := Received(earlier);
      if n > 1 {
        assert earlier[n - 2] == replies[n - 2] && !earlier[n - 2].eof by {
          NotFinal(replies[n - 2], calls[n - 1]);
        }
      }
      ResumesAtEnd(nodes, handles, ids, calls, replies, done);
      EveryAnswer(nodes, handles, directory, calls[n - 1], Chosen(replies[n - 1]));
      Extend(nodes, handles, ids, calls[n - 1].plus, done, replies[n - 1]);
      ReceivedStep(replies);
    }
  }

  lemma ReceivedNothing()
    ensures Received([]) == []
  {
  }

  lemma ReceivedStep(replies: seq<ReadDirResult>)
    requires replies != [] && replies[|replies| - 1].Listing?
    ensures Received(replies) == Received(replies[..|replies| - 1]) + replies[|replies| - 1].entries
  {
  }

  lemma NotFinal(previous: ReadDirResult, call: Call)
    requires Resumes(previous, call)
    ensures previous.Listing? && !previous.eof
  {
  }

  /** The cookie of the next call counts the entries already received. */
  lemma ResumesAtEnd(nodes: seq<Node>, handles: u64 -> Handle, ids: seq<u64>, calls: seq<Call>, replies: seq<ReadDirResult>, done: seq<Entry>)
    requires |calls| == |replies| > 0 && done == Received(replies[..|replies| - 1])
    requires calls[0].cookie == 0 && forall i :: 0 < i < |calls| ==> Resumes(replies[i - 1], calls[i])
    requires NamesFirst(nodes, handles, ids, done)
    requires |replies| > 1 ==>
               Continues(nodes, handles, ids, calls[|replies| - 2].plus, |Received(replies[..|replies| - 1][..|replies| - 2])|,
                         replies[|replies| - 2])
    ensures calls[|calls| - 1].cookie == |done|
    ensures calls[|calls| - 1].cookie != 0 ==> calls[|calls| - 1].verifier == READDIR_VERIFIER
  {
    var n := |replies|;
    if n > 1 {
      var earlier, previous := replies[..n - 1], replies[n - 2];
      assert earlier[n - 2] == previous;
      assert Resumes(previous, calls[n - 1]);
      assert done == Received(earlier[..n - 2]) + previous.entries;
      assert Names(nodes, handles, ids, |done| - 1, previous.entries[|previous.entries| - 1]);
    }
  }

  lemma Extend(nodes: seq<Node>, handles: u64 -> Handle, ids: seq<u64>, plus: bool, done: seq<Entry>, r: ReadDirResult)
    requires NamesFirst(nodes, handles, ids, done) && Continues(nodes, handles, ids, plus, |done|, r)
    ensures NamesFirst(nodes, handles, ids, done + r.entries)
  {
    hide Names;
    var all := done + r.entries;
    forall i | 0 <= i < |all|
      ensures Names(nodes, handles, ids, i, all[i])
    {
      if i >= |done| {
        assert Names(nodes, handles, ids, |done| + (i - |done|), r.entries[i - |done|]);
      }
    }
  }

  /** `es` lists exactly the children `ids`: the same IDs in the same order, no ID twice,
      each with its own name and nobody else's attributes or handle. */
  ghost predicate ListsExactly(nodes: seq<Node>, handles: u64 -> Handle, ids: seq<u64>, es: seq<Entry>) {
    && |es| == |ids|
    && (forall i :: 0 <= i < |es| ==>
          && es[i].fileId == ids[i] < |nodes| && es[i].name == nodes[ids[i]].name
          && OwnExtension(nodes, handles, ids[i], es[i]))
    && (forall i, j :: 0 <= i < j < |es| ==> es[i].fileId != es[j].fileId)
  }

  lemma CompleteList(nodes: seq<Node>, handles: u64 -> Handle, d: int, es: seq<Entry>)
    requires TreeOk(nodes) && IsDirectory(nodes, d)
    requires NamesFirst(nodes, handles, nodes[d].contents.ids, es) && |es| == |nodes[d].contents.ids|
    ensures ListsExactly(nodes, handles, nodes[d].contents.ids, es)
  {
    assert DirectoryOk(nodes, d);
    var ids := nodes[d].contents.ids;
    forall i | 0 <= i < |es|
      ensures es[i].fileId == ids[i] < |nodes| && es[i].name == nodes[ids[i]].name
      ensures OwnExtension(nodes, handles, ids[i], es[i])
    {
      assert Names(nodes, handles, ids, i, es[i]);
    }
  }

  ghost predicate OneKind(calls: seq<Call>, plus: bool) {
    forall i :: 0 <= i < |calls| ==> calls[i].plus == plus
  }

  ghost predicate AllOf(es: seq<Entry>, plus: bool) {
    forall i :: 0 <= i < |es| ==> es[i].extension.Plus? == plus
  }

  /** Calls of one kind bring entries of that kind. */
  lemma {:induction false} ReceivedKind(nodes: seq<Node>, handles: u64 -> Handle, directory: ObjectKey,
                                        calls: seq<Call>, replies: seq<ReadDirResult>, plus: bool)
    requires Live(nodes, directory) && Session(nodes, handles, directory, calls, replies) && OneKind(calls, plus)
    ensures AllOf(Received(replies), plus)
    decreases |replies|
  {
    hide Answers, Names, TreeOk, DirectoryOk, Received, Resumes, NamesFirst;
    var n := |replies|;
    if n == 0 {
      ReceivedNothing();
    } else {
      SessionPrefix(nodes, handles, directory, calls, replies, n - 1);
      ReceivedKind(nodes, handles, directory, calls[..n - 1], replies[..n - 1], plus);
      SessionProgress(nodes, handles, directory, calls, replies);
      ReceivedStep(replies);
    }
  }

  /** A listing read to its end names every child of the directory exactly once and in
      order, each with its own attributes and handle if every call asked for them, and takes
      no more calls than there are children. */
  lemma SessionVisitsEveryChild(nodes: seq<Node>, handles: u64 -> Handle, directory: ObjectKey,
                                calls: seq<Call>, replies: seq<ReadDirResult>)
    requires Live(nodes, directory) && Session(nodes, handles, directory, calls, replies)
    ensures |replies| <= Max(1, |ChildrenOf(nodes, directory)|)
    ensures replies != [] && replies[|replies| - 1].eof ==>
              ListsExactly(nodes, handles, ChildrenOf(nodes, directory), Received(replies))
    ensures forall plus: bool :: OneKind(calls, plus) ==> AllOf(Received(replies), plus)
  {
    hide Answers, ListsExactly, Names, TreeOk, DirectoryOk, Received, Resumes, OneKind, AllOf;
    forall plus: bool | OneKind(calls, plus)
      ensures AllOf(Received(replies), plus)
    {
      ReceivedKind(nodes, handles, directory, calls, replies, plus);
    }
    var ids, n := ChildrenOf(nodes, directory), |replies|;
    SessionProgress(nodes, handles, directory, calls, replies);
    if n > 0 && replies[n - 1].eof {
      CompleteList(nodes, handles, directory.fileId, Received(replies));
    }
    if n > 1 {
      SessionPrefix(nodes, handles, directory, calls, replies, n - 1);
      SessionProgress(nodes, handles, directory, calls[..n - 1], replies[..n - 1]);
      NotFinal(replies[n - 2], calls[n - 1]);
    }
  }

  lemma SessionPrefix(nodes: seq<Node>, handles: u64 -> Handle, directory: ObjectKey,
                      calls: seq<Call>, replies: seq<ReadDirResult>, k: nat)
    requires TreeOk(nodes) && Session(nodes, handles, directory, calls, replies) && k <= |replies|
    ensures Session(nodes, handles, directory, calls[..k], replies[..k])
  {
    hide Answers, TreeOk;
  }

  /** No successful answer is both empty and non-final: the client can always go on. */
  lemma SessionNeverStalls(nodes: seq<Node>, handles: u64 -> Handle, directory: ObjectKey,
                           calls: seq<Call>, replies: seq<ReadDirResult>, i: nat)
    requires Live(nodes, directory) && Session(nodes, handles, directory, calls, replies) && i < |replies|
    ensures replies[i].eof || replies[i].entries != []
  {
    hide Answers, Names, Received;
    SessionPrefix(nodes, handles, directory, calls, replies, i + 1);
    SessionProgress(nodes, handles, directory, calls[..i + 1], replies[..i + 1]);
  }
}
