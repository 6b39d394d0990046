/** Following directory cookies on the wire: a client that knows only the bytes of each
    reply, and reads them as RFC 1813 and RFC 5531 lay them out. */
module WirePaging {
  import opened Sequences
  import opened BigEndian
  import opened Xdr
  import opened Results
  import opened ResultsReadBack
  import opened ReadDirSelection
  import opened ReadDirTheorems
  import opened DemoListing
  import opened Paging
  import ReadDirTrimming

  /** The listing in a reply to transaction `xid`, or nothing for any other reply. */
  function Receive(plus: bool, xid: u32, wire: seq<byte>): Option<ReadDirResult> {
    match ReadEnvelope(wire)
    case Err(_) => None
    case Ok(header) =>
      if header.0 != (xid, 0) then None
      else
        match GetU32(header.1)
        case Err(_) => None
        case Ok(status) =>
          if status.0 != NFS_OK then None
          else
            match ReadListing(plus, status.1)
            case Err(_) => None
            case Ok(listing) => if listing.1 == [] then Some(listing.0) else None
  }

  function NormalListing(r: ReadDirResult): ReadDirResult
    requires r.Listing?
  {
    Listing(NormalPost(r.attributes), r.verifier, NormalEntries(r.entries), r.eof)
  }

  lemma ReceiveBack(plus: bool, xid: u32, r: ReadDirResult)
    requires r.Listing? && Uniform(plus, r.entries) && ReadDirBytes(r).Bytes?
    ensures Receive(plus, xid, Typed(xid, ReadDirBytes(r)).bytes) == Some(NormalListing(r))
  {
    hide ReadEnvelope, Envelope, ReadDirBytes, ReadListing, GetU32, NormalPost, NormalEntries;
    var body := ReadDirBytes(r).bytes;
    EnvelopeBack(xid, 0, body);
    assert body + [] == body;
    ListingBack(plus, r, []);
  }

  lemma ErrorIsNoListing(plus: bool, xid: u32, r: ReadDirResult)
    requires r.ListingError? && r.status != NFS_OK && ReadDirBytes(r).Bytes?
    ensures Receive(plus, xid, Typed(xid, ReadDirBytes(r)).bytes) == None
  {
    hide ReadEnvelope, Envelope, Word, PostAttributes, GetU32;
    var body := ReadDirBytes(r).bytes;
    EnvelopeBack(xid, 0, body);
    WordBack(r.status, PostAttributes(r.attributes).bytes);
  }

  /** What the server may send in answer to a call. */
  ghost predicate Delivers(nodes: seq<Node>, handles: u64 -> Handle, directory: ObjectKey, call: Call, xid: u32,
                           wire: seq<byte>)
    requires TreeOk(nodes)
  {
    exists r :: Sends(nodes, handles, directory, call, xid, wire, r)
  }

  ghost predicate Sends(nodes: seq<Node>, handles: u64 -> Handle, directory: ObjectKey, call: Call, xid: u32,
                        wire: seq<byte>, r: ReadDirResult)
    requires TreeOk(nodes)
  {
    Answers(nodes, handles, directory, call, Chosen(r)) && Typed(xid, ReadDirBytes(r)) == Bytes(wire)
  }

  /** The server's typed result behind the bytes. */
  ghost function ResultOf(nodes: seq<Node>, handles: u64 -> Handle, directory: ObjectKey, call: Call, xid: u32,
                          wire: seq<byte>): (r: ReadDirResult)
    requires TreeOk(nodes) && Delivers(nodes, handles, directory, call, xid, wire)
    ensures Sends(nodes, handles, directory, call, xid, wire, r)
  {
    var r :| Sends(nodes, handles, directory, call, xid, wire, r);
    r
  }

  /** What a client reads is what the server chose, up to the device numbers of
      non-devices. */
  lemma ReceivedWasSent(nodes: seq<Node>, handles: u64 -> Handle, directory: ObjectKey, call: Call, xid: u32,
                        wire: seq<byte>, r: ReadDirResult)
    requires TreeOk(nodes) && Sends(nodes, handles, directory, call, xid, wire, r)
    requires Receive(call.plus, xid, wire).Some?
    ensures r.Listing? && Receive(call.plus, xid, wire) == Some(NormalListing(r))
  {
    hide Receive, Answers, ReadDirBytes, NormalListing, Envelope;
    if r.Listing? {
      ListingIsUniform(nodes, handles, directory, call, r);
      ReceiveBack(call.plus, xid, r);
    } else {
      ErrorStatus(nodes, handles, directory, call, r);
      ErrorIsNoListing(call.plus, xid, r);
    }
  }

  lemma ListingIsUniform(nodes: seq<Node>, handles: u64 -> Handle, directory: ObjectKey, call: Call, r: ReadDirResult)
    requires TreeOk(nodes) && r.Listing? && Answers(nodes, handles, directory, call, Chosen(r))
    ensures Uniform(call.plus, r.entries)
  {
    hide IsChoice, Collect, TreeOk, Longest, ReadDirBytes, ReadDirTrimming.ArmSize, Kept, Base;
    SmallDirectories(nodes);
    var page := ReadDirectory(nodes, handles, directory, call.cookie, call.verifier, Hint(call)).value;
    ListingIsLongest(call.plus, call.attributes, page, call.directoryLimit, call.limit, r);
  }

  lemma ErrorStatus(nodes: seq<Node>, handles: u64 -> Handle, directory: ObjectKey, call: Call, r: ReadDirResult)
    requires TreeOk(nodes) && r.ListingError? && Answers(nodes, handles, directory, call, Chosen(r))
    ensures r.status != NFS_OK
  {
    hide IsChoice, Collect, TreeOk;
    if call.limit >= 20 {
      SmallDirectories(nodes);
      match ReadDirectory(nodes, handles, directory, call.cookie, call.verifier, Hint(call))
      case Failure(_) =>
      case Success(page) => ErrorIsTooSmall(call, page, r);
    }
  }

  // -------------------------------------------------------------------- whole sessions

  /** A client reads an unchanging directory: it goes on from what it read in the bytes of
      the reply before, and only while every reply holds a listing. */
  ghost predicate WireSession(nodes: seq<Node>, handles: u64 -> Handle, directory: ObjectKey,
                              calls: seq<Call>, xids: seq<u32>, wires: seq<seq<byte>>)
    requires TreeOk(nodes)
  {
    && |calls| == |xids| == |wires|
    && (calls != [] ==> calls[0].cookie == 0)
    && (forall i :: 0 <= i < |calls| ==> Delivers(nodes, handles, directory, calls[i], xids[i], wires[i]))
    && (forall i :: 0 <= i < |calls| ==> Receive(calls[i].plus, xids[i], wires[i]).Some?)
    && (forall i :: 0 < i < |calls| ==>
          Resumes(Receive(calls[i - 1].plus, xids[i - 1], wires[i - 1]).value, calls[i]))
  }

  /** The listings the client has read. */
  function Listings(calls: seq<Call>, xids: seq<u32>, wires: seq<seq<byte>>): seq<ReadDirResult>
    requires |calls| == |xids| == |wires|
    requires forall i :: 0 <= i < |calls| ==> Receive(calls[i].plus, xids[i], wires[i]).Some?
  {
    seq(|calls|, i requires 0 <= i < |calls| => Receive(calls[i].plus, xids[i], wires[i]).value)
  }

  /** What the server chose for each call. */
  ghost function Replies(nodes: seq<Node>, handles: u64 -> Handle, directory: ObjectKey,
                         calls: seq<Call>, xids: seq<u32>, wires: seq<seq<byte>>): seq<ReadDirResult>
    requires TreeOk(nodes) && WireSession(nodes, handles, directory, calls, xids, wires)
  {
    seq(|calls|, i requires 0 <= i < |calls| => ResultOf(nodes, handles, directory, calls[i], xids[i], wires[i]))
  }

  lemma RepliesAreRead(nodes: seq<Node>, handles: u64 -> Handle, directory: ObjectKey,
                       calls: seq<Call>, xids: seq<u32>, wires: seq<seq<byte>>, i: nat)
    requires TreeOk(nodes) && WireSession(nodes, handles, directory, calls, xids, wires) && i < |calls|
    ensures var r := Replies(nodes, handles, directory, calls, xids, wires)[i];
            && r.Listing? && Answers(nodes, handles, directory, calls[i], Chosen(r))
            && Receive(calls[i].plus, xids[i], wires[i]) == Some(NormalListing(r))
  {
    hide Receive, NormalListing, TreeOk, Answers, Typed, ReadDirBytes;
    var r := Replies(nodes, handles, directory, calls, xids, wires)[i];
    assert r == ResultOf(nodes, handles, directory, calls[i], xids[i], wires[i]);
    ReceivedWasSent(nodes, handles, directory, calls[i], xids[i], wires[i], r);
  }

  /** A session on the wire is a session of typed replies. */
  lemma WireSessionIsSession(nodes: seq<Node>, handles: u64 -> Handle, directory: ObjectKey,
                             calls: seq<Call>, xids: seq<u32>, wires: seq<seq<byte>>)
    requires TreeOk(nodes) && WireSession(nodes, handles, directory, calls, xids, wires)
    ensures Session(nodes, handles, directory, calls, Replies(nodes, handles, directory, calls, xids, wires))
  {
    hide Receive, TreeOk, Answers, Delivers, NormalPost, NormalEntry, Resumes;
    var replies := Replies(nodes, handles, directory, calls, xids, wires);
    hide Replies;
    forall i | 0 <= i < |calls|
      ensures replies[i].Listing? && Answers(nodes, handles, directory, calls[i], Chosen(replies[i]))
    {
      RepliesAreRead(nodes, handles, directory, calls, xids, wires, i);
    }
    forall i | 0 < i < |calls|
      ensures Resumes(replies[i - 1], calls[i])
    {
      RepliesAreRead(nodes, handles, directory, calls, xids, wires, i - 1);
      SameResumption(replies[i - 1], calls[i]);
    }
  }

  lemma SameResumption(r: ReadDirResult, call: Call)
    requires r.Listing? && Resumes(NormalListing(r), call)
    ensures Resumes(r, call)
  {
    hide NormalPost;
  }

  lemma {:induction false} SameReceived(replies: seq<ReadDirResult>, listings: seq<ReadDirResult>)
    requires |replies| == |listings|
    requires forall i :: 0 <= i < |replies| ==> replies[i].Listing? && listings[i] == NormalListing(replies[i])
    ensures |Received(listings)| == |Received(replies)|
    ensures forall i :: 0 <= i < |Received(replies)| ==> Received(listings)[i] == NormalEntry(Received(replies)[i])
    decreases |replies|
  {
    hide NormalPost, NormalEntry;
    if replies == [] {
    } else {
      var n := |replies| - 1;
      SameReceived(replies[..n], listings[..n]);
      assert listings[n].entries == NormalEntries(replies[n].entries);
    }
  }

  /** The objects as a client can know them. */
  function Seen(nodes: seq<Node>): (seen: seq<Node>)
    ensures |seen| == |nodes|
  {
    seq(|nodes|, i requires 0 <= i < |nodes| => nodes[i].(attributes := Normal(nodes[i].attributes)))
  }

  lemma ListsExactlyNormal(nodes: seq<Node>, handles: u64 -> Handle, ids: seq<u64>, es: seq<Entry>, read: seq<Entry>)
    requires ListsExactly(nodes, handles, ids, es) && |read| == |es|
    requires forall i :: 0 <= i < |es| ==> read[i] == NormalEntry(es[i])
    ensures ListsExactly(Seen(nodes), handles, ids, read)
    ensures forall i :: 0 <= i < |es| ==> read[i].extension.Plus? == es[i].extension.Plus?
  {
    hide Normal;
    forall i | 0 <= i < |es|
      ensures read[i].fileId == es[i].fileId && read[i].name == es[i].name
      ensures read[i].extension.Plus? == es[i].extension.Plus?
      ensures OwnExtension(Seen(nodes), handles, ids[i], read[i])
    {
      assert OwnExtension(nodes, handles, ids[i], es[i]);
    }
  }

  /** A client that follows cookies through the bytes of the replies is told of every child
      exactly once and in order by the time a listing says it is the last, each with its own
      attributes and handle if every call asked for them, and needs no more calls than there
      are children. */
  lemma WireSessionVisitsEveryChild(nodes: seq<Node>, handles: u64 -> Handle, directory: ObjectKey,
                                    calls: seq<Call>, xids: seq<u32>, wires: seq<seq<byte>>)
    requires Live(nodes, directory) && WireSession(nodes, handles, directory, calls, xids, wires)
    ensures |wires| <= Max(1, |ChildrenOf(nodes, directory)|)
    ensures var read := Listings(calls, xids, wires);
            read != [] && read[|read| - 1].Listing? && read[|read| - 1].eof ==>
              && ListsExactly(Seen(nodes), handles, ChildrenOf(nodes, directory), Received(read))
              && forall plus: bool :: OneKind(calls, plus) ==> AllOf(Received(read), plus)
  {
    hide Receive, TreeOk, Answers, Delivers, NormalPost, NormalEntries, NormalEntry, Resumes, Received, ListsExactly;
    var replies := Replies(nodes, handles, directory, calls, xids, wires);
    var read := Listings(calls, xids, wires);
    WireSessionIsSession(nodes, handles, directory, calls, xids, wires);
    SessionVisitsEveryChild(nodes, handles, directory, calls, replies);
    hide Replies, Session;
    forall i | 0 <= i < |calls|
      ensures replies[i].Listing? && read[i] == NormalListing(replies[i])
    {
      RepliesAreRead(nodes, handles, directory, calls, xids, wires, i);
    }
    SameReceived(replies, read);
    if read != [] && read[|read| - 1].eof {
      ListsExactlyNormal(nodes, handles, ChildrenOf(nodes, directory), Received(replies), Received(read));
    }
  }
}
