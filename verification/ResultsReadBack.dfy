/** A client's reading of the results, written from RFC 1813, and the proof that it
    recovers what the server encoded. */
module ResultsReadBack {
  import opened Sequences
  import opened BigEndian
  import opened Replies
  import opened Xdr
  import opened Results
  import Arguments

  // ---------------------------------------------------------------------------- readers

  function ReadTime(s: seq<byte>): Parsed<NfsTime> {
    var (seconds, s1) :- GetU32(s);
    var (nanoseconds, s2) :- GetU32(s1);
    Ok((Arguments.NfsTime(seconds, nanoseconds), s2))
  }

  function ReadType(s: seq<byte>): Parsed<FileType> {
    var (code, s1) :- GetU32(s);
    match code
    case 1 => Ok((Regular, s1))
    case 2 => Ok((Directory, s1))
    case 3 => Ok((BlockDevice, s1))
    case 4 => Ok((CharacterDevice, s1))
    case 5 => Ok((Symlink, s1))
    case 6 => Ok((Socket, s1))
    case 7 => Ok((Fifo, s1))
    case _ => Err(InvalidDiscriminant("file type", code))
  }

  datatype Owners = Owners(fileType: FileType, mode: u32, links: u32, uid: u32, gid: u32)
  datatype Sizes = Sizes(size: u64, used: u64, device: Device)

  function ReadOwners(s: seq<byte>): Parsed<Owners> {
    var (fileType, s1) :- ReadType(s);
    var (mode, s2) :- GetU32(s1);
    var (links, s3) :- GetU32(s2);
    var (uid, s4) :- GetU32(s3);
    var (gid, s5) :- GetU32(s4);
    Ok((Owners(fileType, mode, links, uid, gid), s5))
  }

  function ReadSizes(s: seq<byte>): Parsed<Sizes> {
    var (size, s1) :- GetU64(s);
    var (used, s2) :- GetU64(s1);
    var (major, s3) :- GetU32(s2);
    var (minor, s4) :- GetU32(s3);
    Ok((Sizes(size, used, Device(major, minor)), s4))
  }

  /** fattr3, section 2.5 of RFC 1813. */
  function ReadAttributes(s: seq<byte>): Parsed<FileAttributes> {
    var (o, s1) :- ReadOwners(s);
    var (z, s2) :- ReadSizes(s1);
    var (fsId, s3) :- GetU64(s2);
    var (fileId, s4) :- GetU64(s3);
    var (accessTime, s5) :- ReadTime(s4);
    var (modifyTime, s6) :- ReadTime(s5);
    var (changeTime, s7) :- ReadTime(s6);
    var isDevice := o.fileType.BlockDevice? || o.fileType.CharacterDevice?;
    Ok((FileAttributes(o.fileType, o.mode, o.links, o.uid, o.gid, z.size, z.used,
                       if isDevice then Some(z.device) else None,
                       fsId, fileId, accessTime, modifyTime, changeTime), s7))
  }

  function ReadPost(s: seq<byte>): Parsed<Option<FileAttributes>> {
    var (present, s1) :- GetBool(s);
    if !present then Ok((None, s1))
    else
      var (a, s2) :- ReadAttributes(s1);
      Ok((Some(a), s2))
  }

  function ReadBefore(s: seq<byte>): Parsed<Option<WccAttributes>> {
    var (present, s1) :- GetBool(s);
    if !present then Ok((None, s1))
    else
      var (size, s2) :- GetU64(s1);
      var (modifyTime, s3) :- ReadTime(s2);
      var (changeTime, s4) :- ReadTime(s3);
      Ok((Some(WccAttributes(size, modifyTime, changeTime)), s4))
  }

  function ReadWcc(s: seq<byte>): Parsed<WccData> {
    var (before, s1) :- ReadBefore(s);
    var (after, s2) :- ReadPost(s1);
    Ok((WccData(before, after), s2))
  }

  function ReadHandle(s: seq<byte>): Parsed<Option<Handle>> {
    var (present, s1) :- GetBool(s);
    if !present then Ok((None, s1))
    else
      var (h, s2) :- GetOpaque(s1, "handle", U32_BOUND);
      Ok((Some(h), s2))
  }

  function ReadExtension(plus: bool, s: seq<byte>): Parsed<Extension> {
    if !plus then Ok((Basic, s))
    else
      var (attributes, s1) :- ReadPost(s);
      var (handle, s2) :- ReadHandle(s1);
      Ok((Plus(attributes, handle), s2))
  }

  /** One entry after its leading TRUE. */
  function ReadEntry(plus: bool, s: seq<byte>): Parsed<Entry> {
    var (fileId, s1) :- GetU64(s);
    var (name, s2) :- GetOpaque(s1, "name", U32_BOUND);
    var (cookie, s3) :- GetU64(s2);
    var (extension, s4) :- ReadExtension(plus, s3);
    Ok((Entry(fileId, name, cookie, extension), s4))
  }

  /** Entries follow one another while a TRUE announces one more; `fuel` is the number of
      bytes, and no entry is that short. */
  function ReadEntries(plus: bool, s: seq<byte>, fuel: nat): Parsed<seq<Entry>>
    decreases fuel
  {
    var (more, s1) :- GetBool(s);
    if !more then Ok(([], s1))
    else if fuel == 0 then Err(Truncated)
    else
      var (e, s2) :- ReadEntry(plus, s1);
      var (es, s3) :- ReadEntries(plus, s2, fuel - 1);
      Ok(([e] + es, s3))
  }

  /** READDIR3resok and READDIRPLUS3resok after the status word. */
  function ReadListing(plus: bool, s: seq<byte>): Parsed<ReadDirResult> {
    var (attributes, s1) :- ReadPost(s);
    var (verifier, s2) :- GetFixed(s1, 8);
    var (entries, s3) :- ReadEntries(plus, s2, |s2|);
    var (eof, s4) :- GetBool(s3);
    Ok((Listing(attributes, verifier, entries, eof), s4))
  }

  // ------------------------------------------------------------------------ recovery

  /** A device number is carried only for device nodes, and always for those: the node's
      own, or zeros if it has none. */
  function Normal(a: FileAttributes): FileAttributes {
    match a.fileType
    case BlockDevice => a.(device := Some(if a.device.Some? then a.device.value else Device(0, 0)))
    case CharacterDevice => a.(device := Some(if a.device.Some? then a.device.value else Device(0, 0)))
    case _ => a.(device := None)
  }

  function NormalPost(a: Option<FileAttributes>): Option<FileAttributes> {
    if a.None? then None else Some(Normal(a.value))
  }

  function NormalWcc(w: WccData): WccData {
    WccData(w.before, NormalPost(w.after))
  }

  function NormalEntry(e: Entry): Entry {
    match e.extension
    case Basic => e
    case Plus(attributes, handle) => e.(extension := Plus(NormalPost(attributes), handle))
  }

  /** Reading `Then(a, b)` in front of `rest` meets `a` first. */
  lemma Unfold(a: Encoded, b: Encoded, rest: seq<byte>)
    requires Then(a, b).Bytes?
    ensures a.Bytes? && b.Bytes? && Then(a, b).bytes + rest == a.bytes + (b.bytes + rest)
  {
  }

  lemma WordBack(n: u32, rest: seq<byte>)
    ensures GetU32(Word(n).bytes + rest) == Ok((n, rest))
  {
    hide GetU32, Be32;
    ReadU32Back(n, rest);
  }

  lemma LongBack(n: u64, rest: seq<byte>)
    ensures GetU64(Long(n).bytes + rest) == Ok((n, rest))
  {
    hide GetU64, Be64;
    ReadU64Back(n, rest);
  }

  lemma BoolBack(p: bool, rest: seq<byte>)
    ensures GetBool(Bool(p).bytes + rest) == Ok((p, rest))
  {
    hide GetU32, Be32, Word;
    WordBack(if p then 1 else 0, rest);
  }

  lemma OpaqueBack(v: seq<byte>, rest: seq<byte>, field: string)
    requires Opaque(v).Bytes?
    ensures GetOpaque(Opaque(v).bytes + rest, field, U32_BOUND) == Ok((v, rest))
  {
    hide GetOpaque, Be32, Zeros, Padding;
    assert PutOpaque(v, []) + rest == PutOpaque(v, rest) by {
      var z := Zeros(Padding(|v|));
      assert z + [] == z;
      assert (Be32(|v|) + (v + z)) + rest == Be32(|v|) + (v + (z + rest));
    }
    ReadOpaqueBack(v, rest, field, U32_BOUND);
  }

  lemma TimeBack(t: NfsTime, rest: seq<byte>)
    requires Time(t).Bytes?
    ensures ReadTime(Time(t).bytes + rest) == Ok((t, rest))
  {
    hide Word, GetU32;
    Unfold(Word(t.seconds), Word(t.nanoseconds), rest);
    WordBack(t.seconds, Word(t.nanoseconds).bytes + rest);
    WordBack(t.nanoseconds, rest);
  }

  lemma TypeBack(t: FileType, rest: seq<byte>)
    ensures ReadType(PutU32(TypeCode(t), rest)) == Ok((t, rest))
  {
    hide PutU32, GetU32;
    ReadU32Back(TypeCode(t), rest);
  }

  lemma OwnersBack(a: FileAttributes, rest: seq<byte>)
    ensures ReadOwners(Ownership(a) + rest) == Ok((Owners(a.fileType, a.mode, a.links, a.uid, a.gid), rest))
  {
    hide GetU32, Be32, TypeCode, ReadType;
    var s4 := PutU32(a.gid, rest);
    var s3 := PutU32(a.uid, s4);
    var s2 := PutU32(a.links, s3);
    var s1 := PutU32(a.mode, s2);
    assert Ownership(a) + rest == PutU32(TypeCode(a.fileType), s1);
    TypeBack(a.fileType, s1);
    ReadU32Back(a.mode, s2);
    ReadU32Back(a.links, s3);
    ReadU32Back(a.uid, s4);
    ReadU32Back(a.gid, rest);
  }

  lemma SizesBack(a: FileAttributes, rest: seq<byte>)
    ensures ReadSizes(Extent(a) + rest) == Ok((Sizes(a.size, a.used, WireDevice(a)), rest))
  {
    hide GetU32, GetU64, Be32, Be64, WireDevice;
    var d := WireDevice(a);
    var s3 := PutU32(d.minor, rest);
    var s2 := PutU32(d.major, s3);
    var s1 := PutU64(a.used, s2);
    assert Extent(a) + rest == PutU64(a.size, s1);
    ReadU64Back(a.size, s1);
    ReadU64Back(a.used, s2);
    ReadU32Back(d.major, s3);
    ReadU32Back(d.minor, rest);
  }

  /** Attributes read back as they were, up to the device number of a non-device. */
  lemma AttributesBack(a: FileAttributes, rest: seq<byte>)
    requires Attributes(a).Bytes?
    ensures ReadAttributes(Attributes(a).bytes + rest) == Ok((Normal(a), rest))
  {
    hide Time, Ownership, Extent, Be64, ReadOwners, ReadSizes, GetU64, ReadTime, FixedAttributes;
    var two := Then(Time(a.modifyTime), Time(a.changeTime));
    var times := Then(Time(a.accessTime), two);
    Unfold(FixedAttributes(a), times, rest);
    Unfold(Time(a.accessTime), two, rest);
    Unfold(Time(a.modifyTime), Time(a.changeTime), rest);
    TimeBack(a.accessTime, two.bytes + rest);
    TimeBack(a.modifyTime, Time(a.changeTime).bytes + rest);
    TimeBack(a.changeTime, rest);
    var tail := times.bytes + rest;
    FixedBack(a, tail);
  }

  /** Which device number a client reads: that of a device node, zeros for a device node
      without one, and none for anything else. */
  lemma DeviceBack(a: FileAttributes, rest: seq<byte>)
    requires Attributes(a).Bytes?
    ensures var read := ReadAttributes(Attributes(a).bytes + rest);
            && read.Ok?
            && (a.fileType.BlockDevice? || a.fileType.CharacterDevice? ==>
                  read.value.0.device == if a.device.Some? then a.device else Some(Device(0, 0)))
            && (!a.fileType.BlockDevice? && !a.fileType.CharacterDevice? ==> read.value.0.device == None)
            && read.value.0.(device := a.device) == a
  {
    hide Attributes, ReadAttributes;
    AttributesBack(a, rest);
  }

  lemma FixedBack(a: FileAttributes, tail: seq<byte>)
    ensures var s := FixedAttributes(a).bytes + tail;
            && ReadOwners(s).Ok? && ReadOwners(s).value.0 == Owners(a.fileType, a.mode, a.links, a.uid, a.gid)
            && var s1 := ReadOwners(s).value.1;
               && ReadSizes(s1).Ok? && ReadSizes(s1).value.0 == Sizes(a.size, a.used, WireDevice(a))
               && GetU64(ReadSizes(s1).value.1) == Ok((a.fsId, PutU64(a.fileId, tail)))
               && GetU64(PutU64(a.fileId, tail)) == Ok((a.fileId, tail))
  {
    hide Ownership, Extent, Be64, ReadOwners, ReadSizes, GetU64;
    var s2 := PutU64(a.fsId, PutU64(a.fileId, tail));
    assert FixedAttributes(a).bytes + tail == Ownership(a) + (Extent(a) + s2);
    OwnersBack(a, Extent(a) + s2);
    SizesBack(a, s2);
    ReadU64Back(a.fsId, PutU64(a.fileId, tail));
    ReadU64Back(a.fileId, tail);
  }

  lemma PostBack(a: Option<FileAttributes>, rest: seq<byte>)
    requires PostAttributes(a).Bytes?
    ensures ReadPost(PostAttributes(a).bytes + rest) == Ok((NormalPost(a), rest))
  {
    hide Bool, GetBool, Attributes, ReadAttributes;
    if a.None? {
      BoolBack(false, rest);
    } else {
      Unfold(Bool(true), Attributes(a.value), rest);
      BoolBack(true, Attributes(a.value).bytes + rest);
      AttributesBack(a.value, rest);
    }
  }

  lemma BeforeBack(w: Option<WccAttributes>, rest: seq<byte>)
    requires Before(w).Bytes?
    ensures ReadBefore(Before(w).bytes + rest) == Ok((w, rest))
  {
    hide Bool, GetBool, Long, GetU64, Time, ReadTime;
    if w.None? {
      BoolBack(false, rest);
    } else {
      var q := w.value;
      var times := Then(Time(q.modifyTime), Time(q.changeTime));
      Unfold(Bool(true), Then(Long(q.size), times), rest);
      Unfold(Long(q.size), times, rest);
      Unfold(Time(q.modifyTime), Time(q.changeTime), rest);
      BoolBack(true, Then(Long(q.size), times).bytes + rest);
      LongBack(q.size, times.bytes + rest);
      TimeBack(q.modifyTime, Time(q.changeTime).bytes + rest);
      TimeBack(q.changeTime, rest);
    }
  }

  /** Weak cache consistency data read back as they were. */
  lemma WccBack(w: WccData, rest: seq<byte>)
    requires WccBytes(w).Bytes?
    ensures ReadWcc(WccBytes(w).bytes + rest) == Ok((NormalWcc(w), rest))
  {
    hide Before, ReadBefore, PostAttributes, ReadPost;
    Unfold(Before(w.before), PostAttributes(w.after), rest);
    BeforeBack(w.before, PostAttributes(w.after).bytes + rest);
    PostBack(w.after, rest);
  }

  lemma HandleBack(h: Option<Handle>, rest: seq<byte>)
    requires OptionalHandle(h).Bytes?
    ensures ReadHandle(OptionalHandle(h).bytes + rest) == Ok((h, rest))
  {
    hide Bool, GetBool, Opaque, GetOpaque;
    if h.None? {
      BoolBack(false, rest);
    } else {
      Unfold(Bool(true), Opaque(h.value), rest);
      BoolBack(true, Opaque(h.value).bytes + rest);
      OpaqueBack(h.value, rest, "handle");
    }
  }

  lemma ExtensionBack(x: Extension, rest: seq<byte>)
    requires ExtensionBytes(x).Bytes?
    ensures ReadExtension(x.Plus?, ExtensionBytes(x).bytes + rest) ==
            Ok((if x.Plus? then Plus(NormalPost(x.attributes), x.handle) else Basic, rest))
  {
    hide PostAttributes, ReadPost, OptionalHandle, ReadHandle;
    match x
    case Basic => assert [] + rest == rest;
    case Plus(attributes, handle) =>
      Unfold(PostAttributes(attributes), OptionalHandle(handle), rest);
      PostBack(attributes, OptionalHandle(handle).bytes + rest);
      HandleBack(handle, rest);
  }

  lemma EntryBack(e: Entry, rest: seq<byte>)
    requires EntryBytes(e).Bytes?
    ensures var s := EntryBytes(e).bytes + rest;
            && GetBool(s).Ok? && GetBool(s).value.0
            && ReadEntry(e.extension.Plus?, GetBool(s).value.1) == Ok((NormalEntry(e), rest))
  {
    hide Bool, GetBool, Long, GetU64, Opaque, GetOpaque, ExtensionBytes, ReadExtension, NormalPost;
    var x := ExtensionBytes(e.extension);
    var fromCookie := Then(Long(e.cookie), x);
    var fromName := Then(Opaque(e.name), fromCookie);
    var fromId := Then(Long(e.fileId), fromName);
    Unfold(Bool(true), fromId, rest);
    Unfold(Long(e.fileId), fromName, rest);
    Unfold(Opaque(e.name), fromCookie, rest);
    Unfold(Long(e.cookie), x, rest);
    BoolBack(true, fromId.bytes + rest);
    LongBack(e.fileId, fromName.bytes + rest);
    OpaqueBack(e.name, fromCookie.bytes + rest, "name");
    LongBack(e.cookie, x.bytes + rest);
    ExtensionBack(e.extension, rest);
  }

  function NormalEntries(es: seq<Entry>): seq<Entry> {
    seq(|es|, i requires 0 <= i < |es| => NormalEntry(es[i]))
  }

  /** Entries encoded from the front, as a reader meets them. */
  lemma {:induction false} EntriesFromFront(es: seq<Entry>)
    requires es != [] && Entries(es).Bytes?
    ensures Entries(es) == Then(EntryBytes(es[0]), Entries(es[1..]))
    decreases |es|
  {
    hide EntryBytes;
    var n := |es| - 1;
    if n == 0 {
      assert es[..n] == [] && es[1..] == [];
      assert EntryBytes(es[0]).bytes + [] == EntryBytes(es[0]).bytes == [] + EntryBytes(es[0]).bytes;
    } else {
      var init, tail := es[..n], es[1..];
      EntriesFromFront(init);
      assert init[1..] == tail[..n - 1] && tail[n - 1] == es[n];
      ThenAssociates(EntryBytes(es[0]), Entries(init[1..]), EntryBytes(es[n]));
    }
  }

  /** All entries are of one kind, as the server sends them. */
  ghost predicate Uniform(plus: bool, es: seq<Entry>) {
    forall i :: 0 <= i < |es| ==> es[i].extension.Plus? == plus
  }

  lemma {:induction false} EntriesBack(plus: bool, es: seq<Entry>, rest: seq<byte>, fuel: nat)
    requires Entries(es).Bytes? && Uniform(plus, es) && fuel >= |es|
    ensures ReadEntries(plus, Entries(es).bytes + (Bool(false).bytes + rest), fuel) == Ok((NormalEntries(es), rest))
    decreases |es|
  {
    hide Be32, GetBool, EntryBytes, ReadEntry, NormalEntry;
    var end := Bool(false).bytes + rest;
    if es == [] {
      assert [] + end == end;
      BoolBack(false, rest);
    } else {
      EntriesFromFront(es);
      Unfold(EntryBytes(es[0]), Entries(es[1..]), end);
      EntryBack(es[0], Entries(es[1..]).bytes + end);
      EntriesBack(plus, es[1..], rest, fuel - 1);
      assert NormalEntries(es) == [NormalEntry(es[0])] + NormalEntries(es[1..]);
    }
  }

  lemma {:induction false} EntriesTakeSpace(es: seq<Entry>)
    requires Entries(es).Bytes?
    ensures |es| <= |Entries(es).bytes|
    decreases |es|
  {
    hide Long, Opaque, ExtensionBytes;
    if es == [] {
    } else {
      EntriesTakeSpace(es[..|es| - 1]);
    }
  }

  /** A client reads from the bytes of a listing the same attributes, verifier, entries in
      the same order, and end-of-directory mark. */
  lemma ListingBack(plus: bool, r: ReadDirResult, rest: seq<byte>)
    requires r.Listing? && Uniform(plus, r.entries) && ReadDirBytes(r).Bytes?
    ensures var s := ReadDirBytes(r).bytes + rest;
            && GetU32(s).Ok? && GetU32(s).value.0 == NFS_OK
            && ReadListing(plus, GetU32(s).value.1) ==
               Ok((Listing(NormalPost(r.attributes), r.verifier, NormalEntries(r.entries), r.eof), rest))
  {
    hide Word, GetU32, PostAttributes, ReadPost, Bool, GetBool, Entries, ReadEntries, GetFixed, NormalEntries, NormalPost;
    var post, entries := PostAttributes(r.attributes), Entries(r.entries);
    var tail := Bool(false).bytes + (Bool(r.eof).bytes + rest);
    var s2 := entries.bytes + tail;
    Unfold(Then(ListingHead(r.attributes, r.verifier), entries), ListingTail(r.eof), rest);
    Unfold(Bool(false), Bool(r.eof), rest);
    Unfold(ListingHead(r.attributes, r.verifier), entries, tail);
    Unfold(Word(NFS_OK), Then(post, Bytes(r.verifier)), s2);
    Unfold(post, Bytes(r.verifier), s2);
    WordBack(NFS_OK, post.bytes + (r.verifier + s2));
    PostBack(r.attributes, r.verifier + s2);
    ReadFixedBack(r.verifier, s2);
    EntriesTakeSpace(r.entries);
    EntriesBack(plus, r.entries, Bool(r.eof).bytes + rest, |s2|);
    BoolBack(r.eof, rest);
  }

  // -------------------------------------------------------------------- the reply header

  /** rpc_msg of an accepted reply, section 9 of RFC 5531: transaction and status. */
  function ReadEnvelope(s: seq<byte>): Parsed<(u32, u32)> {
    var (xid, s1) :- GetU32(s);
    var (messageType, s2) :- GetU32(s1);
    var (replyStatus, s3) :- GetU32(s2);
    var (flavor, s4) :- GetU32(s3);
    var (verifier, s5) :- GetOpaque(s4, "verifier", 400);
    var (status, s6) :- GetU32(s5);
    if messageType != 1 then Err(InvalidDiscriminant("message", messageType))
    else if replyStatus != 0 then Err(InvalidDiscriminant("reply", replyStatus))
    else if flavor != 0 || verifier != [] then Err(InvalidDiscriminant("verifier", flavor))
    else Ok(((xid, status), s6))
  }

  /** A client recovers from the header the transaction and the status, and goes on where
      the result begins. */
  lemma EnvelopeBack(xid: u32, status: u32, rest: seq<byte>)
    ensures ReadEnvelope(Envelope(xid, status).bytes + rest) == Ok(((xid, status), rest))
  {
    hide GetU32, Be32, GetOpaque, Zeros;
    var s5 := PutU32(status, rest);
    var s4 := PutOpaque([], s5);
    var s3 := PutU32(0, s4);
    var s2 := PutU32(0, s3);
    var s1 := PutU32(1, s2);
    assert s4 == Be32(0) + s5 by {
      assert [] + (Zeros(0) + s5) == s5;
    }
    assert Envelope(xid, status).bytes + rest == PutU32(xid, s1);
    ReadU32Back(xid, s1);
    ReadU32Back(1, s2);
    ReadU32Back(0, s3);
    ReadU32Back(0, s4);
    ReadOpaqueBack([], s5, "verifier", 400);
    ReadU32Back(status, rest);
  }

  // ------------------------------------------------------------- READ and the mutations

  /** READ3res, section 3.3.6 of RFC 1813; the count must be the length of the data. */
  function ReadRead(s: seq<byte>): Parsed<ReadResult> {
    var (status, s1) :- GetU32(s);
    var (attributes, s2) :- ReadPost(s1);
    if status != NFS_OK then Ok((ReadError(status, attributes), s2))
    else
      var (count, s3) :- GetU32(s2);
      var (eof, s4) :- GetBool(s3);
      var (data, s5) :- GetOpaque(s4, "data", U32_BOUND);
      if count == |data| then Ok((ReadOk(attributes, data, eof), s5)) else Err(Truncated)
  }

  lemma ReadResultBack(r: ReadResult, rest: seq<byte>)
    requires ReadBytes(r).Bytes? && (r.ReadError? ==> r.status != NFS_OK)
    ensures ReadRead(ReadBytes(r).bytes + rest) == Ok((r.(attributes := NormalPost(r.attributes)), rest))
  {
    hide Word, GetU32, PostAttributes, ReadPost, Bool, GetBool, Opaque, GetOpaque, NormalPost;
    var post := PostAttributes(r.attributes);
    match r
    case ReadOk(attributes, data, eof) =>
      var fromEof := Then(Bool(eof), Opaque(data));
      var fromLength := Then(Word(|data|), fromEof);
      assert DataLength(data).Bytes?;
      Unfold(Word(NFS_OK), Then(post, fromLength), rest);
      Unfold(post, fromLength, rest);
      Unfold(Word(|data|), fromEof, rest);
      Unfold(Bool(eof), Opaque(data), rest);
      WordBack(NFS_OK, Then(post, fromLength).bytes + rest);
      PostBack(attributes, fromLength.bytes + rest);
      WordBack(|data|, fromEof.bytes + rest);
      BoolBack(eof, Opaque(data).bytes + rest);
      OpaqueBack(data, rest, "data");
    case ReadError(status, attributes) =>
      Unfold(Word(status), post, rest);
      WordBack(status, post.bytes + rest);
      PostBack(attributes, rest);
  }

  /** Which of the result unions a procedure returns. */
  datatype Shape = WccShape | WriteShape | CreateShape | LinkShape | RenameShape | CommitShape

  ghost predicate Suits(shape: Shape, r: MutationResult) {
    match shape
    case WccShape => r.Wcc?
    case WriteShape => r.WriteOk? || (r.Wcc? && r.status != NFS_OK)
    case CreateShape => r.CreateOk? || (r.Wcc? && r.status != NFS_OK)
    case LinkShape => r.Link?
    case RenameShape => r.Rename?
    case CommitShape => r.CommitOk? || (r.Wcc? && r.status != NFS_OK)
  }

  function ReadStability(s: seq<byte>): Parsed<Arguments.Stability> {
    Arguments.GetStability(s)
  }

  function ReadMutation(shape: Shape, s: seq<byte>): Parsed<MutationResult> {
    var (status, s1) :- GetU32(s);
    if shape.LinkShape? then
      var (attributes, s2) :- ReadPost(s1);
      var (wcc, s3) :- ReadWcc(s2);
      Ok((Link(status, attributes, wcc), s3))
    else if shape.CreateShape? && status == NFS_OK then
      var (handle, s2) :- ReadHandle(s1);
      var (attributes, s3) :- ReadPost(s2);
      var (wcc, s4) :- ReadWcc(s3);
      Ok((CreateOk(handle, attributes, wcc), s4))
    else
      var (wcc, s2) :- ReadWcc(s1);
      if shape.RenameShape? then
        var (to, s3) :- ReadWcc(s2);
        Ok((Rename(status, wcc, to), s3))
      else if shape.WriteShape? && status == NFS_OK then
        var (count, s3) :- GetU32(s2);
        var (committed, s4) :- ReadStability(s3);
        var (verifier, s5) :- GetFixed(s4, 8);
        Ok((WriteOk(wcc, count, committed, verifier), s5))
      else if shape.CommitShape? && status == NFS_OK then
        var (verifier, s3) :- GetFixed(s2, 8);
        Ok((CommitOk(wcc, verifier), s3))
      else Ok((Wcc(status, wcc), s2))
  }

  function NormalMutation(r: MutationResult): MutationResult {
    match r
    case Wcc(status, wcc) => Wcc(status, NormalWcc(wcc))
    case WriteOk(wcc, count, committed, verifier) => WriteOk(NormalWcc(wcc), count, committed, verifier)
    case CreateOk(handle, attributes, wcc) => CreateOk(handle, NormalPost(attributes), NormalWcc(wcc))
    case Link(status, attributes, wcc) => Link(status, NormalPost(attributes), NormalWcc(wcc))
    case Rename(status, from, to) => Rename(status, NormalWcc(from), NormalWcc(to))
    case CommitOk(wcc, verifier) => CommitOk(NormalWcc(wcc), verifier)
  }

  lemma StabilityBack(c: Arguments.Stability, rest: seq<byte>)
    ensures ReadStability(Word(StabilityCode(c)).bytes + rest) == Ok((c, rest))
  {
    hide Word, GetU32;
    WordBack(StabilityCode(c), rest);
  }

  /** The body of a WRITE success. */
  lemma WriteBodyBack(r: MutationResult, rest: seq<byte>)
    requires r.WriteOk? && MutationBytes(r).Bytes?
    ensures ReadMutation(WriteShape, MutationBytes(r).bytes + rest) == Ok((NormalMutation(r), rest))
  {
    hide Word, GetU32, WccBytes, ReadWcc, GetFixed, NormalWcc, ReadStability, StabilityCode;
    var code := Word(StabilityCode(r.committed));
    var fromCode := Then(code, Bytes(r.verifier));
    var fromCount := Then(Word(r.count), fromCode);
    Unfold(Word(NFS_OK), Then(WccBytes(r.wcc), fromCount), rest);
    Unfold(WccBytes(r.wcc), fromCount, rest);
    Unfold(Word(r.count), fromCode, rest);
    Unfold(code, Bytes(r.verifier), rest);
    WordBack(NFS_OK, Then(WccBytes(r.wcc), fromCount).bytes + rest);
    WccBack(r.wcc, fromCount.bytes + rest);
    WordBack(r.count, fromCode.bytes + rest);
    StabilityBack(r.committed, r.verifier + rest);
    ReadFixedBack(r.verifier, rest);
  }

  lemma CreateBodyBack(r: MutationResult, rest: seq<byte>)
    requires r.CreateOk? && MutationBytes(r).Bytes?
    ensures ReadMutation(CreateShape, MutationBytes(r).bytes + rest) == Ok((NormalMutation(r), rest))
  {
    hide Word, GetU32, WccBytes, ReadWcc, NormalWcc, PostAttributes, ReadPost, NormalPost, OptionalHandle, ReadHandle;
    var fromPost := Then(PostAttributes(r.attributes), WccBytes(r.wcc));
    var body := Then(OptionalHandle(r.handle), fromPost);
    Unfold(Word(NFS_OK), body, rest);
    Unfold(OptionalHandle(r.handle), fromPost, rest);
    Unfold(PostAttributes(r.attributes), WccBytes(r.wcc), rest);
    WordBack(NFS_OK, body.bytes + rest);
    HandleBack(r.handle, fromPost.bytes + rest);
    PostBack(r.attributes, WccBytes(r.wcc).bytes + rest);
    WccBack(r.wcc, rest);
  }

  /** A client of any mutating procedure reads the same result back. */
  lemma MutationBack(shape: Shape, r: MutationResult, rest: seq<byte>)
    requires Suits(shape, r) && MutationBytes(r).Bytes?
    ensures ReadMutation(shape, MutationBytes(r).bytes + rest) == Ok((NormalMutation(r), rest))
  {
    hide Word, GetU32, WccBytes, ReadWcc, NormalWcc, PostAttributes, ReadPost, NormalPost, GetFixed;
    match r
    case WriteOk(_, _, _, _) => WriteBodyBack(r, rest);
    case CreateOk(_, _, _) => CreateBodyBack(r, rest);
    case Wcc(status, wcc) =>
      Unfold(Word(status), WccBytes(wcc), rest);
      WordBack(status, WccBytes(wcc).bytes + rest);
      WccBack(wcc, rest);
    case Link(status, attributes, wcc) =>
      var body := Then(PostAttributes(attributes), WccBytes(wcc));
      Unfold(Word(status), body, rest);
      Unfold(PostAttributes(attributes), WccBytes(wcc), rest);
      WordBack(status, body.bytes + rest);
      PostBack(attributes, WccBytes(wcc).bytes + rest);
      WccBack(wcc, rest);
    case Rename(status, from, to) =>
      var body := Then(WccBytes(from), WccBytes(to));
      Unfold(Word(status), body, rest);
      Unfold(WccBytes(from), WccBytes(to), rest);
      WordBack(status, body.bytes + rest);
      WccBack(from, WccBytes(to).bytes + rest);
      WccBack(to, rest);
    case CommitOk(wcc, verifier) =>
      var body := Then(WccBytes(wcc), Bytes(verifier));
      Unfold(Word(NFS_OK), body, rest);
      Unfold(WccBytes(wcc), Bytes(verifier), rest);
      WordBack(NFS_OK, body.bytes + rest);
      WccBack(wcc, verifier + rest);
      ReadFixedBack(verifier, rest);
  }
}
