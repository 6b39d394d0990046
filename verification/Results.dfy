/** NFS results and their XDR encoding as values (src/nfs3/codec.rs; RFC 1813). An
    encoding is the bytes, or the first error met on the way. */
module Results {
  import opened Sequences
  import opened BigEndian
  import opened Xdr
  import Arguments

  type NfsTime = Arguments.NfsTime
  type Handle = seq<byte>
  type Verifier = v: seq<byte> | |v| == 8 witness seq(8, _ => 0)

  datatype FileType = Regular | Directory | BlockDevice | CharacterDevice | Symlink | Socket | Fifo
  datatype Device = Device(major: u32, minor: u32)
  datatype FileAttributes = FileAttributes(
    fileType: FileType, mode: u32, links: u32, uid: u32, gid: u32, size: u64, used: u64,
    device: Option<Device>, fsId: u64, fileId: u64,
    accessTime: NfsTime, modifyTime: NfsTime, changeTime: NfsTime)
  datatype WccAttributes = WccAttributes(size: u64, modifyTime: NfsTime, changeTime: NfsTime)
  datatype WccData = WccData(before: Option<WccAttributes>, after: Option<FileAttributes>)

  datatype Extension = Basic | Plus(attributes: Option<FileAttributes>, handle: Option<Handle>)
  datatype Entry = Entry(fileId: u64, name: seq<byte>, cookie: u64, extension: Extension)

  datatype ReadDirResult =
    | Listing(attributes: Option<FileAttributes>, verifier: Verifier, entries: seq<Entry>, eof: bool)
    | ListingError(status: u32, attributes: Option<FileAttributes>)

  datatype ReadResult =
    | ReadOk(attributes: Option<FileAttributes>, data: seq<byte>, eof: bool)
    | ReadError(status: u32, attributes: Option<FileAttributes>)

  /** The results of the procedures that change the file system. REMOVE, RMDIR and
      SETATTR share one shape, as do CREATE, MKDIR, SYMLINK and MKNOD. */
  datatype MutationResult =
    | Wcc(status: u32, wcc: WccData)
    | WriteOk(wcc: WccData, count: u32, committed: Arguments.Stability, verifier: Verifier)
    | CreateOk(handle: Option<Handle>, attributes: Option<FileAttributes>, wcc: WccData)
    | Link(status: u32, attributes: Option<FileAttributes>, wcc: WccData)
    | Rename(status: u32, from: WccData, to: WccData)
    | CommitOk(wcc: WccData, verifier: Verifier)

  const NFS_OK: u32 := 0
  const TOO_SMALL: u32 := 10005

  datatype EncodeError = TooLarge(size: nat) | InvalidTime(seconds: u64, nanoseconds: u32)

  datatype Encoded = Bytes(bytes: seq<byte>) | Failed(error: EncodeError)

  /** One encoding after another; the first error wins. */
  function Then(a: Encoded, b: Encoded): Encoded {
    if a.Failed? then a
    else if b.Failed? then b
    else Bytes(a.bytes + b.bytes)
  }

  function Size(e: Encoded): nat {
    if e.Failed? then 0 else |e.bytes|
  }

  function Word(n: u32): Encoded {
    Bytes(Be32(n))
  }

  function Long(n: u64): Encoded {
    Bytes(Be64(n))
  }

  function Bool(b: bool): Encoded {
    Word(if b then 1 else 0)
  }

  function Opaque(b: seq<byte>): Encoded {
    if |b| >= U32_BOUND then Failed(TooLarge(|b|)) else Bytes(PutOpaque(b, []))
  }

  function Time(t: NfsTime): Encoded {
    if t.seconds >= U32_BOUND || t.nanoseconds > Arguments.MAX_NANOSECONDS
    then Failed(InvalidTime(t.seconds, t.nanoseconds))
    else Then(Word(t.seconds), Word(t.nanoseconds))
  }

  function TypeCode(t: FileType): u32 {
    match t
    case Regular => 1
    case Directory => 2
    case BlockDevice => 3
    case CharacterDevice => 4
    case Symlink => 5
    case Socket => 6
    case Fifo => 7
  }

  /** A device number appears on the wire only for device nodes. */
  function WireDevice(a: FileAttributes): Device {
    if (a.fileType.BlockDevice? || a.fileType.CharacterDevice?) && a.device.Some?
    then a.device.value
    else Device(0, 0)
  }

  function Ownership(a: FileAttributes): (b: seq<byte>)
    ensures |b| == 20
  {
    Be32(TypeCode(a.fileType)) + Be32(a.mode) + Be32(a.links) + Be32(a.uid) + Be32(a.gid)
  }

  function Extent(a: FileAttributes): (b: seq<byte>)
    ensures |b| == 24
  {
    Be64(a.size) + Be64(a.used) + Be32(WireDevice(a).major) + Be32(WireDevice(a).minor)
  }

  function FixedAttributes(a: FileAttributes): (r: Encoded)
    ensures r.Bytes? && |r.bytes| == 60
  {
    Bytes(Ownership(a) + (Extent(a) + (Be64(a.fsId) + Be64(a.fileId))))
  }

  function Attributes(a: FileAttributes): Encoded {
    Then(FixedAttributes(a), Then(Time(a.accessTime), Then(Time(a.modifyTime), Time(a.changeTime))))
  }

  function PostAttributes(a: Option<FileAttributes>): Encoded {
    if a.None? then Bool(false) else Then(Bool(true), Attributes(a.value))
  }

  function Before(w: Option<WccAttributes>): Encoded {
    if w.None? then Bool(false)
    else Then(Bool(true), Then(Long(w.value.size), Then(Time(w.value.modifyTime), Time(w.value.changeTime))))
  }

  function WccBytes(w: WccData): Encoded {
    Then(Before(w.before), PostAttributes(w.after))
  }

  function OptionalHandle(h: Option<Handle>): Encoded {
    if h.None? then Bool(false) else Then(Bool(true), Opaque(h.value))
  }

  function ExtensionBytes(x: Extension): Encoded {
    match x
    case Basic => Bytes([])
    case Plus(attributes, handle) => Then(PostAttributes(attributes), OptionalHandle(handle))
  }

  function EntryBytes(e: Entry): Encoded {
    Then(Bool(true), Then(Long(e.fileId), Then(Opaque(e.name), Then(Long(e.cookie), ExtensionBytes(e.extension)))))
  }

  function Entries(es: seq<Entry>): Encoded {
    if es == [] then Bytes([]) else Then(Entries(es[..|es| - 1]), EntryBytes(es[|es| - 1]))
  }

  /** What comes before the entries of a listing, and what comes after them. */
  function ListingHead(attributes: Option<FileAttributes>, verifier: Verifier): Encoded {
    Then(Word(NFS_OK), Then(PostAttributes(attributes), Bytes(verifier)))
  }

  function ListingTail(eof: bool): Encoded {
    Then(Bool(false), Bool(eof))
  }

  function ReadDirBytes(r: ReadDirResult): Encoded {
    match r
    case Listing(attributes, verifier, entries, eof) =>
      Then(Then(ListingHead(attributes, verifier), Entries(entries)), ListingTail(eof))
    case ListingError(status, attributes) => Then(Word(status), PostAttributes(attributes))
  }

  /** section 3.3.6 of RFC 1813. */
  function ReadBytes(r: ReadResult): Encoded {
    match r
    case ReadOk(attributes, data, eof) =>
      Then(Word(NFS_OK), Then(PostAttributes(attributes), Then(DataLength(data), Then(Bool(eof), Opaque(data)))))
    case ReadError(status, attributes) => Then(Word(status), PostAttributes(attributes))
  }

  function DataLength(data: seq<byte>): Encoded {
    if |data| >= U32_BOUND then Failed(TooLarge(|data|)) else Word(|data|)
  }

  function StabilityCode(s: Arguments.Stability): u32 {
    match s
    case Unstable => 0
    case DataSync => 1
    case FileSync => 2
  }

  function MutationBytes(r: MutationResult): Encoded {
    match r
    case Wcc(status, wcc) => Then(Word(status), WccBytes(wcc))
    case WriteOk(wcc, count, committed, verifier) =>
      Then(Word(NFS_OK), Then(WccBytes(wcc), Then(Word(count), Then(Word(StabilityCode(committed)), Bytes(verifier)))))
    case CreateOk(handle, attributes, wcc) =>
      Then(Word(NFS_OK), Then(OptionalHandle(handle), Then(PostAttributes(attributes), WccBytes(wcc))))
    case Link(status, attributes, wcc) => Then(Word(status), Then(PostAttributes(attributes), WccBytes(wcc)))
    case Rename(status, from, to) => Then(Word(status), Then(WccBytes(from), WccBytes(to)))
    case CommitOk(wcc, verifier) => Then(Word(NFS_OK), Then(WccBytes(wcc), Bytes(verifier)))
  }

  /** The accepted-reply header (RFC 5531): transaction, REPLY, MSG_ACCEPTED, an empty
      AUTH_NONE verifier, status. */
  function Envelope(xid: u32, status: u32): (r: Encoded)
    ensures r.Bytes? && |r.bytes| == 24
  {
    Bytes(Be32(xid) + Be32(1) + Be32(0) + Be32(0) + Be32(0) + Be32(status))
  }

  /** A result behind the header of a successful call. */
  function Typed(xid: u32, result: Encoded): Encoded {
    Then(Envelope(xid, 0), result)
  }

  // ------------------------------------------------------------------------- sizes

  lemma ThenAssociates(a: Encoded, b: Encoded, c: Encoded)
    ensures Then(Then(a, b), c) == Then(a, Then(b, c))
  {
    if a.Bytes? && b.Bytes? && c.Bytes? {
      assert (a.bytes + b.bytes) + c.bytes == a.bytes + (b.bytes + c.bytes);
    }
  }

  lemma TimeSize(t: NfsTime)
    requires Time(t).Bytes?
    ensures |Time(t).bytes| == 8
  {
  }

  /** NFS times are 32-bit seconds and less than a second of nanoseconds. */
  predicate IsWireTime(t: NfsTime) {
    t.seconds <= 0xffff_ffff && t.nanoseconds <= 999_999_999
  }

  /** Attributes can be sent exactly if their three times can; otherwise the error names the
      first that cannot. */
  lemma AttributesOutcome(a: FileAttributes)
    ensures Attributes(a).Bytes? <==>
              IsWireTime(a.accessTime) && IsWireTime(a.modifyTime) && IsWireTime(a.changeTime)
    ensures Attributes(a).Failed? ==>
              var bad := if !IsWireTime(a.accessTime) then a.accessTime
                         else if !IsWireTime(a.modifyTime) then a.modifyTime
                         else a.changeTime;
              Attributes(a).error == InvalidTime(bad.seconds, bad.nanoseconds)
  {
    hide Be32, Ownership, Extent, Be64;
  }

  lemma AttributesSize(a: FileAttributes)
    requires Attributes(a).Bytes?
    ensures |Attributes(a).bytes| == 84
  {
    hide Time, FixedAttributes;
    TimeSize(a.accessTime);
    TimeSize(a.modifyTime);
    TimeSize(a.changeTime);
  }

  lemma PostAttributesSize(a: Option<FileAttributes>)
    requires PostAttributes(a).Bytes?
    ensures |PostAttributes(a).bytes| == if a.None? then 4 else 88
  {
    hide Attributes;
    if a.Some? {
      AttributesSize(a.value);
    }
  }

  lemma WccSize(w: WccData)
    requires WccBytes(w).Bytes?
    ensures |WccBytes(w).bytes| == (if w.before.None? then 4 else 28) + (if w.after.None? then 4 else 88)
  {
    hide PostAttributes, Time;
    PostAttributesSize(w.after);
    if w.before.Some? {
      TimeSize(w.before.value.modifyTime);
      TimeSize(w.before.value.changeTime);
    }
  }

  /** No mutation result with a handle of at most 64 bytes is larger than 280 bytes,
      which with the header makes the 304 that the transport limits reserve. */
  lemma MutationSize(r: MutationResult)
    requires MutationBytes(r).Bytes?
    requires r.CreateOk? && r.handle.Some? ==> |r.handle.value| <= Arguments.MAX_HANDLE
    ensures |MutationBytes(r).bytes| <= 280
  {
    hide PostAttributes, WccBytes;
    match r
    case Wcc(_, wcc) => WccSize(wcc);
    case WriteOk(wcc, _, _, _) => WccSize(wcc);
    case CreateOk(handle, attributes, wcc) =>
      WccSize(wcc);
      PostAttributesSize(attributes);
    case Link(_, attributes, wcc) =>
      WccSize(wcc);
      PostAttributesSize(attributes);
    case Rename(_, from, to) =>
      WccSize(from);
      WccSize(to);
    case CommitOk(wcc, _) => WccSize(wcc);
  }

  /** The bound is attained: a CREATE reply with nothing left out. */
  lemma LargestMutation(handle: Handle, attributes: FileAttributes, wcc: WccData)
    requires |handle| == Arguments.MAX_HANDLE && wcc.before.Some? && wcc.after.Some?
    requires MutationBytes(CreateOk(Some(handle), Some(attributes), wcc)).Bytes?
    ensures |MutationBytes(CreateOk(Some(handle), Some(attributes), wcc)).bytes| == 280
  {
    hide PostAttributes, WccBytes;
    WccSize(wcc);
    PostAttributesSize(Some(attributes));
  }

  /** A READ result is at most 107 bytes longer than its data, and that long when it
      carries attributes and its data need three bytes of padding. */
  lemma ReadSize(r: ReadResult)
    requires r.ReadOk? && ReadBytes(r).Bytes?
    ensures |ReadBytes(r).bytes| <= 4 + 88 + 4 + 4 + 4 + |r.data| + 3
    ensures r.attributes.Some? && |r.data| % 4 == 1 ==> |ReadBytes(r).bytes| == 4 + 88 + 4 + 4 + 4 + |r.data| + 3
  {
    hide PostAttributes;
    PostAttributesSize(r.attributes);
  }

  lemma ListingSize(attributes: Option<FileAttributes>, verifier: Verifier, entries: seq<Entry>, eof: bool)
    requires PostAttributes(attributes).Bytes? && Entries(entries).Bytes?
    ensures var r := ReadDirBytes(Listing(attributes, verifier, entries, eof));
            && r.Bytes?
            && |r.bytes| == 4 + (if attributes.None? then 4 else 88) + 8 + |Entries(entries).bytes| + 8
  {
    hide PostAttributes, Entries;
    PostAttributesSize(attributes);
  }

  lemma {:induction false} EntriesPrefix(es: seq<Entry>, k: nat)
    requires k <= |es| && Entries(es).Bytes?
    ensures Entries(es[..k]).Bytes? && Size(Entries(es[..k])) <= Size(Entries(es))
    ensures k < |es| ==> EntryBytes(es[k]).Bytes?
  {
    hide EntryBytes;
    if k == |es| {
      assert es[..k] == es;
    } else {
      var init := es[..|es| - 1];
      if k == |es| - 1 {
      } else {
        EntriesPrefix(init, k);
        assert init[..k] == es[..k];
      }
    }
  }
}
