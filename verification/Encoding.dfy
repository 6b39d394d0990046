/** The encoder itself (src/rpc/codec.rs, src/nfs3/codec.rs): every write appends to
    the output. Each encoder is proved to append exactly the bytes of the value, or to
    stop with its first error. */
module Encoding {
  import opened Sequences
  import opened BigEndian
  import opened Replies
  import opened Xdr
  import opened Results
  import Arguments

  datatype Outcome = Pass | Fail(error: EncodeError) {
    predicate IsFailure() {
      Fail?
    }

    function PropagateFailure(): Outcome
      requires Fail?
    {
      this
    }
  }

  /** After an error the output is discarded. */
  ghost predicate Appends(spec: Encoded, before: seq<byte>, r: Outcome, after: seq<byte>) {
    match spec
    case Bytes(b) => r.Pass? && after == before + b
    case Failed(e) => r == Fail(e)
  }

  /** Two encoders run one after the other append one encoding after the other. */
  lemma AppendsThen(a: Encoded, b: Encoded, s0: seq<byte>, s1: seq<byte>, r: Outcome, s2: seq<byte>)
    requires Appends(a, s0, Pass, s1) && Appends(b, s1, r, s2)
    ensures Appends(Then(a, b), s0, r, s2)
  {
    if b.Bytes? {
      assert (s0 + a.bytes) + b.bytes == s0 + (a.bytes + b.bytes);
    }
  }

  class Encoder {
    var output: seq<byte>

    constructor ()
      ensures output == []
    {
      output := [];
    }

    method WriteU32(value: u32)
      modifies this
      ensures Appends(Word(value), old(output), Pass, output)
    {
      output := output + Be32(value);
    }

    method WriteU64(value: u64)
      modifies this
      ensures Appends(Long(value), old(output), Pass, output)
    {
      output := output + Be64(value);
    }

    method WriteBool(value: bool)
      modifies this
      ensures Appends(Bool(value), old(output), Pass, output)
    {
      WriteU32(if value then 1 else 0);
    }

    method WriteFixed(value: seq<byte>)
      modifies this
      ensures Appends(Bytes(value), old(output), Pass, output)
    {
      output := output + value;
    }

    method WriteOpaque(value: seq<byte>) returns (r: Outcome)
      modifies this
      ensures Appends(Opaque(value), old(output), r, output)
    {
      hide Be32, Zeros;
      if |value| >= U32_BOUND {
        return Fail(TooLarge(|value|));
      }
      var padding := (4 - |value| % 4) % 4;
      var finalLength := |output| + 4 + |value| + padding;
      WriteU32(|value|);
      output := output + value;
      output := output + Zeros(finalLength - |output|);
      assert output == old(output) + (Be32(|value|) + (value + (Zeros(padding) + [])));
      return Pass;
    }
  }

  method EncodeTime(e: Encoder, t: NfsTime) returns (r: Outcome)
    modifies e
    ensures Appends(Time(t), old(e.output), r, e.output)
  {
    if t.seconds >= U32_BOUND {
      return Fail(InvalidTime(t.seconds, t.nanoseconds));
    }
    if t.nanoseconds > Arguments.MAX_NANOSECONDS {
      return Fail(InvalidTime(t.seconds, t.nanoseconds));
    }
    hide Word;
    ghost var s0 := e.output;
    e.WriteU32(t.seconds);
    ghost var s1 := e.output;
    e.WriteU32(t.nanoseconds);
    AppendsThen(Word(t.seconds), Word(t.nanoseconds), s0, s1, Pass, e.output);
    return Pass;
  }

  method EncodeOwnership(e: Encoder, a: FileAttributes)
    modifies e
    ensures e.output == old(e.output) + Ownership(a)
  {
    hide Be32, TypeCode;
    e.WriteU32(TypeCode(a.fileType));
    e.WriteU32(a.mode);
    e.WriteU32(a.links);
    e.WriteU32(a.uid);
    e.WriteU32(a.gid);
  }

  method EncodeExtent(e: Encoder, a: FileAttributes)
    modifies e
    ensures e.output == old(e.output) + Extent(a)
  {
    hide Be32, Be64;
    e.WriteU64(a.size);
    e.WriteU64(a.used);
    var device := Device(0, 0);
    if a.fileType.BlockDevice? || a.fileType.CharacterDevice? {
      device := if a.device.Some? then a.device.value else Device(0, 0);
    }
    e.WriteU32(device.major);
    e.WriteU32(device.minor);
  }

  method EncodeFixedAttributes(e: Encoder, a: FileAttributes)
    modifies e
    ensures Appends(FixedAttributes(a), old(e.output), Pass, e.output)
  {
    hide Be64, Ownership, Extent;
    EncodeOwnership(e, a);
    EncodeExtent(e, a);
    e.WriteU64(a.fsId);
    e.WriteU64(a.fileId);
    assert e.output == old(e.output) + FixedAttributes(a).bytes;
  }

  method EncodeTimes(e: Encoder, a: NfsTime, b: NfsTime) returns (r: Outcome)
    modifies e
    ensures Appends(Then(Time(a), Time(b)), old(e.output), r, e.output)
  {
    hide Time;
    :- EncodeTime(e, a);
    ghost var s1 := e.output;
    r := EncodeTime(e, b);
    AppendsThen(Time(a), Time(b), old(e.output), s1, r, e.output);
  }

  method EncodeAttributes(e: Encoder, a: FileAttributes) returns (r: Outcome)
    modifies e
    ensures Appends(Attributes(a), old(e.output), r, e.output)
  {
    hide Time, FixedAttributes;
    EncodeFixedAttributes(e, a);
    ghost var s1 := e.output;
    :- EncodeTime(e, a.accessTime);
    ghost var s2 := e.output;
    r := EncodeTimes(e, a.modifyTime, a.changeTime);
    ghost var last := Then(Time(a.modifyTime), Time(a.changeTime));
    AppendsThen(Time(a.accessTime), last, s1, s2, r, e.output);
    AppendsThen(FixedAttributes(a), Then(Time(a.accessTime), last), old(e.output), s1, r, e.output);
  }

  method EncodePostAttributes(e: Encoder, a: Option<FileAttributes>) returns (r: Outcome)
    modifies e
    ensures Appends(PostAttributes(a), old(e.output), r, e.output)
  {
    hide Bool, Attributes;
    e.WriteBool(a.Some?);
    if a.None? {
      return Pass;
    }
    ghost var s1 := e.output;
    r := EncodeAttributes(e, a.value);
    AppendsThen(Bool(true), Attributes(a.value), old(e.output), s1, r, e.output);
  }

  method EncodeBefore(e: Encoder, w: Option<WccAttributes>) returns (r: Outcome)
    modifies e
    ensures Appends(Before(w), old(e.output), r, e.output)
  {
    hide Bool, Long, Time;
    e.WriteBool(w.Some?);
    if w.None? {
      return Pass;
    }
    ghost var s1 := e.output;
    e.WriteU64(w.value.size);
    ghost var s2 := e.output;
    r := EncodeTimes(e, w.value.modifyTime, w.value.changeTime);
    ghost var times := Then(Time(w.value.modifyTime), Time(w.value.changeTime));
    AppendsThen(Long(w.value.size), times, s1, s2, r, e.output);
    AppendsThen(Bool(true), Then(Long(w.value.size), times), old(e.output), s1, r, e.output);
  }

  method EncodeWcc(e: Encoder, w: WccData) returns (r: Outcome)
    modifies e
    ensures Appends(WccBytes(w), old(e.output), r, e.output)
  {
    hide Before, PostAttributes;
    :- EncodeBefore(e, w.before);
    ghost var s1 := e.output;
    r := EncodePostAttributes(e, w.after);
    AppendsThen(Before(w.before), PostAttributes(w.after), old(e.output), s1, r, e.output);
  }

  method EncodeOptionalHandle(e: Encoder, h: Option<Handle>) returns (r: Outcome)
    modifies e
    ensures Appends(OptionalHandle(h), old(e.output), r, e.output)
  {
    hide Bool, Opaque;
    e.WriteBool(h.Some?);
    if h.None? {
      return Pass;
    }
    ghost var s1 := e.output;
    r := e.WriteOpaque(h.value);
    AppendsThen(Bool(true), Opaque(h.value), old(e.output), s1, r, e.output);
  }

  method EncodeExtension(e: Encoder, x: Extension) returns (r: Outcome)
    modifies e
    ensures Appends(ExtensionBytes(x), old(e.output), r, e.output)
  {
    hide PostAttributes, OptionalHandle;
    match x {
      case Basic => return Pass;
      case Plus(attributes, handle) =>
        :- EncodePostAttributes(e, attributes);
        ghost var s1 := e.output;
        r := EncodeOptionalHandle(e, handle);
        AppendsThen(PostAttributes(attributes), OptionalHandle(handle), old(e.output), s1, r, e.output);
    }
  }

  method EncodeEntry(e: Encoder, entry: Entry) returns (r: Outcome)
    modifies e
    ensures Appends(EntryBytes(entry), old(e.output), r, e.output)
  {
    hide Bool, Long, Opaque, ExtensionBytes;
    e.WriteBool(true);
    ghost var s1 := e.output;
    e.WriteU64(entry.fileId);
    ghost var s2 := e.output;
    :- e.WriteOpaque(entry.name);
    ghost var s3 := e.output;
    e.WriteU64(entry.cookie);
    ghost var s4 := e.output;
    r := EncodeExtension(e, entry.extension);
    ghost var extension := ExtensionBytes(entry.extension);
    ghost var fromCookie := Then(Long(entry.cookie), extension);
    ghost var fromName := Then(Opaque(entry.name), fromCookie);
    AppendsThen(Long(entry.cookie), extension, s3, s4, r, e.output);
    AppendsThen(Opaque(entry.name), fromCookie, s2, s3, r, e.output);
    AppendsThen(Long(entry.fileId), fromName, s1, s2, r, e.output);
    AppendsThen(Bool(true), Then(Long(entry.fileId), fromName), old(e.output), s1, r, e.output);
  }

  /** An entry that fails makes every longer list fail the same way. */
  lemma {:induction false} EntriesFail(es: seq<Entry>, k: nat, error: EncodeError)
    requires k <= |es| && Entries(es[..k]) == Failed(error)
    ensures Entries(es) == Failed(error)
    decreases |es|
  {
    hide EntryBytes;
    if k == |es| {
      assert es[..k] == es;
    } else {
      assert es[..|es| - 1][..k] == es[..k];
      EntriesFail(es[..|es| - 1], k, error);
    }
  }

  method EncodeEntries(e: Encoder, entries: seq<Entry>) returns (r: Outcome)
    modifies e
    ensures Appends(Entries(entries), old(e.output), r, e.output)
  {
    hide EntryBytes;
    var i := 0;
    while i < |entries|
      invariant 0 <= i <= |entries|
      invariant Appends(Entries(entries[..i]), old(e.output), Pass, e.output)
    {
      ghost var s1 := e.output;
      r := EncodeEntry(e, entries[i]);
      assert entries[..i + 1][..i] == entries[..i];
      AppendsThen(Entries(entries[..i]), EntryBytes(entries[i]), old(e.output), s1, r, e.output);
      if r.Fail? {
        EntriesFail(entries, i + 1, r.error);
        return;
      }
      i := i + 1;
    }
    assert entries[..i] == entries;
    return Pass;
  }

  method EncodeListingHead(e: Encoder, attributes: Option<FileAttributes>, verifier: Verifier) returns (r: Outcome)
    modifies e
    ensures Appends(ListingHead(attributes, verifier), old(e.output), r, e.output)
  {
    hide Word, PostAttributes;
    e.WriteU32(NFS_OK);
    ghost var s1 := e.output;
    :- EncodePostAttributes(e, attributes);
    ghost var s2 := e.output;
    e.WriteFixed(verifier);
    AppendsThen(PostAttributes(attributes), Bytes(verifier), s1, s2, Pass, e.output);
    AppendsThen(Word(NFS_OK), Then(PostAttributes(attributes), Bytes(verifier)), old(e.output), s1, Pass, e.output);
    return Pass;
  }

  method EncodeStatus(e: Encoder, status: u32, attributes: Option<FileAttributes>) returns (r: Outcome)
    modifies e
    ensures Appends(Then(Word(status), PostAttributes(attributes)), old(e.output), r, e.output)
  {
    hide Word, PostAttributes;
    e.WriteU32(status);
    ghost var s1 := e.output;
    r := EncodePostAttributes(e, attributes);
    AppendsThen(Word(status), PostAttributes(attributes), old(e.output), s1, r, e.output);
  }

  method EncodeReadDir(e: Encoder, result: ReadDirResult) returns (r: Outcome)
    modifies e
    ensures Appends(ReadDirBytes(result), old(e.output), r, e.output)
  {
    hide ListingHead, Entries, Bool, PostAttributes;
    match result {
      case Listing(attributes, verifier, entries, eof) =>
        :- EncodeListingHead(e, attributes, verifier);
        ghost var s1 := e.output;
        :- EncodeEntries(e, entries);
        ghost var s2 := e.output;
        AppendsThen(ListingHead(attributes, verifier), Entries(entries), old(e.output), s1, Pass, s2);
        e.WriteBool(false);
        ghost var s3 := e.output;
        e.WriteBool(eof);
        AppendsThen(Bool(false), Bool(eof), s2, s3, Pass, e.output);
        AppendsThen(Then(ListingHead(attributes, verifier), Entries(entries)), ListingTail(eof),
                    old(e.output), s2, Pass, e.output);
        return Pass;
      case ListingError(status, attributes) =>
        r := EncodeStatus(e, status, attributes);
    }
  }

  method EncodeRead(e: Encoder, result: ReadResult) returns (r: Outcome)
    modifies e
    ensures Appends(ReadBytes(result), old(e.output), r, e.output)
  {
    hide Word, Bool, Opaque, PostAttributes;
    match result {
      case ReadOk(attributes, data, eof) =>
        e.WriteU32(NFS_OK);
        ghost var s1 := e.output;
        :- EncodePostAttributes(e, attributes);
        ghost var s2 := e.output;
        if |data| >= U32_BOUND {
          return Fail(TooLarge(|data|));
        }
        e.WriteU32(|data|);
        ghost var s3 := e.output;
        e.WriteBool(eof);
        ghost var s4 := e.output;
        r := e.WriteOpaque(data);
        AppendsThen(Bool(eof), Opaque(data), s3, s4, r, e.output);
        AppendsThen(DataLength(data), Then(Bool(eof), Opaque(data)), s2, s3, r, e.output);
        ghost var fromLength := Then(DataLength(data), Then(Bool(eof), Opaque(data)));
        AppendsThen(PostAttributes(attributes), fromLength, s1, s2, r, e.output);
        AppendsThen(Word(NFS_OK), Then(PostAttributes(attributes), fromLength), old(e.output), s1, r, e.output);
      case ReadError(status, attributes) =>
        r := EncodeStatus(e, status, attributes);
    }
  }

  method EncodeAttributesAndWcc(e: Encoder, attributes: Option<FileAttributes>, wcc: WccData) returns (r: Outcome)
    modifies e
    ensures Appends(Then(PostAttributes(attributes), WccBytes(wcc)), old(e.output), r, e.output)
  {
    hide PostAttributes, WccBytes;
    :- EncodePostAttributes(e, attributes);
    ghost var s1 := e.output;
    r := EncodeWcc(e, wcc);
    AppendsThen(PostAttributes(attributes), WccBytes(wcc), old(e.output), s1, r, e.output);
  }

  method EncodeWrite(e: Encoder, wcc: WccData, count: u32, committed: Arguments.Stability, verifier: Verifier)
    returns (r: Outcome)
    modifies e
    ensures Appends(Then(WccBytes(wcc), Then(Word(count), Then(Word(StabilityCode(committed)), Bytes(verifier)))),
                    old(e.output), r, e.output)
  {
    hide Word, WccBytes, StabilityCode;
    :- EncodeWcc(e, wcc);
    ghost var s1 := e.output;
    e.WriteU32(count);
    ghost var s2 := e.output;
    e.WriteU32(StabilityCode(committed));
    ghost var s3 := e.output;
    e.WriteFixed(verifier);
    ghost var fromStability := Then(Word(StabilityCode(committed)), Bytes(verifier));
    AppendsThen(Word(StabilityCode(committed)), Bytes(verifier), s2, s3, Pass, e.output);
    AppendsThen(Word(count), fromStability, s1, s2, Pass, e.output);
    AppendsThen(WccBytes(wcc), Then(Word(count), fromStability), old(e.output), s1, Pass, e.output);
    return Pass;
  }

  /** What follows the status word of a mutation result. */
  method EncodeMutationBody(e: Encoder, result: MutationResult) returns (r: Outcome, ghost body: Encoded)
    modifies e
    ensures Appends(body, old(e.output), r, e.output)
    ensures MutationBytes(result) == Then(Word(MutationStatus(result)), body)
  {
    hide Word, PostAttributes, WccBytes, OptionalHandle, StabilityCode;
    match result {
      case Wcc(_, wcc) =>
        body := WccBytes(wcc);
        r := EncodeWcc(e, wcc);
      case WriteOk(wcc, count, committed, verifier) =>
        body := Then(WccBytes(wcc), Then(Word(count), Then(Word(StabilityCode(committed)), Bytes(verifier))));
        r := EncodeWrite(e, wcc, count, committed, verifier);
      case CreateOk(handle, attributes, wcc) =>
        body := Then(OptionalHandle(handle), Then(PostAttributes(attributes), WccBytes(wcc)));
        r := EncodeOptionalHandle(e, handle);
        if r.Pass? {
          ghost var s1 := e.output;
          r := EncodeAttributesAndWcc(e, attributes, wcc);
          AppendsThen(OptionalHandle(handle), Then(PostAttributes(attributes), WccBytes(wcc)),
                      old(e.output), s1, r, e.output);
        }
      case Link(_, attributes, wcc) =>
        body := Then(PostAttributes(attributes), WccBytes(wcc));
        r := EncodeAttributesAndWcc(e, attributes, wcc);
      case Rename(_, from, to) =>
        body := Then(WccBytes(from), WccBytes(to));
        r := EncodeWcc(e, from);
        if r.Pass? {
          ghost var s1 := e.output;
          r := EncodeWcc(e, to);
          AppendsThen(WccBytes(from), WccBytes(to), old(e.output), s1, r, e.output);
        }
      case CommitOk(wcc, verifier) =>
        body := Then(WccBytes(wcc), Bytes(verifier));
        r := EncodeWcc(e, wcc);
        if r.Pass? {
          ghost var s1 := e.output;
          e.WriteFixed(verifier);
          AppendsThen(WccBytes(wcc), Bytes(verifier), old(e.output), s1, Pass, e.output);
        }
    }
  }

  function MutationStatus(r: MutationResult): u32 {
    if r.Wcc? || r.Link? || r.Rename? then r.status else NFS_OK
  }

  method EncodeMutation(e: Encoder, result: MutationResult) returns (r: Outcome)
    modifies e
    ensures Appends(MutationBytes(result), old(e.output), r, e.output)
  {
    hide MutationBytes, Word;
    e.WriteU32(MutationStatus(result));
    ghost var s1 := e.output;
    ghost var body;
    r, body := EncodeMutationBody(e, result);
    AppendsThen(Word(MutationStatus(result)), body, old(e.output), s1, r, e.output);
  }

  /** The encoder positioned after the accepted-reply header. */
  method AcceptedReplyEncoder(xid: u32, status: u32) returns (e: Encoder)
    ensures fresh(e) && e.output == Envelope(xid, status).bytes
  {
    hide Be32;
    e := new Encoder();
    e.WriteU32(xid);
    e.WriteU32(1);
    e.WriteU32(0);
    e.WriteU32(0);
    e.WriteU32(0);
    e.WriteU32(status);
    assert [] + Be32(xid) == Be32(xid);
  }

  // ------------------------------------------------------------------- READ replies

  datatype Replied = Replied(reply: Reply) | Refused(error: EncodeError)

  /** The fixed fields in front of the payload, in one encoder. */
  method ReadPrefix(xid: u32, attributes: Option<FileAttributes>, length: u32, eof: bool)
    returns (r: Outcome, prefix: seq<byte>)
    ensures Appends(Then(Envelope(xid, 0), Then(Word(NFS_OK), Then(PostAttributes(attributes),
              Then(Word(length), Then(Bool(eof), Word(length)))))), [], r, prefix)
  {
    hide Envelope, Word, Bool, PostAttributes;
    var e := AcceptedReplyEncoder(xid, 0);
    ghost var s0 := e.output;
    e.WriteU32(NFS_OK);
    ghost var s1 := e.output;
    r := EncodePostAttributes(e, attributes);
    prefix := e.output;
    if r.Fail? {
      return;
    }
    ghost var s2 := e.output;
    e.WriteU32(length);
    ghost var s3 := e.output;
    e.WriteBool(eof);
    ghost var s4 := e.output;
    e.WriteU32(length);
    prefix := e.output;
    ghost var fromLength := Then(Word(length), Then(Bool(eof), Word(length)));
    AppendsThen(Bool(eof), Word(length), s3, s4, r, prefix);
    AppendsThen(Word(length), Then(Bool(eof), Word(length)), s2, s3, r, prefix);
    AppendsThen(PostAttributes(attributes), fromLength, s1, s2, r, prefix);
    AppendsThen(Word(NFS_OK), Then(PostAttributes(attributes), fromLength), s0, s1, r, prefix);
    AppendsThen(Envelope(xid, 0), Then(Word(NFS_OK), Then(PostAttributes(attributes), fromLength)), [], s0, r, prefix);
  }

  /** The prefix, the payload and its padding are the contiguous encoding. */
  lemma SegmentsAreContiguous(xid: u32, attributes: Option<FileAttributes>, data: seq<byte>, eof: bool)
    requires |data| < U32_BOUND
    ensures var prefix := Then(Envelope(xid, 0), Then(Word(NFS_OK), Then(PostAttributes(attributes),
                            Then(Word(|data|), Then(Bool(eof), Word(|data|))))));
            Typed(xid, ReadBytes(ReadOk(attributes, data, eof))) ==
            Then(prefix, Bytes(data + Zeros(Padding(|data|))))
  {
    hide Envelope, Word, Bool, PostAttributes, Then, Zeros, Padding;
    var payload := Bytes(data + Zeros(Padding(|data|)));
    assert Opaque(data) == Then(Word(|data|), payload) by {
      hide Padding, Zeros, Be32;
      assert Zeros(Padding(|data|)) + [] == Zeros(Padding(|data|));
      OpaqueSplits(data);
    }
    var w, b, p, ok, env := Word(|data|), Bool(eof), PostAttributes(attributes), Word(NFS_OK), Envelope(xid, 0);
    ThenAssociates(b, w, payload);
    ThenAssociates(w, Then(b, w), payload);
    ThenAssociates(p, Then(w, Then(b, w)), payload);
    ThenAssociates(ok, Then(p, Then(w, Then(b, w))), payload);
    ThenAssociates(env, Then(ok, Then(p, Then(w, Then(b, w)))), payload);
  }

  lemma OpaqueSplits(data: seq<byte>)
    requires |data| < U32_BOUND
    ensures Opaque(data) == Then(Word(|data|), Bytes(data + Zeros(Padding(|data|))))
  {
    hide Padding, Zeros, Be32;
    assert data + (Zeros(Padding(|data|)) + []) == data + Zeros(Padding(|data|));
  }

  /** The zero-copy READ reply. Wherever the data fits a 32-bit length, which the clamp
      to `max_read_size` guarantees, its segments joined together are the contiguous
      encoding of the same result, and it fails exactly where that encoding fails. A
      longer payload is refused by both, this one naming the payload first. */
  method ReadSuccessReply(xid: u32, attributes: Option<FileAttributes>, data: seq<byte>, eof: bool)
    returns (r: Replied)
    ensures |data| < U32_BOUND ==>
              match Typed(xid, ReadBytes(ReadOk(attributes, data, eof)))
              case Bytes(b) => r.Replied? && r.reply.Wire() == b && r.reply.RequiresCopy()
              case Failed(error) => r == Refused(error)
    ensures |data| >= U32_BOUND ==>
              && r == Refused(TooLarge(|data|))
              && Typed(xid, ReadBytes(ReadOk(attributes, data, eof))).Failed?
  {
    hide Envelope, Word, Bool, PostAttributes, Opaque;
    if |data| >= U32_BOUND {
      return Refused(TooLarge(|data|));
    }
    SegmentsAreContiguous(xid, attributes, data, eof);
    var outcome, prefix := ReadPrefix(xid, attributes, |data|, eof);
    if outcome.Fail? {
      return Refused(outcome.error);
    }
    var padding := (4 - |data| % 4) % 4;
    var reply := MakeSegmented(prefix, data, padding);
    assert prefix + data + Zeros(padding) == prefix + (data + Zeros(padding));
    return Replied(reply);
  }

  /** The copy of a READ reply kept for replay carries the contiguous encoding too, and
      is charged at least its length. */
  method CachedReadReply(xid: u32, attributes: Option<FileAttributes>, data: seq<byte>, eof: bool,
                         slackPrefix: nat, slackPayload: nat)
    returns (r: Replied, charge: nat)
    requires |data| < U32_BOUND
    ensures match Typed(xid, ReadBytes(ReadOk(attributes, data, eof)))
            case Bytes(b) => r.Replied? && r.reply.Wire() == b && charge >= |b| && r.reply.retained == Some(charge)
            case Failed(error) => r == Refused(error)
  {
    hide Typed, ReadBytes;
    r := ReadSuccessReply(xid, attributes, data, eof);
    charge := 0;
    if r.Replied? {
      LenIsWireLength(r.reply);
      var stored := ReplayStorage(r.reply, slackPrefix, slackPayload);
      r, charge := Replied(stored.0), stored.1;
    }
  }
}
