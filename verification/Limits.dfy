/** Configured limits (src/server/limits.rs) and what they promise: every reply the server
    builds itself for a READ, a directory listing or a mutation passes the outbound check. */
module Limits {
  import opened Sequences
  import opened BigEndian
  import opened RecordFormat
  import opened Replies
  import opened Results
  import opened Encoding
  import opened ReadDirSelection
  import ReadDirTheorems
  import opened ResultsReadBack
  import Xdr
  import Arguments

  const MAXIMUM_MUTATION_REPLY_SIZE: nat := 304
  const MAX_VALID_RPC_CALL_PREFIX_SIZE: nat := 440
  const MAX_FILE_HANDLE_XDR_SIZE: nat := 68
  const WRITE_ARGUMENT_FIXED_SIZE: nat := MAX_FILE_HANDLE_XDR_SIZE + 8 + 4 + 4 + 4
  const MAXIMUM_WRITE_RECORD_OVERHEAD: nat := MAX_VALID_RPC_CALL_PREFIX_SIZE + WRITE_ARGUMENT_FIXED_SIZE + 3
  const MAXIMUM_READ_REPLY_OVERHEAD: nat := 24 + 4 + 88 + 4 + 4 + 4 + 3
  const READDIR_REPLY_OVERHEAD: nat := 24 + 4
  const MAX_PERMITS: nat := USIZE_MAX / 8
  const SYSTEM_ERR: u32 := 5

  type usize = n: nat | n <= USIZE_MAX

  datatype ServerLimits = ServerLimits(
    maxConnections: usize, maxRequestsPerConnection: usize, maxInflightRequests: usize,
    maxRpcRecordSize: usize, maxRpcFragmentSize: usize, maxFragmentsPerRecord: usize,
    maxBufferedRequestBytes: usize, maxBufferedReplyBytes: usize,
    maxReadSize: u32, maxWriteSize: u32, maxReaddirResponseSize: u32,
    replayCacheCapacity: usize, replayCacheMaxBytes: usize, maxMounts: usize)

  datatype Complaint =
    | NoConnections
    | NoRequests
    | TooManyPermits
    | RecordBelowFragment
    | BeyondWire
    | ZeroLimit
    | BufferBudget
    | MutationReplies
    | TransferSizes

  function SaturatingMul(a: usize, b: usize): usize {
    Min(a * b, USIZE_MAX)
  }

  function TransportCapacity(l: ServerLimits): usize {
    Min(l.maxRpcRecordSize, SaturatingMul(l.maxRpcFragmentSize, l.maxFragmentsPerRecord))
  }

  /** The first complaint, if any. */
  function Validate(l: ServerLimits): Option<Complaint> {
    if l.maxConnections == 0 then Some(NoConnections)
    else if l.maxRequestsPerConnection == 0 || l.maxInflightRequests == 0 then
      Some(NoRequests)
    else if l.maxConnections > MAX_PERMITS || l.maxRequestsPerConnection > MAX_PERMITS
            || l.maxInflightRequests > MAX_PERMITS then
      Some(TooManyPermits)
    else if l.maxRpcFragmentSize == 0 || l.maxRpcRecordSize < l.maxRpcFragmentSize then
      Some(RecordBelowFragment)
    else if l.maxRpcFragmentSize > 0x7fff_ffff || l.maxRpcRecordSize > 0xffff_ffff then
      Some(BeyondWire)
    else if l.maxFragmentsPerRecord == 0 || l.replayCacheCapacity == 0 || l.replayCacheMaxBytes == 0
            || l.maxMounts == 0 then
      Some(ZeroLimit)
    else if l.maxBufferedRequestBytes < l.maxRpcRecordSize || l.maxBufferedReplyBytes < l.maxRpcRecordSize
            || l.maxBufferedRequestBytes > MAX_PERMITS || l.maxBufferedReplyBytes > MAX_PERMITS then
      Some(BufferBudget)
    else if l.maxRpcRecordSize < MAXIMUM_MUTATION_REPLY_SIZE
            || DivCeil(MAXIMUM_MUTATION_REPLY_SIZE, l.maxRpcFragmentSize) > l.maxFragmentsPerRecord then
      Some(MutationReplies)
    else if l.maxReadSize == 0 || l.maxWriteSize == 0 || l.maxReaddirResponseSize == 0
            || l.maxReadSize > SaturatingSub(TransportCapacity(l), MAXIMUM_READ_REPLY_OVERHEAD)
            || l.maxWriteSize > SaturatingSub(TransportCapacity(l), MAXIMUM_WRITE_RECORD_OVERHEAD)
            || l.maxReaddirResponseSize > SaturatingSub(TransportCapacity(l), READDIR_REPLY_OVERHEAD) then
      Some(TransferSizes)
    else None
  }

  function ProductionDefaults(): ServerLimits {
    ServerLimits(1024, 32, 2048, 2 * 1024 * 1024, 1024 * 1024, 16, 64 * 1024 * 1024, 64 * 1024 * 1024,
                 1024 * 1024, 1024 * 1024, 1024 * 1024, 4096, 64 * 1024 * 1024, 4096)
  }

  /** The defaults pass their own validation: 1024 connections of 32 requests, 2048 executions,
      records of 2 MiB in at most 16 fragments of 1 MiB, 64 MiB of requests, of replies and of
      cached replies, transfers of 1 MiB, and 4096 cached replies and mounts. */
  lemma DefaultsAreValid()
    ensures Validate(ProductionDefaults()).None?
    ensures var l := ProductionDefaults();
            && (l.maxConnections, l.maxRequestsPerConnection, l.maxInflightRequests) == (1024, 32, 2048)
            && (l.maxRpcRecordSize, l.maxRpcFragmentSize, l.maxFragmentsPerRecord) == (0x20_0000, 0x10_0000, 16)
            && l.maxBufferedRequestBytes == l.maxBufferedReplyBytes == l.replayCacheMaxBytes == 0x400_0000
            && l.maxReadSize == l.maxWriteSize == l.maxReaddirResponseSize == 0x10_0000
            && l.replayCacheCapacity == l.maxMounts == 4096
  {
    assert DivCeil(MAXIMUM_MUTATION_REPLY_SIZE, 1024 * 1024) == 1;
  }

  /** The same limits as the record layer sees them. */
  function Transport(l: ServerLimits): RecordLimits {
    RecordLimits(l.maxRpcRecordSize, l.maxRpcFragmentSize, l.maxFragmentsPerRecord)
  }

  predicate Carries(l: ServerLimits, length: nat) {
    ValidateRecordLength(length, Transport(l)).Ok?
  }

  /** Everything `validate` asks for that is not about record sizes. */
  predicate Sane(l: ServerLimits) {
    && 1 <= l.maxConnections <= MAX_PERMITS
    && 1 <= l.maxRequestsPerConnection <= MAX_PERMITS
    && 1 <= l.maxInflightRequests <= MAX_PERMITS
    && 1 <= l.maxRpcFragmentSize <= 0x7fff_ffff
    && l.maxRpcFragmentSize <= l.maxRpcRecordSize <= 0xffff_ffff
    && 1 <= l.replayCacheCapacity && 1 <= l.replayCacheMaxBytes && 1 <= l.maxMounts
    && l.maxRpcRecordSize <= l.maxBufferedRequestBytes <= MAX_PERMITS
    && l.maxRpcRecordSize <= l.maxBufferedReplyBytes <= MAX_PERMITS
    && 1 <= l.maxReadSize && 1 <= l.maxWriteSize && 1 <= l.maxReaddirResponseSize
  }

  lemma CarriesIsCapacity(l: ServerLimits, length: nat)
    requires 1 <= l.maxRpcFragmentSize && 1 <= l.maxFragmentsPerRecord
    ensures Carries(l, length) <==> length <= TransportCapacity(l)
  {
    hide ValidateRecordLength;
    ValidateIsExact(length, Transport(l));
  }

  /** `validate` accepts exactly the sane limits under which the record layer carries the
      largest mutation reply, the largest READ reply, the largest listing and the largest
      WRITE call; the saturating arithmetic changes nothing. */
  lemma ValidateIsAdequacy(l: ServerLimits)
    ensures Validate(l).None? <==>
            && Sane(l)
            && Carries(l, MAXIMUM_MUTATION_REPLY_SIZE)
            && Carries(l, l.maxReadSize + MAXIMUM_READ_REPLY_OVERHEAD)
            && Carries(l, l.maxWriteSize + MAXIMUM_WRITE_RECORD_OVERHEAD)
            && Carries(l, l.maxReaddirResponseSize + READDIR_REPLY_OVERHEAD)
  {
    hide Carries, TransportCapacity, DivCeil;
    if l.maxRpcFragmentSize > 0 && l.maxFragmentsPerRecord > 0 {
      MutationBound(l);
      CarriesIsCapacity(l, MAXIMUM_MUTATION_REPLY_SIZE);
      CarriesIsCapacity(l, l.maxReadSize + MAXIMUM_READ_REPLY_OVERHEAD);
      CarriesIsCapacity(l, l.maxWriteSize + MAXIMUM_WRITE_RECORD_OVERHEAD);
      CarriesIsCapacity(l, l.maxReaddirResponseSize + READDIR_REPLY_OVERHEAD);
    } else {
      NeedsFragments(l);
    }
  }

  lemma NeedsFragments(l: ServerLimits)
    requires l.maxRpcFragmentSize == 0 || l.maxFragmentsPerRecord == 0
    ensures !Carries(l, MAXIMUM_MUTATION_REPLY_SIZE)
  {
    hide ValidateRecordLength;
    ValidateIsExact(MAXIMUM_MUTATION_REPLY_SIZE, Transport(l));
  }

  lemma MutationBound(l: ServerLimits)
    requires 1 <= l.maxRpcFragmentSize && 1 <= l.maxFragmentsPerRecord
    ensures Carries(l, MAXIMUM_MUTATION_REPLY_SIZE) <==>
            && MAXIMUM_MUTATION_REPLY_SIZE <= l.maxRpcRecordSize
            && DivCeil(MAXIMUM_MUTATION_REPLY_SIZE, l.maxRpcFragmentSize) <= l.maxFragmentsPerRecord
  {
  }

  lemma CarriesShorter(l: ServerLimits, longer: nat, shorter: nat)
    requires Carries(l, longer) && shorter <= longer
    ensures Carries(l, shorter)
  {
    hide ValidateRecordLength;
    ValidateIsExact(longer, Transport(l));
    ValidateIsExact(shorter, Transport(l));
  }

  // ------------------------------------------------------------------------- outbound

  /** The reply that leaves the server for an encoded result: itself, or a bare SYSTEM_ERR
      when it could not be encoded or is too large; nothing if even that is too large. */
  function Outbound(xid: u32, reply: Encoded, l: ServerLimits): Option<seq<byte>> {
    var failure := Envelope(xid, SYSTEM_ERR).bytes;
    var bytes := if reply.Bytes? then reply.bytes else failure;
    if Carries(l, |bytes|) then Some(bytes)
    else if Carries(l, |failure|) then Some(failure)
    else None
  }

  /** Under accepted limits there is always a reply: the encoded one if it exists and fits the
      record layer, and otherwise one in which the client reads its own transaction, the
      status SYSTEM_ERR (5 in RFC 5531), and nothing more. */
  lemma AlwaysAnswers(xid: u32, reply: Encoded, l: ServerLimits)
    requires Validate(l).None?
    ensures Outbound(xid, reply, l).Some?
    ensures reply.Bytes? && |reply.bytes| <= l.maxRpcRecordSize
            && |reply.bytes| <= l.maxRpcFragmentSize * l.maxFragmentsPerRecord ==>
              Outbound(xid, reply, l).value == reply.bytes
    ensures !(reply.Bytes? && |reply.bytes| <= l.maxRpcRecordSize
              && |reply.bytes| <= l.maxRpcFragmentSize * l.maxFragmentsPerRecord) ==>
              ReadEnvelope(Outbound(xid, reply, l).value) == Xdr.Ok(((xid, 5), []))
  {
    hide Validate, ValidateRecordLength, Envelope, ReadEnvelope;
    ValidateIsAdequacy(l);
    var failure := Envelope(xid, SYSTEM_ERR).bytes;
    EnvelopeBack(xid, SYSTEM_ERR, []);
    assert failure + [] == failure;
    CarriesShorter(l, MAXIMUM_MUTATION_REPLY_SIZE, 24);
    ValidateIsExact(MAXIMUM_MUTATION_REPLY_SIZE, Transport(l));
    if reply.Bytes? {
      ValidateIsExact(|reply.bytes|, Transport(l));
    }
  }

  /** The data a READ returns: never more than the client asked for or the limit allows. */
  function ClampedData(data: seq<byte>, requested: u32, maxReadSize: u32): (r: seq<byte>)
    ensures |r| == Min(|data|, Min(requested, maxReadSize)) && r <= data
  {
    var count := Min(requested, maxReadSize);
    if |data| > count then data[..count] else data
  }

  /** Every READ success is sent as encoded, whatever the backend returned. */
  lemma ReadIsDelivered(xid: u32, attributes: Option<FileAttributes>, data: seq<byte>, requested: u32, eof: bool,
                        l: ServerLimits)
    requires Validate(l).None?
    requires PostAttributes(attributes).Bytes?
    ensures var reply := Typed(xid, ReadBytes(ReadOk(attributes, ClampedData(data, requested, l.maxReadSize), eof)));
            reply.Bytes? && Outbound(xid, reply, l) == Some(reply.bytes)
  {
    hide Carries, Validate, PostAttributes;
    var result := ReadOk(attributes, ClampedData(data, requested, l.maxReadSize), eof);
    ReadSize(result);
    ValidateIsAdequacy(l);
    CarriesShorter(l, l.maxReadSize + MAXIMUM_READ_REPLY_OVERHEAD, 24 + |ReadBytes(result).bytes|);
  }

  /** So the zero-copy reply passes the outbound check too. */
  method DispatchRead(xid: u32, attributes: Option<FileAttributes>, data: seq<byte>, requested: u32, eof: bool,
                      l: ServerLimits) returns (r: Replied)
    requires Validate(l).None?
    ensures PostAttributes(attributes).Bytes? ==>
              && r.Replied? && Carries(l, r.reply.Len())
              && Typed(xid, ReadBytes(ReadOk(attributes, ClampedData(data, requested, l.maxReadSize), eof)))
                 == Bytes(r.reply.Wire())
    ensures PostAttributes(attributes).Failed? ==> r == Refused(PostAttributes(attributes).error)
  {
    hide Carries, Validate, PostAttributes;
    var count := Min(requested, l.maxReadSize);
    var payload := if |data| > count then data[..count] else data;
    r := ReadSuccessReply(xid, attributes, payload, eof);
    if r.Replied? {
      LenIsWireLength(r.reply);
      ReadIsDelivered(xid, attributes, data, requested, eof, l);
    }
  }

  /** Every READDIR or READDIRPLUS reply is sent as encoded: the listing and TOOSMALL. */
  lemma ListingIsDelivered(xid: u32, plus: bool, attributes: Option<FileAttributes>, page: Page,
                           directoryLimit: Option<nat>, requested: u32, l: ServerLimits, r: ReadDirResult)
    requires Validate(l).None?
    requires IsChoice(plus, attributes, page, directoryLimit, Min(requested, l.maxReaddirResponseSize), Chosen(r))
    ensures var reply := Typed(xid, ReadDirBytes(r));
            reply.Bytes? && Outbound(xid, reply, l) == Some(reply.bytes)
  {
    hide Carries, Validate, PostAttributes, Longest, Obstacle, IsChoice;
    ValidateIsAdequacy(l);
    var wireLimit := Min(requested, l.maxReaddirResponseSize);
    if r.Listing? {
      ReadDirTheorems.ListingIsLongest(plus, attributes, page, directoryLimit, wireLimit, r);
      CarriesShorter(l, l.maxReaddirResponseSize + READDIR_REPLY_OVERHEAD, 24 + |ReadDirBytes(r).bytes|);
    } else {
      TooSmallSize(plus, attributes, page, directoryLimit, wireLimit, r);
      CarriesShorter(l, MAXIMUM_MUTATION_REPLY_SIZE, 24 + |ReadDirBytes(r).bytes|);
    }
  }

  lemma TooSmallSize(plus: bool, attributes: Option<FileAttributes>, page: Page, directoryLimit: Option<nat>,
                     wireLimit: nat, r: ReadDirResult)
    requires r.ListingError? && IsChoice(plus, attributes, page, directoryLimit, wireLimit, Chosen(r))
    ensures ReadDirBytes(r).Bytes? && |ReadDirBytes(r).bytes| <= 92
  {
    hide PostAttributes, Longest, Obstacle;
    assert PostAttributes(attributes).Bytes? && r.attributes == attributes;
    PostAttributesSize(attributes);
  }

  /** Every mutation result that can be encoded, with a handle no longer than the protocol
      allows, is sent as encoded: a side effect never loses its only reply to the
      transport. */
  lemma MutationIsDelivered(xid: u32, result: MutationResult, l: ServerLimits)
    requires Validate(l).None?
    requires MutationBytes(result).Bytes?
    requires result.CreateOk? && result.handle.Some? ==> |result.handle.value| <= Arguments.MAX_HANDLE
    ensures var reply := Typed(xid, MutationBytes(result));
            reply.Bytes? && Outbound(xid, reply, l) == Some(reply.bytes)
  {
    hide Carries, Validate, MutationBytes;
    ValidateIsAdequacy(l);
    MutationSize(result);
    CarriesShorter(l, MAXIMUM_MUTATION_REPLY_SIZE, 24 + |MutationBytes(result).bytes|);
  }
}
