/** Encoded RPC replies (src/rpc/reply.rs): one contiguous buffer, or a protocol
    prefix, an opaque payload and its XDR padding kept apart. */
module Replies {
  import opened Sequences

  datatype Storage =
    | Contiguous(bytes: seq<byte>)
    | Segmented(prefix: seq<byte>, payload: seq<byte>, padding: nat, len: nat)

  /** `retained` is the size of the whole backing allocation when it is known. */
  datatype EncodedReply = EncodedReply(storage: Storage, retained: Option<nat>) {

    /** What the constructors of the source establish. */
    ghost predicate Valid() {
      && (storage.Segmented? ==>
            && storage.padding <= 3
            && storage.len == |storage.prefix| + |storage.payload| + storage.padding)
      && (retained.Some? ==> retained.value >= |Wire()|)
    }

    /** The three buffers handed to the transport, in wire order. */
    function Segments(): (seq<byte>, seq<byte>, seq<byte>) {
      match storage
      case Contiguous(bytes) => (bytes, [], [])
      case Segmented(prefix, payload, padding, _) => (prefix, payload, Zeros(padding))
    }

    /** The bytes that reach the socket. */
    function Wire(): seq<byte> {
      var (a, b, c) := Segments();
      a + b + c
    }

    function Len(): nat {
      match storage
      case Contiguous(bytes) => |bytes|
      case Segmented(_, _, _, len) => len
    }

    predicate RequiresCopy() {
      retained.None?
    }
  }

  type Reply = r: EncodedReply | r.Valid() witness EncodedReply(Contiguous([]), None)

  function Zeros(n: nat): (z: seq<byte>)
    ensures |z| == n
  {
    seq(n, _ => 0)
  }

  function MakeSegmented(prefix: seq<byte>, payload: seq<byte>, padding: nat): (r: Reply)
    requires padding <= 3
    ensures r.Wire() == prefix + payload + Zeros(padding)
    ensures r.RequiresCopy()
  {
    EncodedReply(Segmented(prefix, payload, padding, |prefix| + |payload| + padding), None)
  }

  /** A reply made from an owned vector is charged its whole capacity. */
  function FromVec(bytes: seq<byte>, capacity: nat): (r: Reply)
    requires capacity >= |bytes|
    ensures r.Wire() == bytes && r.retained == Some(capacity)
    ensures forall a: nat, b: nat :: ReplayStorage(r, a, b) == (r, capacity)
  {
    assert bytes + [] + [] == bytes;
    EncodedReply(Contiguous(bytes), Some(capacity))
  }

  lemma LenIsWireLength(r: Reply)
    ensures r.Len() == |r.Wire()|
  {
  }

  /** Storage for the replay cache and the bytes to charge for it. A reply whose
      backing allocation is unknown is copied; `slackPrefix` and `slackPayload`
      are what the allocator adds to the two requested capacities. The stored
      reply carries the same wire bytes, and its charge covers them. */
  function ReplayStorage(r: Reply, slackPrefix: nat, slackPayload: nat): (s: (Reply, nat))
    ensures s.0.Wire() == r.Wire()
    ensures s.1 >= r.Len()
    ensures s.0.retained == Some(s.1)
  {
    LenIsWireLength(r);
    if r.retained.Some? then (r, r.retained.value)
    else match r.storage
      case Contiguous(bytes) =>
        var charge := |bytes| + slackPrefix;
        (EncodedReply(Contiguous(bytes), Some(charge)), charge)
      case Segmented(prefix, payload, padding, len) =>
        var charge := Max(len, |prefix| + slackPrefix + |payload| + slackPayload);
        assert EncodedReply(Segmented(prefix, payload, padding, len), Some(charge)).Wire() == r.Wire();
        (EncodedReply(Segmented(prefix, payload, padding, len), Some(charge)), charge)
  }

  /** Coalesces the segments into one buffer. */
  method IntoBytes(r: Reply) returns (output: seq<byte>)
    ensures output == r.Wire()
  {
    match r.storage {
      case Contiguous(bytes) =>
        output := bytes;
        assert output + [] + [] == output;
      case Segmented(prefix, payload, padding, _) =>
        output := [];
        var segments := [prefix, payload, Zeros(padding)];
        var i := 0;
        while i < 3
          invariant 0 <= i <= 3
          invariant i == 0 ==> output == []
          invariant i == 1 ==> output == prefix
          invariant i == 2 ==> output == prefix + payload
          invariant i == 3 ==> output == r.Wire()
        {
          output := output + segments[i];
          i := i + 1;
        }
    }
  }

  /** Reply equality compares lengths first and then the segments byte by byte, so
      it holds exactly when both replies put the same bytes on the wire, however
      the two are split. */
  method SameReply(left: Reply, right: Reply) returns (same: bool)
    ensures same <==> left.Wire() == right.Wire()
  {
    LenIsWireLength(left);
    LenIsWireLength(right);
    if left.Len() != right.Len() { return false; }
    var l, r := left.Wire(), right.Wire();
    var i := 0;
    while i < |l|
      invariant 0 <= i <= |l| == |r|
      invariant l[..i] == r[..i]
    {
      if l[i] != r[i] { return false; }
      i := i + 1;
    }
    assert l == l[..i] && r == r[..i];
    same := true;
  }
}
