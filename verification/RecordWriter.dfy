/** The record writers of src/rpc/record.rs: one over a contiguous record, one
    over three segments, both over a sink that may accept any part of a write. */
module RecordWriter {
  import opened Sequences
  import opened RecordFormat

  /** What a writer has done to a sink: `r` tells whether all of `wire` went out, and
      only an I/O error may cut it short. */
  ghost predicate Emitted(before: seq<byte>, after: seq<byte>, wire: seq<byte>, r: Result<()>) {
    match r
    case Ok(_) => after == before + wire
    case Err(e) => e == Io && exists n :: 0 <= n <= |wire| && after == before + wire[..n]
  }

  lemma EmittedAll(before: seq<byte>, after: seq<byte>, wire: seq<byte>, r: Result<()>)
    requires Emitted(before, after, wire, r) && r.Ok?
    ensures after == before + wire
  {
  }

  lemma EmittedOk(before: seq<byte>, after: seq<byte>, wire: seq<byte>)
    requires after == before + wire
    ensures Emitted(before, after, wire, Ok(()))
  {
  }

  /** A failure in a later part is a failure of the whole. */
  lemma EmittedCut(before: seq<byte>, done: seq<byte>, after: seq<byte>, part: seq<byte>, more: seq<byte>, r: Result<()>)
    requires Emitted(before + done, after, part, r) && r.Err?
    ensures Emitted(before, after, done + (part + more), r)
  {
    var n :| 0 <= n <= |part| && after == before + done + part[..n];
    assert (done + (part + more))[..|done| + n] == done + part[..n];
    assert after == before + (done + (part + more))[..|done| + n];
  }

  /** A sink whose k-th write takes at most `accepts(k)` bytes; a write that takes
      nothing is an error to the writer. */
  class Sink {
    var output: seq<byte>
    var calls: nat
    const accepts: nat -> nat
    const vectored: bool

    constructor (accepts: nat -> nat, vectored: bool)
      ensures output == [] && this.accepts == accepts && this.vectored == vectored
    {
      this.accepts, this.vectored := accepts, vectored;
      output, calls := [], 0;
    }

    method Write(buffer: seq<byte>) returns (written: nat)
      modifies this
      ensures written == Min(old(accepts(calls)), |buffer|)
      ensures output == old(output) + buffer[..written]
    {
      written := Min(accepts(calls), |buffer|);
      output := output + buffer[..written];
      calls := calls + 1;
    }

    method WriteVectored(slices: seq<seq<byte>>) returns (written: nat)
      modifies this
      ensures written == Min(old(accepts(calls)), |Concat(slices)|)
      ensures output == old(output) + Concat(slices)[..written]
    {
      written := Min(accepts(calls), |Concat(slices)|);
      output := output + Concat(slices)[..written];
      calls := calls + 1;
    }

    method WriteAll(buffer: seq<byte>) returns (r: Result<()>)
      modifies this
      ensures Emitted(old(output), output, buffer, r)
      ensures (forall k :: accepts(k) > 0) ==> r.Ok?
    {
      var rest := buffer;
      ghost var n := 0;
      while rest != []
        invariant 0 <= n <= |buffer| && rest == buffer[n..] && output == old(output) + buffer[..n]
        decreases |rest|
      {
        var written := Write(rest);
        assert buffer[..n] + rest[..written] == buffer[..n + written];
        n := n + written;
        rest := rest[written..];
        if written == 0 { return Err(Io); }
      }
      assert buffer[..n] == buffer;
      r := Ok(());
    }
  }

  /** Drops `n` written bytes from the front of a slice list. */
  function AdvanceSlices(slices: seq<seq<byte>>, n: nat): seq<seq<byte>>
    requires n <= |Concat(slices)|
  {
    if slices == [] then []
    else if |slices[0]| <= n then AdvanceSlices(slices[1..], n - |slices[0]|)
    else [slices[0][n..]] + slices[1..]
  }

  lemma {:induction false} AdvanceKeepsTheRest(slices: seq<seq<byte>>, n: nat)
    requires n <= |Concat(slices)|
    ensures Concat(AdvanceSlices(slices, n)) == Concat(slices)[n..]
  {
    if slices == [] {
    } else {
      if |slices[0]| <= n {
        AdvanceKeepsTheRest(slices[1..], n - |slices[0]|);
      } else {
        assert ([slices[0][n..]] + slices[1..])[1..] == slices[1..];
      }
    }
  }

  predicate NoneEmpty(slices: seq<seq<byte>>) {
    forall i :: 0 <= i < |slices| ==> slices[i] != []
  }

  lemma {:induction false} AdvanceKeepsNoneEmpty(slices: seq<seq<byte>>, n: nat)
    requires n <= |Concat(slices)| && NoneEmpty(slices)
    ensures NoneEmpty(AdvanceSlices(slices, n))
  {
    if slices != [] && |slices[0]| <= n {
      AdvanceKeepsNoneEmpty(slices[1..], n - |slices[0]|);
    }
  }

  /** Writes a slice list through short writes. Whatever the sink does, what it has
      received is a prefix of the slices' bytes, and all of them on success. */
  method WriteAllSlices(sink: Sink, slices: seq<seq<byte>>) returns (r: Result<()>)
    modifies sink
    ensures Emitted(old(sink.output), sink.output, Concat(slices), r)
    ensures (forall k :: sink.accepts(k) > 0) && NoneEmpty(slices) ==> r.Ok?
  {
    if sink.vectored {
      r := WriteGathered(sink, slices);
    } else {
      r := WriteEach(sink, slices);
    }
  }

  method WriteGathered(sink: Sink, slices: seq<seq<byte>>) returns (r: Result<()>)
    modifies sink
    ensures Emitted(old(sink.output), sink.output, Concat(slices), r)
    ensures (forall k :: sink.accepts(k) > 0) && NoneEmpty(slices) ==> r.Ok?
  {
    hide Emitted;
    ghost var start := sink.output;
    var rest := slices;
    ghost var sent: seq<byte> := [];
    while rest != []
      invariant Concat(slices) == sent + Concat(rest)
      invariant sink.output == start + sent
      invariant NoneEmpty(slices) ==> NoneEmpty(rest)
      decreases |Concat(rest)|
    {
      ghost var left := Concat(rest);
      var written := sink.WriteVectored(rest);
      assert NoneEmpty(rest) ==> |left| > 0;
      hide Concat, NoneEmpty;
      if written == 0 {
        NothingEmitted(start, sent, sink.output, left);
        return Err(Io);
      }
      AdvanceKeepsTheRest(rest, written);
      if NoneEmpty(rest) { AdvanceKeepsNoneEmpty(rest, written); }
      Regroup(sent, left, written);
      Regroup(start + sent, left, written);
      sent := sent + left[..written];
      rest := AdvanceSlices(rest, written);
    }
    assert Concat(slices) == sent;
    EmittedOk(start, sink.output, sent);
    r := Ok(());
  }

  lemma Regroup(a: seq<byte>, b: seq<byte>, n: nat)
    requires n <= |b|
    ensures a + b == (a + b[..n]) + b[n..]
  {
    assert b == b[..n] + b[n..];
  }

  lemma NothingEmitted(before: seq<byte>, done: seq<byte>, after: seq<byte>, more: seq<byte>)
    requires after == before + done + more[..0]
    ensures Emitted(before, after, done + more, Err(Io))
  {
    assert (done + more)[..|done|] == done;
  }

  method WriteEach(sink: Sink, slices: seq<seq<byte>>) returns (r: Result<()>)
    modifies sink
    ensures Emitted(old(sink.output), sink.output, Concat(slices), r)
    ensures (forall k :: sink.accepts(k) > 0) ==> r.Ok?
  {
    hide Emitted;
    ghost var all, start := Concat(slices), sink.output;
    ghost var sent: seq<byte> := [];
    var i := 0;
    while i < |slices|
      invariant 0 <= i <= |slices| && all == sent + Concat(slices[i..])
      invariant sink.output == start + sent
    {
      assert slices[i..][1..] == slices[i + 1..];
      ghost var more := Concat(slices[i + 1..]);
      assert all == sent + (slices[i] + more);
      r := sink.WriteAll(slices[i]);
      if r.Err? {
        EmittedCut(start, sent, sink.output, slices[i], more, r);
        return;
      }
      EmittedAll(start + sent, sink.output, slices[i], r);
      sent := sent + slices[i];
      i := i + 1;
    }
    assert all == sent;
    EmittedOk(start, sink.output, sent);
    r := Ok(());
  }

  // ------------------------------------------------------------- the contiguous writer

  lemma FramesStep(record: seq<byte>, size: nat)
    requires Writable(|record|, size)
    ensures |record| <= size ==> Frames(record, size) == Header(|record|, true) + record
    ensures |record| > size ==>
              && Writable(|record[size..]|, size)
              && Frames(record, size) == Header(size, false) + record[..size] + Frames(record[size..], size)
  {
    hide Header;
    if |record| > size {
      var chunks := Chunks(record, size);
      assert chunks[1..] == Chunks(record[size..], size);
    }
  }

  /** The error of a record whose fragments cannot be marked: it names the first fragment. */
  function Unwritable(length: nat, maxFragmentSize: nat): (e: RecordError)
    ensures maxFragmentSize == 0 ==> e == FragmentTooLarge(length, 0)
    ensures 0 < maxFragmentSize < length ==> e == FragmentTooLarge(maxFragmentSize, 0x7fff_ffff)
    ensures maxFragmentSize > 0 && length <= maxFragmentSize ==> e == FragmentTooLarge(length, 0x7fff_ffff)
  {
    if maxFragmentSize == 0 then FragmentTooLarge(length, 0)
    else FragmentTooLarge(Min(length, maxFragmentSize), MAX_MARKED)
  }

  lemma SlicesOfFragment(length: nat, last: bool, fragment: seq<byte>)
    requires length <= MAX_MARKED
    ensures Concat([Header(length, last), fragment]) == Header(length, last) + fragment
  {
    hide Header;
    assert [Header(length, last), fragment][1..] == [fragment];
    assert Concat([fragment]) == fragment + [];
  }

  /** Writes a contiguous record fragment by fragment. */
  method WriteFragments(sink: Sink, record: seq<byte>, maxFragmentSize: nat) returns (r: Result<()>)
    modifies sink
    ensures !Writable(|record|, maxFragmentSize) ==>
              r == Err(Unwritable(|record|, maxFragmentSize)) && sink.output == old(sink.output)
    ensures Writable(|record|, maxFragmentSize) ==>
              && Emitted(old(sink.output), sink.output, Frames(record, maxFragmentSize), r)
              && ((forall k :: sink.accepts(k) > 0) ==> r.Ok?)
  {
    if maxFragmentSize == 0 {
      return Err(FragmentTooLarge(|record|, 0));
    }
    hide Header, Frames, Emitted, FramesFrom;
    if record == [] {
      FramesStep(record, maxFragmentSize);
      assert Header(0, true) + [] == Header(0, true);
      r := sink.WriteAll(Header(0, true));
      return;
    }
    var rest := record;
    ghost var sent: seq<byte> := [];
    ghost var start := sink.output;
    NothingSent(record, maxFragmentSize);
    while rest != []
      invariant rest == record || Writable(|record|, maxFragmentSize)
      invariant Writable(|record|, maxFragmentSize) ==> FramesFrom(record, rest, sent, maxFragmentSize)
      invariant sink.output == start + sent
      invariant rest == record ==> sent == []
      decreases |rest|
    {
      var length := Min(|rest|, maxFragmentSize);
      if length > MAX_MARKED {
        return Err(FragmentTooLarge(length, MAX_MARKED));
      }
      var fragment, last := rest[..length], length == |rest|;
      var header := Header(length, last);
      ghost var wire := header + fragment;
      ghost var more := FramesAdvance(record, rest, sent, maxFragmentSize);
      SlicesOfFragment(length, last, fragment);
      r := WriteAllSlices(sink, [header, fragment]);
      if r.Err? {
        EmittedCut(start, sent, sink.output, wire, more, r);
        return;
      }
      EmittedAll(start + sent, sink.output, wire, r);
      assert start + sent + wire == start + (sent + wire);
      sent := sent + wire;
      rest := rest[length..];
    }
    AllFramed(record, rest, sent, maxFragmentSize);
    EmittedOk(start, sink.output, sent);
    r := Ok(());
  }

  /** `sent` is what precedes the frames of `rest` in those of `record`. */
  ghost predicate FramesFrom(record: seq<byte>, rest: seq<byte>, sent: seq<byte>, size: nat)
    requires Writable(|record|, size)
  {
    if rest == [] then Frames(record, size) == sent
    else Writable(|rest|, size) && Frames(record, size) == sent + Frames(rest, size)
  }

  /** Taking one fragment off the front of `rest`. */
  lemma FramesAdvance(record: seq<byte>, rest: seq<byte>, sent: seq<byte>, size: nat) returns (more: seq<byte>)
    requires Writable(|record|, size) && rest != [] && FramesFrom(record, rest, sent, size)
    ensures var length := Min(|rest|, size);
            var wire := Header(length, length == |rest|) + rest[..length];
            && Frames(record, size) == sent + (wire + more)
            && FramesFrom(record, rest[length..], sent + wire, size)
  {
    hide Header, Frames;
    FramesStep(rest, size);
    var length := Min(|rest|, size);
    var wire := Header(length, length == |rest|) + rest[..length];
    if length == |rest| {
      more := [];
      assert rest[..length] == rest && wire + [] == wire;
    } else {
      more := Frames(rest[size..], size);
      assert sent + (wire + more) == (sent + wire) + more;
    }
  }

  // -------------------------------------------------------------- the segmented writer

  predicate CursorOk(segments: seq<seq<byte>>, index: nat, offset: nat) {
    index <= |segments| && (if index < |segments| then offset <= |segments[index]| else offset == 0)
  }

  /** The bytes at and after a cursor. */
  function Rest(segments: seq<seq<byte>>, index: nat, offset: nat): seq<byte>
    requires CursorOk(segments, index, offset)
  {
    if index == |segments| then [] else segments[index][offset..] + Concat(segments[index + 1..])
  }

  lemma SkipSegment(segments: seq<seq<byte>>, index: nat, offset: nat)
    requires CursorOk(segments, index, offset) && index < |segments| && offset == |segments[index]|
    ensures CursorOk(segments, index + 1, 0)
    ensures Rest(segments, index + 1, 0) == Rest(segments, index, offset)
  {
    if index + 1 < |segments| {
      assert segments[index + 1..][1..] == segments[index + 2..];
    }
  }

  lemma TakeFromSegment(segments: seq<seq<byte>>, index: nat, offset: nat, take: nat)
    requires CursorOk(segments, index, offset) && index < |segments| && offset + take <= |segments[index]|
    ensures CursorOk(segments, index, offset + take)
    ensures take <= |Rest(segments, index, offset)|
    ensures Rest(segments, index, offset)[..take] == segments[index][offset..offset + take]
    ensures Rest(segments, index, offset)[take..] == Rest(segments, index, offset + take)
  {
    SliceOfAppend(segments[index][offset..], Concat(segments[index + 1..]), take);
    SliceOfSlice(segments[index], offset, take);
    hide Concat;
  }

  lemma SliceOfAppend(a: seq<byte>, b: seq<byte>, n: nat)
    requires n <= |a|
    ensures (a + b)[..n] == a[..n] && (a + b)[n..] == a[n..] + b
  {
  }

  lemma SliceOfSlice(a: seq<byte>, i: nat, n: nat)
    requires i + n <= |a|
    ensures a[i..][..n] == a[i..i + n] && a[i..][n..] == a[i + n..]
  {
  }

  /** Steps over segments that are used up. */
  method SkipExhausted(segments: seq<seq<byte>>, from: nat, fromOffset: nat) returns (index: nat, offset: nat)
    requires CursorOk(segments, from, fromOffset)
    ensures CursorOk(segments, index, offset)
    ensures Rest(segments, index, offset) == Rest(segments, from, fromOffset)
    ensures index < |segments| ==> offset < |segments[index]|
    ensures if from < |segments| && fromOffset == |segments[from]| then index > from else index == from && offset == fromOffset
  {
    hide Rest;
    index, offset := from, fromOffset;
    while index < |segments| && offset == |segments[index]|
      invariant CursorOk(segments, index, offset)
      invariant Rest(segments, index, offset) == Rest(segments, from, fromOffset)
      invariant index >= from && (index == from ==> offset == fromOffset)
      invariant index > from ==> from < |segments| && fromOffset == |segments[from]|
      decreases |segments| - index
    {
      SkipSegment(segments, index, offset);
      index, offset := index + 1, 0;
    }
  }

  /** Moves the cursor over the payload of one fragment. */
  method AdvanceSegments(segments: seq<seq<byte>>, from: nat, fromOffset: nat, count: nat) returns (index: nat, offset: nat)
    requires CursorOk(segments, from, fromOffset) && count <= |Rest(segments, from, fromOffset)|
    ensures CursorOk(segments, index, offset)
    ensures Rest(segments, index, offset) == Rest(segments, from, fromOffset)[count..]
  {
    hide Rest;
    ghost var all := Rest(segments, from, fromOffset);
    ghost var done: seq<byte> := [];
    index, offset := from, fromOffset;
    var left := count;
    while left > 0
      invariant CursorOk(segments, index, offset) && 0 <= left <= count
      invariant all == done + Rest(segments, index, offset) && |done| + left == count
      decreases left
    {
      index, offset := SkipExhausted(segments, index, offset);
      RestNotOver(segments, index, offset);
      var take := Min(|segments[index]| - offset, left);
      TakeFromSegment(segments, index, offset, take);
      Regroup(done, Rest(segments, index, offset), take);
      done := done + Rest(segments, index, offset)[..take];
      offset := offset + take;
      left := left - take;
    }
    SliceOfAppend(done, Rest(segments, index, offset), count);
  }

  lemma RestNotOver(segments: seq<seq<byte>>, index: nat, offset: nat)
    requires CursorOk(segments, index, offset) && Rest(segments, index, offset) != []
    ensures index < |segments|
  {
  }

  /** The next piece of at most `left` bytes, all from one segment. */
  method TakePiece(segments: seq<seq<byte>>, from: nat, fromOffset: nat, left: nat)
    returns (index: nat, offset: nat, piece: seq<byte>)
    requires CursorOk(segments, from, fromOffset) && 0 < left <= |Rest(segments, from, fromOffset)|
    ensures CursorOk(segments, index, offset) && index < |segments|
    ensures 0 < |piece| <= left && Rest(segments, from, fromOffset) == piece + Rest(segments, index, offset)
    ensures |piece| == left || offset == |segments[index]|
    ensures index >= from && (fromOffset == |segments[from]| ==> index > from)
  {
    hide Rest;
    RestNotOver(segments, from, fromOffset);
    index, offset := SkipExhausted(segments, from, fromOffset);
    RestNotOver(segments, index, offset);
    var take := Min(left, |segments[index]| - offset);
    TakeFromSegment(segments, index, offset, take);
    Regroup([], Rest(segments, index, offset), take);
    piece := segments[index][offset..offset + take];
    offset := offset + take;
  }

  /** Collects the slices of one fragment: its marker and what it takes from each of
      the three segments. Four slots are always enough. */
  method Gather(header: seq<byte>, segments: seq<seq<byte>>, index: nat, offset: nat, length: nat)
    returns (slices: array<seq<byte>>, sliceCount: nat)
    requires |segments| == 3 && header != []
    requires CursorOk(segments, index, offset) && length <= |Rest(segments, index, offset)|
    ensures slices.Length == 4 && 1 <= sliceCount <= 4
    ensures Concat(slices[..sliceCount]) == header + Rest(segments, index, offset)[..length]
    ensures NoneEmpty(slices[..sliceCount])
  {
    hide Rest, Concat, NoneEmpty;
    ghost var all := Rest(segments, index, offset);
    ghost var done: seq<byte> := [];
    slices := new seq<byte>[4];
    slices[0] := header;
    sliceCount := 1;
    var current: nat, currentOffset: nat, left: nat := index, offset, length;
    ghost var pieces := [header];
    assert slices[..1] == pieces;
    ConcatSplit(pieces);
    NoneEmptyAppend([], header);
    while left > 0
      invariant CursorOk(segments, current, currentOffset) && 0 <= left <= length
      invariant all == done + Rest(segments, current, currentOffset) && |done| + left == length
      invariant 1 <= sliceCount <= 4 && slices[..sliceCount] == pieces
      invariant left > 0 ==> sliceCount <= 1 + current + (if current < 3 && currentOffset == |segments[current]| then 1 else 0)
      invariant Concat(pieces) == header + done && NoneEmpty(pieces)
      decreases left
    {
      RestNotOver(segments, current, currentOffset);
      var piece;
      current, currentOffset, piece := TakePiece(segments, current, currentOffset, left);
      AddPiece(pieces, piece, header, done);
      assert done + (piece + Rest(segments, current, currentOffset)) == (done + piece) + Rest(segments, current, currentOffset);
      slices[sliceCount] := piece;
      sliceCount := sliceCount + 1;
      left := left - |piece|;
      pieces := pieces + [piece];
      done := done + piece;
    }
    SliceOfAppend(done, Rest(segments, current, currentOffset), length);
  }

  lemma AddPiece(pieces: seq<seq<byte>>, piece: seq<byte>, header: seq<byte>, done: seq<byte>)
    requires piece != [] && pieces != [] && NoneEmpty(pieces) && Concat(pieces) == header + done
    ensures NoneEmpty(pieces + [piece]) && Concat(pieces + [piece]) == header + (done + piece)
  {
    ConcatAppend(pieces, piece);
    NoneEmptyAppend(pieces, piece);
    assert header + done + piece == header + (done + piece);
  }

  lemma NoneEmptyAppend(parts: seq<seq<byte>>, last: seq<byte>)
    requires (parts == [] || NoneEmpty(parts)) && last != []
    ensures NoneEmpty(parts + [last]) && (parts == [] ==> parts + [last] == [last])
  {
  }

  lemma {:induction false} ConcatAppend(parts: seq<seq<byte>>, last: seq<byte>)
    ensures Concat(parts + [last]) == Concat(parts) + last
  {
    if parts == [] {
      assert [] + [last] == [last];
      ConcatSplit([last]);
    } else {
      assert (parts + [last])[1..] == parts[1..] + [last];
      ConcatAppend(parts[1..], last);
    }
  }

  /** Writes a record held in three segments without joining them: the sink receives
      exactly what the contiguous writer would send for the joined record. */
  method WriteSegmentedFragments(sink: Sink, segments: seq<seq<byte>>, totalLength: nat, maxFragmentSize: nat)
    returns (r: Result<()>)
    requires |segments| == 3 && totalLength == |Concat(segments)| && maxFragmentSize > 0
    modifies sink
    ensures !Writable(totalLength, maxFragmentSize) ==>
              r == Err(Unwritable(totalLength, maxFragmentSize)) && sink.output == old(sink.output)
    ensures Writable(totalLength, maxFragmentSize) ==>
              && Emitted(old(sink.output), sink.output, Frames(Concat(segments), maxFragmentSize), r)
              && ((forall k :: sink.accepts(k) > 0) ==> r.Ok?)
  {
    hide Header, Frames, Emitted, Rest, FramesFrom;
    ghost var record := Concat(segments);
    if totalLength == 0 {
      FramesStep(record, maxFragmentSize);
      assert Header(0, true) + [] == Header(0, true);
      r := sink.WriteAll(Header(0, true));
      return;
    }
    var segmentIndex, segmentOffset, remaining := 0, 0, totalLength;
    ghost var sent: seq<byte> := [];
    ghost var start := sink.output;
    WholeRecord(segments, maxFragmentSize);
    NothingSent(record, maxFragmentSize);
    while remaining > 0
      invariant CursorOk(segments, segmentIndex, segmentOffset)
      invariant remaining == |Rest(segments, segmentIndex, segmentOffset)|
      invariant remaining == totalLength || Writable(totalLength, maxFragmentSize)
      invariant Writable(totalLength, maxFragmentSize) ==>
                  FramesFrom(record, Rest(segments, segmentIndex, segmentOffset), sent, maxFragmentSize)
      invariant sink.output == start + sent
      invariant remaining == totalLength ==> sent == []
      decreases remaining
    {
      ghost var rest := Rest(segments, segmentIndex, segmentOffset);
      var fragmentLength := Min(remaining, maxFragmentSize);
      if fragmentLength > MAX_MARKED {
        return Err(FragmentTooLarge(fragmentLength, MAX_MARKED));
      }
      var header := Header(fragmentLength, fragmentLength == remaining);
      var slices, sliceCount := Gather(header, segments, segmentIndex, segmentOffset, fragmentLength);
      ghost var wire := header + rest[..fragmentLength];
      ghost var more := FramesAdvance(record, rest, sent, maxFragmentSize);
      r := WriteAllSlices(sink, slices[..sliceCount]);
      if r.Err? {
        EmittedCut(start, sent, sink.output, wire, more, r);
        return;
      }
      EmittedAll(start + sent, sink.output, wire, r);
      assert start + sent + wire == start + (sent + wire);
      sent := sent + wire;
      segmentIndex, segmentOffset := AdvanceSegments(segments, segmentIndex, segmentOffset, fragmentLength);
      remaining := remaining - fragmentLength;
    }
    AllFramed(record, Rest(segments, segmentIndex, segmentOffset), sent, maxFragmentSize);
    EmittedOk(start, sink.output, sent);
    r := Ok(());
  }

  lemma WholeRecord(segments: seq<seq<byte>>, size: nat)
    requires |segments| == 3 && Concat(segments) != []
    ensures CursorOk(segments, 0, 0) && Rest(segments, 0, 0) == Concat(segments)
  {
  }

  lemma NothingSent(record: seq<byte>, size: nat)
    requires record != []
    ensures Writable(|record|, size) ==> FramesFrom(record, record, [], size)
  {
    hide Frames;
  }

  lemma AllFramed(record: seq<byte>, rest: seq<byte>, sent: seq<byte>, size: nat)
    requires Writable(|record|, size) && FramesFrom(record, rest, sent, size) && rest == []
    ensures Frames(record, size) == sent
  {
  }

  // -------------------------------------------------------------------- limited writers

  /** The bytes of a limited write, for whatever layout the record had in memory. */
  ghost predicate LimitedWrite(before: seq<byte>, after: seq<byte>, record: seq<byte>, limits: RecordLimits, r: Result<()>) {
    var valid := ValidateRecordLength(|record|, limits);
    if valid.Err? then r == valid && after == before
    else if !Writable(|record|, limits.maxFragmentSize) then
      r == Err(Unwritable(|record|, limits.maxFragmentSize)) && after == before
    else Emitted(before, after, Frames(record, limits.maxFragmentSize), r)
  }

  method WriteRecordLimited(sink: Sink, record: seq<byte>, limits: RecordLimits) returns (r: Result<()>)
    modifies sink
    ensures LimitedWrite(old(sink.output), sink.output, record, limits, r)
  {
    hide Frames, Emitted;
    r := ValidateRecordLength(|record|, limits);
    if r.Ok? {
      r := WriteFragments(sink, record, limits.maxFragmentSize);
    }
  }

  method WriteRecordSegmentsLimited(sink: Sink, segments: seq<seq<byte>>, limits: RecordLimits) returns (r: Result<()>)
    requires |segments| == 3
    modifies sink
    ensures LimitedWrite(old(sink.output), sink.output, Concat(segments), limits, r)
  {
    hide Frames, Emitted;
    var length := 0;
    var i := 0;
    while i < 3
      invariant 0 <= i <= 3 && length + |Concat(segments[i..])| == |Concat(segments)|
      invariant sink.output == old(sink.output)
    {
      assert segments[i..][1..] == segments[i + 1..];
      length := length + |segments[i]|;
      i := i + 1;
    }
    r := ValidateRecordLength(length, limits);
    if r.Ok? {
      r := WriteSegmentedFragments(sink, segments, length, limits.maxFragmentSize);
    }
  }

  /** Both writers, on the same record: a successful write leaves bytes that the
      reader turns back into the record, however the record was segmented. */
  lemma WrittenIsReadBack(before: seq<byte>, after: seq<byte>, record: seq<byte>, limits: RecordLimits, rest: seq<byte>)
    requires LimitedWrite(before, after, record, limits, Ok(()))
    ensures |before| <= |after| && after[..|before|] == before
    ensures Parse(after[|before|..] + rest, limits, [], 0) == Ok((record, rest))
  {
    hide Frames, Parse;
    RecordRoundTrip(record, rest, limits);
  }
}
