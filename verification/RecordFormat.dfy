/** Record marking over a byte stream (section 11 of RFC 5531, src/rpc/record.rs):
    the wire form of a fragmented record, what the reader accepts, and why it
    reads back what the writer wrote. */
module RecordFormat {
  import opened Sequences
  import opened BigEndian

  const LAST_FRAGMENT: nat := 0x8000_0000
  const MAX_MARKED: nat := 0x7fff_ffff
  const USIZE_MAX: nat := 0xffff_ffff_ffff_ffff

  datatype RecordLimits = RecordLimits(maxRecordSize: nat, maxFragmentSize: nat, maxFragments: nat)

  datatype RecordError =
    | Io
    | FragmentTooLarge(actual: nat, limit: nat)
    | RecordTooLarge(limit: nat)
    | TooManyFragments(limit: nat)
    | EmptyFragment
    | BudgetClosed

  datatype Result<+T> = Ok(value: T) | Err(error: RecordError)

  // --------------------------------------------------------------------- validation

  function DivCeil(a: nat, b: nat): nat
    requires b > 0
  {
    (a + b - 1) / b
  }

  function ValidateRecordLength(length: nat, limits: RecordLimits): Result<()> {
    var fragmentCount :=
      if length == 0 then 1
      else if limits.maxFragmentSize == 0 then USIZE_MAX
      else DivCeil(length, limits.maxFragmentSize);
    if length > limits.maxRecordSize then Err(RecordTooLarge(limits.maxRecordSize))
    else if fragmentCount > limits.maxFragments then Err(TooManyFragments(limits.maxFragments))
    else if limits.maxFragmentSize == 0 then Err(FragmentTooLarge(length, 0))
    else Ok(())
  }

  /** A length validates exactly when the record fits the size limit and that many
      full fragments can carry it. */
  lemma ValidateIsExact(length: nat, limits: RecordLimits)
    ensures ValidateRecordLength(length, limits).Ok? <==>
            && length <= limits.maxRecordSize
            && 1 <= limits.maxFragmentSize && 1 <= limits.maxFragments
            && length <= limits.maxFragmentSize * limits.maxFragments
  {
    var f, n := limits.maxFragmentSize, limits.maxFragments;
    if f > 0 && length > 0 {
      DivCeilBound(length, f, n);
    }
  }

  /** Which complaint a length gets otherwise: the record is too large; too few fragments are
      allowed, no number of empty ones being enough; or fragments may not hold anything. */
  lemma ValidateComplaints(length: nat, limits: RecordLimits)
    ensures var r := ValidateRecordLength(length, limits);
            var f, n := limits.maxFragmentSize, limits.maxFragments;
            && (length > limits.maxRecordSize ==> r == Err(RecordTooLarge(limits.maxRecordSize)))
            && (length <= limits.maxRecordSize && f > 0 && (n == 0 || length > f * n) ==> r == Err(TooManyFragments(n)))
            && (length <= limits.maxRecordSize && f == 0 ==>
                  r == if n < (if length == 0 then 1 else USIZE_MAX) then Err(TooManyFragments(n))
                       else Err(FragmentTooLarge(length, 0)))
  {
    var f, n := limits.maxFragmentSize, limits.maxFragments;
    if f > 0 && length > 0 {
      DivCeilBound(length, f, n);
    }
  }

  lemma DivCeilBound(a: nat, b: nat, n: nat)
    requires a > 0 && b > 0
    ensures 1 <= DivCeil(a, b)
    ensures DivCeil(a, b) <= n <==> a <= b * n
  {
    var q := DivCeil(a, b);
    QuotientBounds(a + b - 1, b);
    if q <= n {
      MulMono(b, q, n);
    } else {
      MulMono(b, n + 1, q);
    }
  }

  lemma QuotientBounds(a: nat, b: nat)
    requires b > 0
    ensures b * (a / b) <= a < b * (a / b) + b
  {
  }

  lemma MulMono(b: nat, m: nat, n: nat)
    requires m <= n
    ensures b * m <= b * n
  {
  }

  // ----------------------------------------------------------------------- the wire

  function Header(length: nat, last: bool): (h: seq<byte>)
    requires length <= MAX_MARKED
    ensures |h| == 4
  {
    Be32(length + if last then LAST_FRAGMENT else 0)
  }

  predicate Markable(fragments: seq<seq<byte>>) {
    fragments != [] && forall i :: 0 <= i < |fragments| ==> |fragments[i]| <= MAX_MARKED
  }

  /** The fragments of one record, each behind its marker. */
  function Marked(fragments: seq<seq<byte>>): seq<byte>
    requires Markable(fragments)
  {
    if |fragments| == 1 then Header(|fragments[0]|, true) + fragments[0]
    else Header(|fragments[0]|, false) + fragments[0] + Marked(fragments[1..])
  }

  function Concat(parts: seq<seq<byte>>): seq<byte> {
    if parts == [] then [] else parts[0] + Concat(parts[1..])
  }

  /** A record cut into full fragments and a last one. */
  function Chunks(record: seq<byte>, size: nat): (c: seq<seq<byte>>)
    requires size > 0
    ensures c != []
    decreases |record|
  {
    if |record| <= size then [record] else [record[..size]] + Chunks(record[size..], size)
  }

  predicate Writable(length: nat, maxFragmentSize: nat) {
    maxFragmentSize > 0 && Min(length, maxFragmentSize) <= MAX_MARKED
  }

  lemma {:induction false} ChunksFit(record: seq<byte>, size: nat)
    requires size > 0
    ensures forall i :: 0 <= i < |Chunks(record, size)| ==> |Chunks(record, size)[i]| <= Min(|record|, size)
    decreases |record|
  {
    if |record| <= size {
    } else {
      ChunksFit(record[size..], size);
    }
  }

  /** What the writer puts on the wire for a record. */
  function Frames(record: seq<byte>, maxFragmentSize: nat): seq<byte>
    requires Writable(|record|, maxFragmentSize)
  {
    ChunksFit(record, maxFragmentSize);
    Marked(Chunks(record, maxFragmentSize))
  }

  lemma {:induction false} ChunksJoin(record: seq<byte>, size: nat)
    requires size > 0
    ensures Concat(Chunks(record, size)) == record
    decreases |record|
  {
    if |record| > size {
      ChunksJoin(record[size..], size);
      assert record == record[..size] + record[size..];
      assert Chunks(record, size)[1..] == Chunks(record[size..], size);
    } else {
      assert Concat([record]) == record + [];
    }
  }

  lemma {:induction false} ChunksCount(record: seq<byte>, size: nat, n: nat)
    requires size > 0 && 1 <= n && |record| <= size * n
    ensures |Chunks(record, size)| <= n
    decreases |record|
  {
    if |record| <= size {
    } else {
      assert n > 1;
      assert size * n == size * (n - 1) + size;
      ChunksCount(record[size..], size, n - 1);
    }
  }

  lemma {:induction false} ChunksFull(record: seq<byte>, size: nat, i: nat)
    requires size > 0 && i + 1 < |Chunks(record, size)|
    ensures |Chunks(record, size)[i]| == size
    decreases |record|
  {
    if i == 0 {
    } else {
      ChunksFull(record[size..], size, i - 1);
    }
  }

  // --------------------------------------------------------------------- the reader

  /** Reads fragments from `input` onto `acc`; returns the record and what follows. */
  function Parse(input: seq<byte>, limits: RecordLimits, acc: seq<byte>, index: nat): Result<(seq<byte>, seq<byte>)>
    decreases limits.maxFragments - index
  {
    if index >= limits.maxFragments then Err(TooManyFragments(limits.maxFragments))
    else if |input| < 4 then Err(Io)
    else ParseBody(FromBe32(input[..4]), input[4..], limits, acc, index)
  }

  function ParseBody(header: u32, body: seq<byte>, limits: RecordLimits, acc: seq<byte>, index: nat)
    : Result<(seq<byte>, seq<byte>)>
    requires index < limits.maxFragments
    decreases limits.maxFragments - index, 0
  {
    var last := header >= LAST_FRAGMENT;
    var length := header % LAST_FRAGMENT;
    if length == 0 && !last then Err(EmptyFragment)
    else if length > limits.maxFragmentSize then Err(FragmentTooLarge(length, limits.maxFragmentSize))
    else if |acc| + length > limits.maxRecordSize then Err(RecordTooLarge(limits.maxRecordSize))
    else if |body| < length then Err(Io)
    else if last then Ok((acc + body[..length], body[length..]))
    else if index + 1 == limits.maxFragments then Err(TooManyFragments(limits.maxFragments))
    else Parse(body[length..], limits, acc + body[..length], index + 1)
  }

  /** What the limits allow a record of `fragments` to look like after `index`
      fragments with `have` bytes have been read. */
  ghost predicate Acceptable(fragments: seq<seq<byte>>, limits: RecordLimits, have: nat, index: nat) {
    && Markable(fragments)
    && index + |fragments| <= limits.maxFragments
    && (forall i :: 0 <= i < |fragments| ==> |fragments[i]| <= limits.maxFragmentSize)
    && (forall i :: 0 <= i < |fragments| - 1 ==> fragments[i] != [])
    && have + |Concat(fragments)| <= limits.maxRecordSize
  }

  lemma HeaderReads(length: nat, last: bool)
    requires length <= MAX_MARKED
    ensures var h := FromBe32(Header(length, last));
            (h >= LAST_FRAGMENT <==> last) && h % LAST_FRAGMENT == length
  {
    hide Be32, FromBe32;
    Be32RoundTrip(length + if last then LAST_FRAGMENT else 0);
  }

  lemma HeaderWrites(b: seq<byte>)
    requires |b| == 4
    ensures var h := FromBe32(b); b == Header(h % LAST_FRAGMENT, h >= LAST_FRAGMENT)
  {
    hide Be32, FromBe32;
    Be32Canonical(b);
  }

  /** One fragment and its marker, read. */
  lemma ParseOne(f: seq<byte>, last: bool, tail: seq<byte>, limits: RecordLimits, acc: seq<byte>, index: nat)
    requires |f| <= MAX_MARKED && |f| <= limits.maxFragmentSize && |acc| + |f| <= limits.maxRecordSize
    requires index < limits.maxFragments
    requires !last ==> f != [] && index + 1 < limits.maxFragments
    ensures Parse(Header(|f|, last) + f + tail, limits, acc, index) ==
            if last then Ok((acc + f, tail)) else Parse(tail, limits, acc + f, index + 1)
  {
    var h := Header(|f|, last);
    var input := h + f + tail;
    HeaderReads(|f|, last);
    hide Header, FromBe32, Be32;
    assert input[..4] == h && input[4..] == f + tail;
    assert (f + tail)[..|f|] == f && (f + tail)[|f|..] == tail;
  }

  /** Every acceptable fragmentation is read, and nothing after it is touched. */
  lemma {:induction false} ParseComplete(fragments: seq<seq<byte>>, rest: seq<byte>, limits: RecordLimits,
                                         acc: seq<byte>, index: nat)
    requires Acceptable(fragments, limits, |acc|, index)
    ensures Parse(Marked(fragments) + rest, limits, acc, index) == Ok((acc + Concat(fragments), rest))
    decreases |fragments|
  {
    hide Header, Parse, ParseBody;
    var f, last := fragments[0], |fragments| == 1;
    ConcatSplit(fragments);
    if last {
      ParseOne(f, true, rest, limits, acc, index);
    } else {
      AcceptableTail(fragments, limits, acc, index);
      var tail := Marked(fragments[1..]) + rest;
      assert Marked(fragments) + rest == Header(|f|, false) + f + tail;
      ParseOne(f, false, tail, limits, acc, index);
      ParseComplete(fragments[1..], rest, limits, acc + f, index + 1);
      assert acc + f + Concat(fragments[1..]) == acc + (f + Concat(fragments[1..]));
    }
  }

  lemma ConcatSplit(fragments: seq<seq<byte>>)
    requires fragments != []
    ensures Concat(fragments) == fragments[0] + Concat(fragments[1..])
    ensures |fragments| == 1 ==> Concat(fragments) == fragments[0]
  {
  }

  lemma AcceptableTail(fragments: seq<seq<byte>>, limits: RecordLimits, acc: seq<byte>, index: nat)
    requires Acceptable(fragments, limits, |acc|, index) && |fragments| > 1
    ensures Acceptable(fragments[1..], limits, |acc + fragments[0]|, index + 1)
    ensures fragments[0] != []
  {
    ConcatSplit(fragments);
  }

  /** What one successful step of the reader has seen. */
  lemma ParsedOne(input: seq<byte>, limits: RecordLimits, acc: seq<byte>, index: nat)
    returns (f: seq<byte>, last: bool, tail: seq<byte>)
    requires Parse(input, limits, acc, index).Ok?
    ensures |f| <= MAX_MARKED && |f| <= limits.maxFragmentSize && |acc| + |f| <= limits.maxRecordSize
    ensures index < limits.maxFragments && (!last ==> f != [])
    ensures input == Header(|f|, last) + f + tail
    ensures Parse(input, limits, acc, index) ==
            if last then Ok((acc + f, tail)) else Parse(tail, limits, acc + f, index + 1)
  {
    hide Header, FromBe32, Be32;
    var h, body := FromBe32(input[..4]), input[4..];
    HeaderWrites(input[..4]);
    var length := h % LAST_FRAGMENT;
    f, last, tail := body[..length], h >= LAST_FRAGMENT, body[length..];
    assert input == input[..4] + body && body == f + tail;
  }

  /** Whatever is read was the marked form of an acceptable fragmentation. */
  lemma {:induction false} ParseSound(input: seq<byte>, limits: RecordLimits, acc: seq<byte>, index: nat)
    returns (fragments: seq<seq<byte>>)
    requires Parse(input, limits, acc, index).Ok?
    ensures Acceptable(fragments, limits, |acc|, index)
    ensures var (record, rest) := Parse(input, limits, acc, index).value;
            record == acc + Concat(fragments) && input == Marked(fragments) + rest
    decreases limits.maxFragments - index
  {
    hide Header, Parse, ParseBody;
    var f, last, tail := ParsedOne(input, limits, acc, index);
    if last {
      fragments := [f];
      ConcatSplit(fragments);
    } else {
      var others := ParseSound(tail, limits, acc + f, index + 1);
      fragments := [f] + others;
      assert fragments[1..] == others;
      ConcatSplit(fragments);
      MarkedCons(f, others);
      hide Marked, Concat;
      var rest := Parse(tail, limits, acc + f, index + 1).value.1;
      assert Header(|f|, false) + f + (Marked(others) + rest) == Header(|f|, false) + f + Marked(others) + rest;
      assert acc + f + Concat(others) == acc + (f + Concat(others));
    }
  }

  lemma MarkedCons(f: seq<byte>, tail: seq<seq<byte>>)
    requires |f| <= MAX_MARKED && Markable(tail)
    ensures Markable([f] + tail)
    ensures Marked([f] + tail) == Header(|f|, false) + f + Marked(tail)
  {
    assert ([f] + tail)[1..] == tail;
  }

  // --------------------------------------------------------------------- what is refused

  /** Fragments of a record that goes on after them. */
  function Opening(fragments: seq<seq<byte>>): seq<byte>
    requires forall i :: 0 <= i < |fragments| ==> |fragments[i]| <= MAX_MARKED
  {
    if fragments == [] then []
    else Header(|fragments[0]|, false) + fragments[0] + Opening(fragments[1..])
  }

  /** The reader has no objection to any of the fragments. */
  ghost predicate Unobjectionable(fragments: seq<seq<byte>>, limits: RecordLimits, have: nat, index: nat) {
    && index + |fragments| < limits.maxFragments
    && have + |Concat(fragments)| <= limits.maxRecordSize
    && forall i :: 0 <= i < |fragments| ==> 1 <= |fragments[i]| <= Min(limits.maxFragmentSize, MAX_MARKED)
  }

  /** The reader goes on behind such fragments. */
  lemma {:induction false} ParseGoesOn(fragments: seq<seq<byte>>, tail: seq<byte>, limits: RecordLimits,
                                       acc: seq<byte>, index: nat)
    requires Unobjectionable(fragments, limits, |acc|, index)
    ensures Parse(Opening(fragments) + tail, limits, acc, index) ==
            Parse(tail, limits, acc + Concat(fragments), index + |fragments|)
    decreases |fragments|
  {
    hide Header, Parse, ParseBody, Concat, Unobjectionable, Opening;
    if fragments == [] {
      OpeningNothing();
      assert acc + [] == acc && [] + tail == tail;
    } else {
      var f, others := fragments[0], fragments[1..];
      UnobjectionableTail(fragments, limits, acc, index);
      ParseOne(f, false, Opening(others) + tail, limits, acc, index);
      assert (Header(|f|, false) + f + Opening(others)) + tail == Header(|f|, false) + f + (Opening(others) + tail);
      ParseGoesOn(others, tail, limits, acc + f, index + 1);
      assert (acc + f) + Concat(others) == acc + (f + Concat(others));
    }
  }

  lemma OpeningNothing()
    ensures Opening([]) == [] && Concat([]) == []
  {
  }

  lemma UnobjectionableTail(fragments: seq<seq<byte>>, limits: RecordLimits, acc: seq<byte>, index: nat)
    requires Unobjectionable(fragments, limits, |acc|, index) && fragments != []
    ensures var f, others := fragments[0], fragments[1..];
            && Unobjectionable(others, limits, |acc + f|, index + 1)
            && (forall i :: 0 <= i < |others| ==> |others[i]| <= MAX_MARKED)
            && f != [] && |f| <= MAX_MARKED && |f| <= limits.maxFragmentSize && |acc| + |f| <= limits.maxRecordSize
            && index + 1 < limits.maxFragments
            && Concat(fragments) == f + Concat(others)
            && Opening(fragments) == Header(|f|, false) + f + Opening(others)
  {
    hide Header;
    ConcatSplit(fragments);
  }

  /** The reader's objection to one more marker and the bytes behind it, after `have` bytes
      in `index` fragments: an empty fragment that is not the last; a fragment or a record
      above its limit; bytes that do not come; or no end where the last fragment must be. */
  function Objection(length: nat, last: bool, available: nat, limits: RecordLimits, have: nat, index: nat)
    : (e: Option<RecordError>)
    ensures e.None? ==> length <= available
  {
    if !last && length == 0 then Some(EmptyFragment)
    else if length > limits.maxFragmentSize then Some(FragmentTooLarge(length, limits.maxFragmentSize))
    else if have + length > limits.maxRecordSize then Some(RecordTooLarge(limits.maxRecordSize))
    else if available < length then Some(Io)
    else if !last && index + 1 == limits.maxFragments then Some(TooManyFragments(limits.maxFragments))
    else None
  }

  /** What the reader does after some good fragments: it fails if the stream ends in a marker;
      it raises the objection to the next fragment, if there is one; and otherwise it takes
      the fragment, and is done if that was the last. */
  lemma RefusalIsExact(fragments: seq<seq<byte>>, length: nat, last: bool, body: seq<byte>, limits: RecordLimits)
    requires Unobjectionable(fragments, limits, 0, 0) && length <= MAX_MARKED
    ensures forall stub: seq<byte> :: |stub| < 4 ==> Parse(Opening(fragments) + stub, limits, [], 0) == Err(Io)
    ensures var objection := Objection(length, last, |body|, limits, |Concat(fragments)|, |fragments|);
            var record := Concat(fragments);
            Parse(Opening(fragments) + (Header(length, last) + body), limits, [], 0) ==
            if objection.Some? then Err(objection.value)
            else if last then Ok((record + body[..length], body[length..]))
            else Parse(body[length..], limits, record + body[..length], |fragments| + 1)
  {
    hide Header, Opening, Parse, Objection;
    var have := Concat(fragments);
    assert [] + have == have;
    forall stub: seq<byte> | |stub| < 4
      ensures Parse(Opening(fragments) + stub, limits, [], 0) == Err(Io)
    {
      ParseGoesOn(fragments, stub, limits, [], 0);
      NoMarker(stub, limits, have, |fragments|);
    }
    ParseGoesOn(fragments, Header(length, last) + body, limits, [], 0);
    ObjectionStands(length, last, body, limits, have, |fragments|);
  }

  lemma NoMarker(stub: seq<byte>, limits: RecordLimits, acc: seq<byte>, index: nat)
    requires |stub| < 4 && index < limits.maxFragments
    ensures Parse(stub, limits, acc, index) == Err(Io)
  {
  }

  lemma ObjectionStands(length: nat, last: bool, body: seq<byte>, limits: RecordLimits, acc: seq<byte>, index: nat)
    requires length <= MAX_MARKED && index < limits.maxFragments
    ensures var objection := Objection(length, last, |body|, limits, |acc|, index);
            Parse(Header(length, last) + body, limits, acc, index) ==
            if objection.Some? then Err(objection.value)
            else if last then Ok((acc + body[..length], body[length..]))
            else Parse(body[length..], limits, acc + body[..length], index + 1)
  {
    var input := Header(length, last) + body;
    HeaderReads(length, last);
    hide Header, FromBe32, Be32;
    assert input[..4] == Header(length, last) && input[4..] == body;
  }

  /** A record that validates and can be marked is read back exactly under the same
      limits, and the bytes that follow it are left alone. */
  lemma RecordRoundTrip(record: seq<byte>, rest: seq<byte>, limits: RecordLimits)
    requires ValidateRecordLength(|record|, limits).Ok? && Writable(|record|, limits.maxFragmentSize)
    ensures Parse(Frames(record, limits.maxFragmentSize) + rest, limits, [], 0) == Ok((record, rest))
  {
    var size := limits.maxFragmentSize;
    var chunks := Chunks(record, size);
    ValidateIsExact(|record|, limits);
    ChunksFit(record, size);
    ChunksJoin(record, size);
    ChunksCount(record, size, limits.maxFragments);
    forall i | 0 <= i < |chunks| - 1 ensures chunks[i] != [] { ChunksFull(record, size, i); }
    hide Parse, ParseBody, Marked;
    ParseComplete(chunks, rest, limits, [], 0);
    assert [] + record == record;
  }
}
