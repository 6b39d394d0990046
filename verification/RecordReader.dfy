/** The two record readers of src/rpc/record.rs, with the growth of the buffer in
    which a record is assembled. */
module RecordReader {
  import opened Sequences
  import opened BigEndian
  import opened RecordFormat

  // ------------------------------------------------------------------- buffer growth

  /** Capacity of the assembly buffer, and the bytes its reallocations have copied. */
  datatype Growth = Growth(capacity: nat, copied: nat)

  /** `reserve_record` on a buffer that holds `length` bytes; the exact reservation
      is taken to be exact. */
  function Reserve(g: Growth, length: nat, required: nat, limit: nat): Growth {
    if required <= g.capacity then g
    else Growth(Min(Max(2 * g.capacity, required), limit), g.copied + length)
  }

  /** The cost so far: growth is paid for by the capacity it reached, and the one
      growth that the limit cuts short is paid for by the limit. No more than twice what is
      needed is ever set aside. */
  predicate Paid(g: Growth, length: nat, limit: nat) {
    && length <= g.capacity <= limit
    && g.capacity <= 2 * length
    && (g.copied <= g.capacity || (g.capacity == limit && g.copied < 2 * limit))
  }

  /** What growth may cost at most: the limit in capacity, and less than twice the
      limit in copied bytes. */
  predicate Affordable(g: Growth, limit: nat) {
    g.capacity <= limit && (g.copied == 0 || g.copied < 2 * limit)
  }

  lemma ReserveStaysPaid(g: Growth, length: nat, required: nat, limit: nat)
    requires Paid(g, length, limit) && length <= required <= limit
    ensures Paid(Reserve(g, length, required, limit), required, limit)
  {
  }

  lemma NothingIsPaid(limit: nat)
    ensures Paid(Growth(0, 0), 0, limit)
  {
  }

  lemma PaidIsAffordable(g: Growth, length: nat, limit: nat)
    requires Paid(g, length, limit)
    ensures Affordable(g, limit) && length <= g.capacity <= 2 * length
  {
  }

  /** The buffer after fragments of the given lengths. */
  function Grow(lengths: seq<nat>, g: Growth, have: nat, limit: nat): Growth {
    if lengths == [] then g
    else Grow(lengths[1..], Reserve(g, have, have + lengths[0], limit), have + lengths[0], limit)
  }

  function Sum(lengths: seq<nat>): nat {
    if lengths == [] then 0 else lengths[0] + Sum(lengths[1..])
  }

  /** Assembling any accepted sequence of fragments never takes more capacity than
      the record limit or than twice the record, and copies less than twice the limit. */
  lemma AssemblyCost(lengths: seq<nat>, limit: nat)
    requires Sum(lengths) <= limit
    ensures var g := Grow(lengths, Growth(0, 0), 0, limit);
            g.capacity <= limit && (g.copied == 0 || g.copied < 2 * limit)
    ensures Sum(lengths) <= Grow(lengths, Growth(0, 0), 0, limit).capacity <= 2 * Sum(lengths)
  {
    GrowStaysPaid(lengths, Growth(0, 0), 0, limit);
  }

  lemma {:induction false} GrowStaysPaid(lengths: seq<nat>, g: Growth, have: nat, limit: nat)
    requires Paid(g, have, limit) && have + Sum(lengths) <= limit
    ensures Paid(Grow(lengths, g, have, limit), have + Sum(lengths), limit)
    decreases |lengths|
  {
    if lengths == [] {
    } else {
      ReserveStaysPaid(g, have, have + lengths[0], limit);
      GrowStaysPaid(lengths[1..], Reserve(g, have, have + lengths[0], limit), have + lengths[0], limit);
    }
  }

  // ------------------------------------------------------------------------- the stream

  class Source {
    const input: seq<byte>
    var position: nat

    constructor (input: seq<byte>)
      ensures this.input == input && position == 0
    {
      this.input, position := input, 0;
    }

    ghost predicate Valid()
      reads this
    {
      position <= |input|
    }

    ghost function Remaining(): seq<byte>
      requires Valid()
      reads this
    {
      input[position..]
    }

    method ReadU32() returns (r: Result<u32>)
      requires Valid()
      modifies this
      ensures Valid()
      ensures r.Ok? <==> |old(Remaining())| >= 4
      ensures r.Ok? ==> r.value == FromBe32(old(Remaining())[..4]) && Remaining() == old(Remaining())[4..]
      ensures r.Err? ==> r.error == Io
    {
      if |input| - position < 4 {
        position := |input|;
        return Err(Io);
      }
      r := Ok(FromBe32(input[position..position + 4]));
      assert input[position..][..4] == input[position..position + 4];
      position := position + 4;
    }

    method ReadExact(count: nat) returns (r: Result<seq<byte>>)
      requires Valid()
      modifies this
      ensures Valid()
      ensures r.Ok? <==> |old(Remaining())| >= count
      ensures r.Ok? ==> r.value == old(Remaining())[..count] && Remaining() == old(Remaining())[count..]
      ensures r.Err? ==> r.error == Io
    {
      if |input| - position < count {
        position := |input|;
        return Err(Io);
      }
      r := Ok(input[position..position + count]);
      position := position + count;
    }
  }

  /** `r` and the stream after it are what `Parse` says about the stream before. */
  ghost predicate Reads(parsed: Result<(seq<byte>, seq<byte>)>, r: Result<seq<byte>>, left: seq<byte>) {
    match parsed
    case Ok((record, rest)) => r == Ok(record) && left == rest
    case Err(e) => r == Err(e)
  }

  /** The plain reader. */
  method ReadRecord(source: Source, limits: RecordLimits) returns (r: Result<seq<byte>>, growth: Growth)
    requires source.Valid()
    modifies source
    ensures source.Valid()
    ensures Reads(Parse(old(source.Remaining()), limits, [], 0), r, source.Remaining())
    ensures Affordable(growth, limits.maxRecordSize)
    ensures r.Ok? ==> |r.value| <= growth.capacity <= 2 * |r.value|
  {
    hide FromBe32, Paid, Affordable, Reserve;
    var record: seq<byte> := [];
    growth := Growth(0, 0);
    NothingIsPaid(limits.maxRecordSize);
    ghost var all := Parse(source.Remaining(), limits, [], 0);
    var index := 0;
    while index < limits.maxFragments
      invariant source.Valid()
      invariant 0 <= index <= limits.maxFragments
      invariant all == Parse(source.Remaining(), limits, record, index)
      invariant Paid(growth, |record|, limits.maxRecordSize)
    {
      PaidIsAffordable(growth, |record|, limits.maxRecordSize);
      var read := source.ReadU32();
      if read.Err? { return Err(Io), growth; }
      var header := read.value;
      var last, length := header >= LAST_FRAGMENT, header % LAST_FRAGMENT;
      if length == 0 && !last { return Err(EmptyFragment), growth; }
      if length > limits.maxFragmentSize { return Err(FragmentTooLarge(length, limits.maxFragmentSize)), growth; }
      if |record| + length > limits.maxRecordSize { return Err(RecordTooLarge(limits.maxRecordSize)), growth; }
      ReserveStaysPaid(growth, |record|, |record| + length, limits.maxRecordSize);
      growth := Reserve(growth, |record|, |record| + length, limits.maxRecordSize);
      PaidIsAffordable(growth, |record| + length, limits.maxRecordSize);
      var body := source.ReadExact(length);
      if body.Err? { return Err(Io), growth; }
      record := record + body.value;
      if last { return Ok(record), growth; }
      if index + 1 == limits.maxFragments { return Err(TooManyFragments(limits.maxFragments)), growth; }
      index := index + 1;
    }
    PaidIsAffordable(growth, |record|, limits.maxRecordSize);
    r := Err(TooManyFragments(limits.maxFragments));
  }

  // ------------------------------------------------------------------ the budgeted reader

  /** Whether the byte budget grants the whole-record reservation or is closed. */
  datatype Budget = Granted | Closed

  /** The budgeted reader's checks before it asks for the reservation. */
  function Precheck(header: u32, limits: RecordLimits): Option<RecordError> {
    var length := header % LAST_FRAGMENT;
    if length == 0 && header < LAST_FRAGMENT then Some(EmptyFragment)
    else if length > limits.maxFragmentSize then Some(FragmentTooLarge(length, limits.maxFragmentSize))
    else if length > limits.maxRecordSize then Some(RecordTooLarge(limits.maxRecordSize))
    else None
  }

  function BudgetedParse(input: seq<byte>, limits: RecordLimits, budget: Budget): Result<(seq<byte>, seq<byte>)> {
    if |input| < 4 then Err(Io)
    else
      var header := FromBe32(input[..4]);
      match Precheck(header, limits)
      case Some(e) => Err(e)
      case None =>
        if limits.maxRecordSize >= U32_BOUND then Err(RecordTooLarge(U32_BOUND - 1))
        else if budget.Closed? then Err(BudgetClosed)
        else if limits.maxFragments == 0 then Err(TooManyFragments(0))
        else ParseBody(header, input[4..], limits, [], 0)
  }

  /** What the budgeted reader says when it cannot have its budget: objections to the first
      marker come first, then a record limit beyond 32 bits, then a closed budget, then a
      record that may have no fragment. */
  lemma BudgetedRefusals(length: nat, last: bool, body: seq<byte>, limits: RecordLimits, budget: Budget)
    requires length <= MAX_MARKED && !BudgetUsable(limits, budget)
    ensures forall stub: seq<byte> :: |stub| < 4 ==> BudgetedParse(stub, limits, budget) == Err(Io)
    ensures BudgetedParse(Header(length, last) + body, limits, budget) ==
            Err(if !last && length == 0 then EmptyFragment
                else if length > limits.maxFragmentSize then FragmentTooLarge(length, limits.maxFragmentSize)
                else if length > limits.maxRecordSize then RecordTooLarge(limits.maxRecordSize)
                else if limits.maxRecordSize > 0xffff_ffff then RecordTooLarge(0xffff_ffff)
                else if budget == Closed then BudgetClosed
                else TooManyFragments(0))
  {
    var input := Header(length, last) + body;
    HeaderReads(length, last);
    hide Header, FromBe32, Be32;
    assert input[..4] == Header(length, last) && input[4..] == body;
  }

  predicate BudgetUsable(limits: RecordLimits, budget: Budget) {
    limits.maxFragments >= 1 && limits.maxRecordSize < U32_BOUND && budget.Granted?
  }

  /** With at least one fragment allowed, a 32-bit record limit and the reservation
      granted, checking the first marker early changes no outcome. */
  lemma BudgetedAgrees(input: seq<byte>, limits: RecordLimits, budget: Budget)
    requires BudgetUsable(limits, budget)
    ensures BudgetedParse(input, limits, budget) == Parse(input, limits, [], 0)
  {
    hide FromBe32;
  }

  /** Those conditions are exactly what it takes to agree on every input. */
  lemma BudgetedAgreesExactly(limits: RecordLimits, budget: Budget)
    ensures (forall input :: BudgetedParse(input, limits, budget) == Parse(input, limits, [], 0)) <==>
            BudgetUsable(limits, budget)
  {
    hide BudgetedParse, Parse;
    if BudgetUsable(limits, budget) {
      forall input ensures BudgetedParse(input, limits, budget) == Parse(input, limits, [], 0) {
        BudgetedAgrees(input, limits, budget);
      }
    } else {
      var example := Disagreement(limits, budget);
      assert BudgetedParse(example, limits, budget) != Parse(example, limits, [], 0);
    }
  }

  lemma Disagreement(limits: RecordLimits, budget: Budget) returns (input: seq<byte>)
    requires !BudgetUsable(limits, budget)
    ensures BudgetedParse(input, limits, budget) != Parse(input, limits, [], 0)
  {
    if limits.maxFragments == 0 {
      input := [];
    } else {
      input := [0x80, 0, 0, 0];
      assert input[..4] == input && FromBe32(input) == LAST_FRAGMENT;
      assert BudgetedParse(input, limits, budget).Err?;
      assert Parse(input, limits, [], 0).Ok?;
    }
  }

  /** The reader that reserves the whole record before it allocates. */
  method ReadRecordBudgeted(source: Source, limits: RecordLimits, budget: Budget) returns (r: Result<seq<byte>>, growth: Growth)
    requires source.Valid()
    modifies source
    ensures source.Valid()
    ensures Reads(BudgetedParse(old(source.Remaining()), limits, budget), r, source.Remaining())
    ensures Affordable(growth, limits.maxRecordSize)
    ensures r.Ok? ==> |r.value| <= growth.capacity <= 2 * |r.value|
  {
    hide FromBe32;
    growth := Growth(0, 0);
    var read := source.ReadU32();
    if read.Err? { return Err(Io), growth; }
    var header := read.value;
    var first := header % LAST_FRAGMENT;
    if first == 0 && header < LAST_FRAGMENT { return Err(EmptyFragment), growth; }
    if first > limits.maxFragmentSize { return Err(FragmentTooLarge(first, limits.maxFragmentSize)), growth; }
    if first > limits.maxRecordSize { return Err(RecordTooLarge(limits.maxRecordSize)), growth; }
    if limits.maxRecordSize >= U32_BOUND { return Err(RecordTooLarge(U32_BOUND - 1)), growth; }
    if budget.Closed? { return Err(BudgetClosed), growth; }
    if limits.maxFragments == 0 { return Err(TooManyFragments(0)), growth; }
    r, growth := AssembleRecord(source, header, limits);
  }

  /** The fragments of a record whose first marker has already been read. */
  method AssembleRecord(source: Source, first: u32, limits: RecordLimits) returns (r: Result<seq<byte>>, growth: Growth)
    requires source.Valid() && limits.maxFragments > 0
    modifies source
    ensures source.Valid()
    ensures Reads(ParseBody(first, old(source.Remaining()), limits, [], 0), r, source.Remaining())
    ensures Affordable(growth, limits.maxRecordSize)
    ensures r.Ok? ==> |r.value| <= growth.capacity <= 2 * |r.value|
  {
    hide FromBe32, Paid, Affordable, Reserve;
    growth := Growth(0, 0);
    NothingIsPaid(limits.maxRecordSize);
    var record: seq<byte> := [];
    var header: u32 := first;
    ghost var all := ParseBody(first, source.Remaining(), limits, [], 0);
    var index := 0;
    while index < limits.maxFragments
      invariant source.Valid()
      invariant 0 <= index < limits.maxFragments
      invariant all == ParseBody(header, source.Remaining(), limits, record, index)
      invariant Paid(growth, |record|, limits.maxRecordSize)
    {
      PaidIsAffordable(growth, |record|, limits.maxRecordSize);
      var last, length := header >= LAST_FRAGMENT, header % LAST_FRAGMENT;
      if length == 0 && !last { return Err(EmptyFragment), growth; }
      if length > limits.maxFragmentSize { return Err(FragmentTooLarge(length, limits.maxFragmentSize)), growth; }
      if |record| + length > limits.maxRecordSize { return Err(RecordTooLarge(limits.maxRecordSize)), growth; }
      ReserveStaysPaid(growth, |record|, |record| + length, limits.maxRecordSize);
      growth := Reserve(growth, |record|, |record| + length, limits.maxRecordSize);
      PaidIsAffordable(growth, |record| + length, limits.maxRecordSize);
      var body := source.ReadExact(length);
      if body.Err? { return Err(Io), growth; }
      record := record + body.value;
      if last { return Ok(record), growth; }
      if index + 1 == limits.maxFragments { return Err(TooManyFragments(limits.maxFragments)), growth; }
      var read := source.ReadU32();
      if read.Err? { return Err(Io), growth; }
      header := read.value;
      index := index + 1;
    }
    r := Err(TooManyFragments(limits.maxFragments));
  }
}
