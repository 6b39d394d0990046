/** XDR primitives (RFC 4506, src/rpc/codec.rs). `Put...` writes a value in front of
    what follows it, `Get...` takes a value off the front; each pair is a
    bijection between values and canonical encodings. */
module Xdr {
  import opened Sequences
  import opened BigEndian
  import opened Replies

  datatype DecodeError =
    | Truncated
    | InvalidBoolean(value: u32)
    | InvalidDiscriminant(kind: string, value: u32)
    | LimitExceeded(field: string, actual: nat, limit: nat)
    | InvalidPadding
    | TrailingBytes

  datatype Decoded<+T> = Ok(value: T) | Err(error: DecodeError) {
    predicate IsFailure() {
      Err?
    }

    function PropagateFailure<U>(): Decoded<U>
      requires Err?
    {
      Err(error)
    }

    function Extract(): T
      requires Ok?
    {
      value
    }
  }

  /** A value and the bytes after it. */
  type Parsed<+T> = Decoded<(T, seq<byte>)>

  function Padding(length: nat): (n: nat)
    ensures n <= 3 && (length + n) % 4 == 0
  {
    (4 - length % 4) % 4
  }

  // ----------------------------------------------------------------------- words

  function PutU32(n: u32, rest: seq<byte>): (s: seq<byte>)
    ensures |s| == 4 + |rest|
  {
    Be32(n) + rest
  }

  function GetU32(s: seq<byte>): Parsed<u32> {
    if |s| < 4 then Err(Truncated) else Ok((FromBe32(s[..4]), s[4..]))
  }

  lemma ReadU32Back(n: u32, rest: seq<byte>)
    ensures GetU32(PutU32(n, rest)) == Ok((n, rest))
  {
    hide Be32, FromBe32;
    assert (Be32(n) + rest)[..4] == Be32(n);
    Be32RoundTrip(n);
  }

  lemma U32IsCanonical(s: seq<byte>)
    requires GetU32(s).Ok?
    ensures s == PutU32(GetU32(s).value.0, GetU32(s).value.1)
  {
    hide Be32, FromBe32;
    Be32Canonical(s[..4]);
  }

  function PutU64(n: u64, rest: seq<byte>): (s: seq<byte>)
    ensures |s| == 8 + |rest|
  {
    Be64(n) + rest
  }

  function GetU64(s: seq<byte>): Parsed<u64> {
    if |s| < 8 then Err(Truncated) else Ok((FromBe64(s[..8]), s[8..]))
  }

  lemma ReadU64Back(n: u64, rest: seq<byte>)
    ensures GetU64(PutU64(n, rest)) == Ok((n, rest))
  {
    hide Be64, FromBe64;
    assert (Be64(n) + rest)[..8] == Be64(n);
    Be64RoundTrip(n);
  }

  lemma U64IsCanonical(s: seq<byte>)
    requires GetU64(s).Ok?
    ensures s == PutU64(GetU64(s).value.0, GetU64(s).value.1)
  {
    hide Be64, FromBe64;
    Be64Canonical(s[..8]);
  }

  // -------------------------------------------------------------------- booleans

  function PutBool(b: bool, rest: seq<byte>): (s: seq<byte>)
    ensures |s| == 4 + |rest|
  {
    PutU32(if b then 1 else 0, rest)
  }

  function GetBool(s: seq<byte>): Parsed<bool> {
    var (n, rest) :- GetU32(s);
    if n == 0 then Ok((false, rest)) else if n == 1 then Ok((true, rest)) else Err(InvalidBoolean(n))
  }

  lemma ReadBoolBack(b: bool, rest: seq<byte>)
    ensures GetBool(PutBool(b, rest)) == Ok((b, rest))
  {
    hide PutU32, GetU32;
    ReadU32Back(if b then 1 else 0, rest);
  }

  lemma BoolIsCanonical(s: seq<byte>)
    requires GetBool(s).Ok?
    ensures s == PutBool(GetBool(s).value.0, GetBool(s).value.1)
  {
    hide PutU32, GetU32;
    U32IsCanonical(s);
  }

  // --------------------------------------------------------------- fixed and opaque

  function GetFixed(s: seq<byte>, n: nat): Parsed<seq<byte>> {
    if |s| < n then Err(Truncated) else Ok((s[..n], s[n..]))
  }

  lemma ReadFixedBack(b: seq<byte>, rest: seq<byte>)
    ensures GetFixed(b + rest, |b|) == Ok((b, rest))
  {
  }

  lemma FixedIsCanonical(s: seq<byte>, n: nat)
    requires GetFixed(s, n).Ok?
    ensures s == GetFixed(s, n).value.0 + GetFixed(s, n).value.1 && |GetFixed(s, n).value.0| == n
  {
  }

  function PutOpaque(b: seq<byte>, rest: seq<byte>): (s: seq<byte>)
    requires |b| < U32_BOUND
    ensures |s| == OpaqueSize(|b|) + |rest|
  {
    PutU32(|b|, b + (Zeros(Padding(|b|)) + rest))
  }

  function OpaqueSize(length: nat): nat {
    4 + length + Padding(length)
  }

  function GetLength(s: seq<byte>, field: string, limit: nat): Parsed<nat> {
    var (length, rest) :- GetU32(s);
    if length > limit then Err(LimitExceeded(field, length, limit)) else Ok((length as nat, rest))
  }

  function GetOpaque(s: seq<byte>, field: string, limit: nat): Parsed<seq<byte>> {
    var (length, s1) :- GetLength(s, field, limit);
    var (value, s2) :- GetFixed(s1, length);
    var (padding, rest) :- GetFixed(s2, Padding(length));
    if padding != Zeros(Padding(length)) then Err(InvalidPadding) else Ok((value, rest))
  }

  lemma ReadOpaqueBack(b: seq<byte>, rest: seq<byte>, field: string, limit: nat)
    requires |b| < U32_BOUND && |b| <= limit
    ensures GetOpaque(PutOpaque(b, rest), field, limit) == Ok((b, rest))
  {
    hide PutU32, GetU32, GetFixed, Zeros, Padding;
    var tail := Zeros(Padding(|b|)) + rest;
    ReadU32Back(|b|, b + tail);
    ReadFixedBack(b, tail);
    ReadFixedBack(Zeros(Padding(|b|)), rest);
  }

  lemma OpaqueIsCanonical(s: seq<byte>, field: string, limit: nat)
    requires GetOpaque(s, field, limit).Ok?
    ensures var (b, rest) := GetOpaque(s, field, limit).value;
            |b| < U32_BOUND && |b| <= limit && s == PutOpaque(b, rest)
  {
    hide PutU32, GetU32, GetFixed, Zeros, Padding;
    U32IsCanonical(s);
    var (length, s1) := GetU32(s).value;
    FixedIsCanonical(s1, length);
    var (b, s2) := GetFixed(s1, length).value;
    FixedIsCanonical(s2, Padding(length));
  }

  /** What becomes of an announced length and the bytes `s` behind it: too long, cut short,
      badly padded, or exactly that many bytes. */
  lemma OpaqueOutcome(length: u32, s: seq<byte>, field: string, limit: nat)
    ensures var end := (length + 3) / 4 * 4;
            GetOpaque(PutU32(length, s), field, limit) ==
            if length > limit then Err(LimitExceeded(field, length, limit))
            else if |s| < end then Err(Truncated)
            else if exists i :: length <= i < end && s[i] != 0 then Err(InvalidPadding)
            else Ok((s[..length], s[end..]))
  {
    ReadU32Back(length, s);
    hide PutU32, GetU32;
    var end := length + Padding(length);
    assert end == (length + 3) / 4 * 4;
    if length <= limit && end <= |s| {
      assert s[length..][..Padding(length)] == s[length..end];
      assert s[length..][Padding(length)..] == s[end..];
      assert forall i :: length <= i < end ==> s[i] == s[length..end][i - length];
    }
  }

  /** Nothing may follow the outermost value. */
  function Finish<T>(p: Parsed<T>): Decoded<T> {
    var (v, rest) :- p;
    if rest == [] then Ok(v) else Err(TrailingBytes)
  }
}
