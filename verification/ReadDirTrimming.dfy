/** Backward trimming of a directory listing (src/nfs3/codec.rs): drop entries from the
    end until the result arm fits. Sizes exclude the status word, as sections 3.3.16 and
    3.3.17 of RFC 1813 count them. */
module ReadDirTrimming {
  import opened Sequences
  import opened Results
  import opened Encoding

  datatype Trimmed = Trimmed(fits: bool) | TrimFailed(error: EncodeError)

  function ArmSize(r: ReadDirResult): nat {
    SaturatingSub(Size(ReadDirBytes(r)), 4)
  }

  /** The plain form: encode the whole remaining result again after every removal. */
  function TrimReference(result: ReadDirResult, maxSize: nat): (Trimmed, ReadDirResult)
    decreases if result.Listing? then |result.entries| else 0
  {
    var encoded := ReadDirBytes(result);
    if encoded.Failed? then (TrimFailed(encoded.error), result)
    else if ArmSize(result) <= maxSize then (Trimmed(true), result)
    else if result.ListingError? || result.entries == [] then (Trimmed(false), result)
    else TrimReference(result.(entries := result.entries[..|result.entries| - 1], eof := false), maxSize)
  }

  /** Removing the last entry of an encodable listing removes its bytes and no others. */
  lemma RemovalSubtracts(result: ReadDirResult)
    requires result.Listing? && result.entries != [] && ReadDirBytes(result).Bytes?
    ensures var shorter := result.(entries := result.entries[..|result.entries| - 1], eof := false);
            var removed := result.entries[|result.entries| - 1];
            && ReadDirBytes(shorter).Bytes?
            && EntryBytes(removed).Bytes?
            && ArmSize(result) == ArmSize(shorter) + Size(EntryBytes(removed))
  {
    hide EntryBytes, PostAttributes;
    var n := |result.entries| - 1;
    ListingSize(result.attributes, result.verifier, result.entries, result.eof);
    ListingSize(result.attributes, result.verifier, result.entries[..n], false);
  }

  /** The production form encodes the result once and then only subtracts. It returns
      what the plain form returns, errors included, and leaves the same listing. */
  method Trim(result: ReadDirResult, maxSize: nat) returns (r: Trimmed, after: ReadDirResult)
    ensures (r, after) == TrimReference(result, maxSize)
  {
    hide ReadDirBytes, EntryBytes;
    after := result;
    var encoder := new Encoder();
    var outcome := EncodeReadDir(encoder, result);
    if outcome.Fail? {
      return TrimFailed(outcome.error), after;
    }
    var encodedSize := SaturatingSub(|encoder.output|, 4);
    if encodedSize <= maxSize {
      return Trimmed(true), after;
    }
    if result.ListingError? {
      return Trimmed(false), after;
    }
    while encodedSize > maxSize
      invariant after.Listing?
      invariant ReadDirBytes(after).Bytes? && encodedSize == ArmSize(after)
      invariant TrimReference(after, maxSize) == TrimReference(result, maxSize)
      decreases |after.entries|
    {
      if after.entries == [] {
        return Trimmed(false), after;
      }
      RemovalSubtracts(after);
      var removed := after.entries[|after.entries| - 1];
      after := after.(entries := after.entries[..|after.entries| - 1]);
      var removedEncoder := new Encoder();
      var removedOutcome := EncodeEntry(removedEncoder, removed);
      assert removedOutcome.Pass?;
      encodedSize := SaturatingSub(encodedSize, |removedEncoder.output|);
      after := after.(eof := false);
    }
    return Trimmed(true), after;
  }

  /** The listing cut to its first `k` entries. */
  function Cut(result: ReadDirResult, k: nat): ReadDirResult
    requires result.Listing? && k <= |result.entries|
  {
    if k == |result.entries| then result else result.(entries := result.entries[..k], eof := false)
  }

  /** `t` is what remains of `result`: the longest leading part that fits, final only if
      nothing was dropped; with `Trimmed(false)` even the empty listing is too large. */
  ghost predicate IsLongestFitting(result: ReadDirResult, maxSize: nat, r: Trimmed, t: ReadDirResult)
    requires result.Listing?
  {
    exists k: nat ::
      && k <= |result.entries|
      && t == Cut(result, k)
      && r == Trimmed(ArmSize(t) <= maxSize)
      && (ArmSize(t) <= maxSize || k == 0)
      && forall j :: k < j <= |result.entries| ==> ArmSize(Cut(result, j)) > maxSize
  }

  lemma {:induction false} TrimIsLongest(result: ReadDirResult, maxSize: nat)
    requires result.Listing? && ReadDirBytes(result).Bytes?
    ensures var (r, t) := TrimReference(result, maxSize);
            IsLongestFitting(result, maxSize, r, t)
    decreases |result.entries|
  {
    hide ReadDirBytes, EntryBytes, IsLongestFitting;
    var n := |result.entries|;
    var (r, t) := TrimReference(result, maxSize);
    if ArmSize(result) <= maxSize || n == 0 {
      LongestAt(result, maxSize, r, t, n);
    } else {
      RemovalSubtracts(result);
      var shorter := result.(entries := result.entries[..n - 1], eof := false);
      TrimIsLongest(shorter, maxSize);
      LongestExtends(result, maxSize, r, t);
    }
  }

  lemma LongestAt(result: ReadDirResult, maxSize: nat, r: Trimmed, t: ReadDirResult, k: nat)
    requires result.Listing? && k <= |result.entries| && t == Cut(result, k)
    requires r == Trimmed(ArmSize(t) <= maxSize) && (ArmSize(t) <= maxSize || k == 0)
    requires forall j :: k < j <= |result.entries| ==> ArmSize(Cut(result, j)) > maxSize
    ensures IsLongestFitting(result, maxSize, r, t)
  {
    hide ArmSize, Cut;
  }

  lemma LongestExtends(result: ReadDirResult, maxSize: nat, r: Trimmed, t: ReadDirResult)
    requires result.Listing? && result.entries != [] && ArmSize(result) > maxSize
    requires IsLongestFitting(result.(entries := result.entries[..|result.entries| - 1], eof := false), maxSize, r, t)
    ensures IsLongestFitting(result, maxSize, r, t)
  {
    hide ArmSize;
    var n := |result.entries|;
    var shorter := result.(entries := result.entries[..n - 1], eof := false);
    var k: nat :| && k <= n - 1 && t == Cut(shorter, k)
                  && r == Trimmed(ArmSize(t) <= maxSize) && (ArmSize(t) <= maxSize || k == 0)
                  && forall j :: k < j <= n - 1 ==> ArmSize(Cut(shorter, j)) > maxSize;
    forall j: nat | j <= n - 1
      ensures Cut(shorter, j) == Cut(result, j)
    {
      assert shorter.entries[..j] == result.entries[..j];
    }
    LongestAt(result, maxSize, r, t, k);
  }
}
