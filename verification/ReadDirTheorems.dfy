/** What the two ways of fitting a directory listing into a reply have in common. */
module ReadDirTheorems {
  import opened Sequences
  import opened Results
  import opened ReadDirTrimming
  import opened ReadDirSelection

  lemma LongestIsUnique(plus: bool, page: Page, base: nat, directoryLimit: Option<nat>, wireLimit: nat, j: nat, k: nat)
    requires Longest(plus, page, base, directoryLimit, wireLimit, j)
    requires Longest(plus, page, base, directoryLimit, wireLimit, k)
    ensures j == k
  {
    hide Accepts;
  }

  /** The specification leaves no choice. */
  lemma ChoiceIsUnique(plus: bool, attributes: Option<FileAttributes>, page: Page, directoryLimit: Option<nat>,
                       wireLimit: nat, c: Choice, d: Choice)
    requires IsChoice(plus, attributes, page, directoryLimit, wireLimit, c)
    requires IsChoice(plus, attributes, page, directoryLimit, wireLimit, d)
    ensures c == d
  {
    hide Accepts, ChoiceAt, PostAttributes;
    var base := Base(Kept(attributes, wireLimit));
    if PostAttributes(attributes).Bytes? && base <= wireLimit {
      var j: nat :| Longest(plus, page, base, directoryLimit, wireLimit, j)
                    && c == ChoiceAt(plus, attributes, page, directoryLimit, wireLimit, j);
      var k: nat :| Longest(plus, page, base, directoryLimit, wireLimit, k)
                    && d == ChoiceAt(plus, attributes, page, directoryLimit, wireLimit, k);
      LongestIsUnique(plus, page, base, directoryLimit, wireLimit, j, k);
    }
  }

  /** A successful listing is the longest leading part of the page within both limits, it
      fits the reply, it is final only if the page was final and nothing was dropped, and
      it is empty only if the page was. */
  lemma ListingIsLongest(plus: bool, attributes: Option<FileAttributes>, page: Page, directoryLimit: Option<nat>,
                         wireLimit: nat, r: ReadDirResult)
    requires r.Listing? && IsChoice(plus, attributes, page, directoryLimit, wireLimit, Chosen(r))
    ensures var base, k := Base(Kept(attributes, wireLimit)), |r.entries|;
            && k <= |page.entries| && Longest(plus, page, base, directoryLimit, wireLimit, k)
            && r == Listing(Kept(attributes, wireLimit), page.verifier, TypedEntries(plus, page.entries[..k]),
                            page.eof && k == |page.entries|)
            && (k == 0 ==> page.entries == [])
            && ReadDirBytes(r).Bytes? && ArmSize(r) <= wireLimit
  {
    hide PostAttributes, Accepts, ReadDirBytes, Obstacle;
    var base := Base(Kept(attributes, wireLimit));
    var k: nat :| Longest(plus, page, base, directoryLimit, wireLimit, k)
                  && Chosen(r) == ChoiceAt(plus, attributes, page, directoryLimit, wireLimit, k);
    AcceptedFits(plus, attributes, page, directoryLimit, wireLimit, k, r.eof);
  }

  lemma AcceptedFits(plus: bool, attributes: Option<FileAttributes>, page: Page, directoryLimit: Option<nat>,
                     wireLimit: nat, k: nat, eof: bool)
    requires PostAttributes(attributes).Bytes? && Base(Kept(attributes, wireLimit)) <= wireLimit
    requires Accepts(plus, page, Base(Kept(attributes, wireLimit)), directoryLimit, wireLimit, k)
    ensures k <= |page.entries|
    ensures var r := Listing(Kept(attributes, wireLimit), page.verifier, TypedEntries(plus, page.entries[..k]), eof);
            ReadDirBytes(r).Bytes? && ArmSize(r) <= wireLimit
  {
    hide PostAttributes, ReadDirBytes, Entries, TypedEntries;
    var kept := Kept(attributes, wireLimit);
    EmptyPrefix(plus, page, 0, None, 0);
    NoAttributesEncode();
    ListingSize(kept, page.verifier, TypedEntries(plus, page.entries[..k]), eof);
  }

  lemma NoAttributesEncode()
    ensures PostAttributes(None).Bytes?
  {
  }

  /** With no directory limit, a listing cut to `k` entries fits exactly when those
      entries are accepted. */
  lemma CutMatchesAccepts(plus: bool, attributes: Option<FileAttributes>, page: Page, wireLimit: nat, k: nat)
    requires PostAttributes(attributes).Bytes? && Sent(plus, page, |page.entries|).Bytes?
    requires Base(Kept(attributes, wireLimit)) <= wireLimit
    requires k <= |page.entries|
    ensures var base := Base(Kept(attributes, wireLimit));
            var full := Listing(Kept(attributes, wireLimit), page.verifier, TypedEntries(plus, page.entries), page.eof);
            && ReadDirBytes(full).Bytes?
            && (ArmSize(Cut(full, k)) <= wireLimit <==> Accepts(plus, page, base, None, wireLimit, k))
            && Cut(full, k) == Listing(Kept(attributes, wireLimit), page.verifier,
                                       TypedEntries(plus, page.entries[..k]), page.eof && k == |page.entries|)
  {
    hide PostAttributes, Entries, EntryBytes;
    var kept := Kept(attributes, wireLimit);
    var all := TypedEntries(plus, page.entries);
    NoAttributesEncode();
    assert page.entries[..|page.entries|] == page.entries;
    assert all[..k] == TypedEntries(plus, page.entries[..k]);
    EntriesPrefix(all, k);
    BasicPartEncodes(plus, page, k);
    ListingSize(kept, page.verifier, all, page.eof);
    ListingSize(kept, page.verifier, all[..k], page.eof && k == |page.entries|);
    EmptyPrefix(plus, page, 0, None, 0);
  }

  /** An entry that encodes has a basic part that encodes. */
  lemma {:induction false} BasicPartEncodes(plus: bool, page: Page, k: nat)
    requires k <= |page.entries| && Sent(plus, page, k).Bytes?
    ensures Sent(false, page, k).Bytes?
  {
    hide Sent, EntryBytes;
    if k == 0 {
      EmptyPrefix(plus, page, 0, None, 0);
    } else {
      SentStep(plus, page, k - 1);
      SentStep(false, page, k - 1);
      BasicPartEncodes(plus, page, k - 1);
      BasicEncodes(plus, page.entries[k - 1]);
    }
  }

  lemma BasicEncodes(plus: bool, d: DirectoryEntry)
    requires EntryBytes(TypedEntry(plus, d)).Bytes?
    ensures EntryBytes(BasicEntry(d)).Bytes?
  {
    hide Opaque, PostAttributes, OptionalHandle;
  }

  /** Without a directory limit, on a page that encodes and whose empty listing fits, the
      forward pass and the backward trimming of the same page agree exactly when the page
      is empty or its first entry fits. Otherwise the forward pass reports TOOSMALL where
      trimming leaves an empty, non-final listing. */
  lemma ForwardAgreesWithBackward(plus: bool, attributes: Option<FileAttributes>, page: Page, wireLimit: nat, c: Choice)
    requires IsChoice(plus, attributes, page, None, wireLimit, c)
    requires PostAttributes(attributes).Bytes? && Sent(plus, page, |page.entries|).Bytes?
    requires Base(Kept(attributes, wireLimit)) <= wireLimit
    ensures var full := Listing(Kept(attributes, wireLimit), page.verifier, TypedEntries(plus, page.entries), page.eof);
            var (r, t) := TrimReference(full, wireLimit);
            && r == Trimmed(true)
            && (c == Chosen(t) <==>
                page.entries == [] || Accepts(plus, page, Base(Kept(attributes, wireLimit)), None, wireLimit, 1))
            && (c != Chosen(t) ==>
                  && c == Chosen(ListingError(TOO_SMALL, attributes))
                  && t == Listing(Kept(attributes, wireLimit), page.verifier, [], false))
  {
    hide PostAttributes, Accepts, ReadDirBytes, Obstacle, Sent, TypedEntries, TrimReference;
    var kept := Kept(attributes, wireLimit);
    var base, n := Base(kept), |page.entries|;
    var full := Listing(kept, page.verifier, TypedEntries(plus, page.entries), page.eof);
    forall j: nat | j <= n
      ensures ReadDirBytes(full).Bytes?
      ensures ArmSize(Cut(full, j)) <= wireLimit <==> Accepts(plus, page, base, None, wireLimit, j)
    {
      CutMatchesAccepts(plus, attributes, page, wireLimit, j);
    }
    CutMatchesAccepts(plus, attributes, page, wireLimit, 0);
    TrimIsLongest(full, wireLimit);
    var (r, t) := TrimReference(full, wireLimit);
    var m: nat :| m <= n && t == Cut(full, m)
                  && r == Trimmed(ArmSize(t) <= wireLimit) && (ArmSize(t) <= wireLimit || m == 0)
                  && forall j :: m < j <= n ==> ArmSize(Cut(full, j)) > wireLimit;
    EmptyPrefix(plus, page, base, None, wireLimit);
    BackwardIsLongest(plus, attributes, page, wireLimit, full, m);
    CutMatchesAccepts(plus, attributes, page, wireLimit, m);
    var k: nat :| Longest(plus, page, base, None, wireLimit, k) && c == ChoiceAt(plus, attributes, page, None, wireLimit, k);
    LongestIsUnique(plus, page, base, None, wireLimit, k, m);
    NoObstacle(plus, page, m);
    if m == 0 && n > 0 {
      assert !Accepts(plus, page, base, None, wireLimit, 1);
    } else if n > 0 && !Accepts(plus, page, base, None, wireLimit, 1) {
      RefusesLonger(plus, page, base, None, wireLimit, 1, m);
    }
  }

  lemma BackwardIsLongest(plus: bool, attributes: Option<FileAttributes>, page: Page, wireLimit: nat,
                          full: ReadDirResult, m: nat)
    requires full.Listing? && |full.entries| == |page.entries| && m <= |page.entries|
    requires forall j: nat :: j <= |page.entries| ==>
               (ArmSize(Cut(full, j)) <= wireLimit <==>
                Accepts(plus, page, Base(Kept(attributes, wireLimit)), None, wireLimit, j))
    requires ArmSize(Cut(full, m)) <= wireLimit
    requires forall j :: m < j <= |page.entries| ==> ArmSize(Cut(full, j)) > wireLimit
    ensures Longest(plus, page, Base(Kept(attributes, wireLimit)), None, wireLimit, m)
  {
    hide ArmSize, Cut, Sent;
  }

  /** A page that encodes stops the selection only by size. */
  lemma NoObstacle(plus: bool, page: Page, k: nat)
    requires k <= |page.entries| && Sent(plus, page, |page.entries|).Bytes?
    ensures k < |page.entries| ==> Obstacle(plus, page, None, k).None?
  {
    hide Entries, EntryBytes;
    var n := |page.entries|;
    assert page.entries[..n] == page.entries;
    if k < n {
      EntriesPrefix(TypedEntries(plus, page.entries), k);
      BasicEncodes(plus, page.entries[k]);
    }
  }

  // ------------------------------------------------------------------------ in plain bytes

  /** Backward trimming in plain terms: `t` is `result` cut to some number of entries and not
      final if that dropped any; it takes at most `maxSize` bytes after its status word unless
      it is empty; and with one entry more it would take more than that. */
  lemma TrimInBytes(result: ReadDirResult, maxSize: nat)
    requires result.Listing? && ReadDirBytes(result).Bytes?
    ensures var (r, t) := TrimReference(result, maxSize);
            && t.Listing? && |t.entries| <= |result.entries|
            && t == Listing(result.attributes, result.verifier, result.entries[..|t.entries|],
                            result.eof && |t.entries| == |result.entries|)
            && ReadDirBytes(t).Bytes?
            && (r == Trimmed(true) <==> |ReadDirBytes(t).bytes| <= maxSize + 4)
            && (r == Trimmed(true) || (r == Trimmed(false) && t.entries == []))
            && (|t.entries| < |result.entries| ==>
                  var longer := result.(entries := result.entries[..|t.entries| + 1], eof := false);
                  ReadDirBytes(longer).Bytes? && |ReadDirBytes(longer).bytes| > maxSize + 4)
  {
    hide ReadDirBytes, TrimReference;
    var (r, t) := TrimReference(result, maxSize);
    TrimIsLongest(result, maxSize);
    var n := |result.entries|;
    var k: nat :| k <= n && t == Cut(result, k)
                  && r == Trimmed(ArmSize(t) <= maxSize) && (ArmSize(t) <= maxSize || k == 0)
                  && forall j :: k < j <= n ==> ArmSize(Cut(result, j)) > maxSize;
    assert result.entries[..n] == result.entries;
    CutEncodes(result, k);
    if k < n {
      CutEncodes(result, k + 1);
      assert ArmSize(Cut(result, k + 1)) > maxSize;
    }
  }

  /** A leading part of a listing that encodes does too, final or not. */
  lemma CutEncodes(result: ReadDirResult, k: nat)
    requires result.Listing? && ReadDirBytes(result).Bytes? && k <= |result.entries|
    ensures ReadDirBytes(Cut(result, k)).Bytes?
    ensures var open := result.(entries := result.entries[..k], eof := false);
            ReadDirBytes(open).Bytes? && ArmSize(open) == ArmSize(Cut(result, k))
            && |ReadDirBytes(open).bytes| == |ReadDirBytes(Cut(result, k)).bytes|
  {
    hide PostAttributes, Entries, EntryBytes;
    EntriesPrefix(result.entries, k);
    assert k == |result.entries| ==> result.entries[..k] == result.entries;
    ListingSize(result.attributes, result.verifier, result.entries[..k], false);
    ListingSize(result.attributes, result.verifier, result.entries[..k], result.eof);
  }

  /** Bytes of the file IDs, names and cookies of some entries as a directory limit counts
      them: 24 bytes and the padded name for each. */
  function DirectoryBytes(ds: seq<DirectoryEntry>): nat {
    if ds == [] then 0 else DirectoryBytes(ds[..|ds| - 1]) + 24 + (|ds[|ds| - 1].name| + 3) / 4 * 4
  }

  lemma {:induction false} BasicSize(page: Page, k: nat)
    requires k <= |page.entries| && Sent(false, page, k).Bytes?
    ensures |Sent(false, page, k).bytes| == DirectoryBytes(page.entries[..k])
  {
    hide Sent, EntryBytes;
    if k == 0 {
      EmptyPrefix(false, page, 0, None, 0);
    } else {
      SentStep(false, page, k - 1);
      BasicSize(page, k - 1);
      OneBasicSize(page.entries[k - 1]);
      assert page.entries[..k][..k - 1] == page.entries[..k - 1];
    }
  }

  lemma OneBasicSize(d: DirectoryEntry)
    requires EntryBytes(BasicEntry(d)).Bytes?
    ensures |EntryBytes(BasicEntry(d)).bytes| == 24 + (|d.name| + 3) / 4 * 4
  {
  }

  /** The entries as sent: what the page says of each, with attributes and handle exactly for
      READDIRPLUS. */
  ghost predicate SentAs(plus: bool, ds: seq<DirectoryEntry>, es: seq<Entry>) {
    && |es| == |ds|
    && forall i :: 0 <= i < |ds| ==>
         es[i] == Entry(ds[i].fileId, ds[i].name, ds[i].cookie,
                        if plus then Plus(ds[i].attributes, Some(ds[i].handle)) else Basic)
  }

  /** A listing of these entries takes more than `wireLimit` bytes after its status word. */
  ghost predicate Exceeds(plus: bool, ds: seq<DirectoryEntry>, attributes: Option<FileAttributes>, wireLimit: nat,
                          r: ReadDirResult) {
    && r.Listing? && r.attributes == attributes && SentAs(plus, ds, r.entries)
    && ReadDirBytes(r).Bytes? && |ReadDirBytes(r).bytes| > wireLimit + 4
  }

  ghost predicate TooLong(plus: bool, ds: seq<DirectoryEntry>, attributes: Option<FileAttributes>, wireLimit: nat) {
    exists r :: Exceeds(plus, ds, attributes, wireLimit, r)
  }

  /** Forward selection in plain terms. The listing is a leading part of the page, final only
      if that is all of a final page; it takes at most `wireLimit` bytes after its status word,
      and its basic parts and end mark at most the directory limit; with one entry more it
      would break one of the two. The directory's own attributes are given up exactly when
      the limit is below the 104 bytes of an empty listing with them. */
  lemma ListingInBytes(plus: bool, attributes: Option<FileAttributes>, page: Page, directoryLimit: Option<nat>,
                       wireLimit: nat, r: ReadDirResult)
    requires r.Listing? && IsChoice(plus, attributes, page, directoryLimit, wireLimit, Chosen(r))
    ensures var k := |r.entries|;
            && k <= |page.entries| && SentAs(plus, page.entries[..k], r.entries)
            && r.attributes == (if attributes.Some? && wireLimit < 104 then None else attributes)
            && r.verifier == page.verifier && r.eof == (page.eof && k == |page.entries|)
            && (k == 0 ==> page.entries == [])
            && ReadDirBytes(r).Bytes? && |ReadDirBytes(r).bytes| <= wireLimit + 4
            && (k > 0 && directoryLimit.Some? ==> DirectoryBytes(page.entries[..k]) + 4 <= directoryLimit.value)
            && (k < |page.entries| ==>
                  || (directoryLimit.Some? && DirectoryBytes(page.entries[..k + 1]) + 4 > directoryLimit.value)
                  || TooLong(plus, page.entries[..k + 1], r.attributes, wireLimit))
  {
    hide IsChoice, ReadDirBytes, Sent;
    ListingIsLongest(plus, attributes, page, directoryLimit, wireLimit, r);
    var base, k := Base(Kept(attributes, wireLimit)), |r.entries|;
    hide Longest;
    LongestAccepts(plus, page, base, directoryLimit, wireLimit, k);
    if k > 0 {
      BasicSize(page, k);
    }
    if k < |page.entries| {
      NoObstacleLeft(plus, attributes, page, directoryLimit, wireLimit, r);
      OneMoreBreaks(plus, attributes, page, directoryLimit, wireLimit, k);
    }
  }

  lemma LongestAccepts(plus: bool, page: Page, base: nat, directoryLimit: Option<nat>, wireLimit: nat, k: nat)
    requires Longest(plus, page, base, directoryLimit, wireLimit, k)
    ensures Accepts(plus, page, base, directoryLimit, wireLimit, k)
    ensures !Accepts(plus, page, base, directoryLimit, wireLimit, k + 1)
  {
    hide Accepts;
  }

  /** A reply was chosen, so the entry at which the selection stopped raised no error. */
  lemma NoObstacleLeft(plus: bool, attributes: Option<FileAttributes>, page: Page, directoryLimit: Option<nat>,
                       wireLimit: nat, r: ReadDirResult)
    requires r.Listing? && IsChoice(plus, attributes, page, directoryLimit, wireLimit, Chosen(r))
    requires |r.entries| < |page.entries|
    ensures Obstacle(plus, page, directoryLimit, |r.entries|).None?
    ensures PostAttributes(attributes).Bytes? && Base(Kept(attributes, wireLimit)) <= wireLimit
  {
    hide PostAttributes, Accepts, Obstacle;
    var base := Base(Kept(attributes, wireLimit));
    var k: nat :| Longest(plus, page, base, directoryLimit, wireLimit, k)
                  && Chosen(r) == ChoiceAt(plus, attributes, page, directoryLimit, wireLimit, k);
    assert |r.entries| == k;
  }

  lemma OneMoreBreaks(plus: bool, attributes: Option<FileAttributes>, page: Page, directoryLimit: Option<nat>,
                      wireLimit: nat, k: nat)
    requires k < |page.entries| && Obstacle(plus, page, directoryLimit, k).None?
    requires PostAttributes(attributes).Bytes?
    requires Accepts(plus, page, Base(Kept(attributes, wireLimit)), directoryLimit, wireLimit, k)
    requires !Accepts(plus, page, Base(Kept(attributes, wireLimit)), directoryLimit, wireLimit, k + 1)
    ensures || (directoryLimit.Some? && DirectoryBytes(page.entries[..k + 1]) + 4 > directoryLimit.value)
            || TooLong(plus, page.entries[..k + 1], Kept(attributes, wireLimit), wireLimit)
  {
    hide PostAttributes, ReadDirBytes, Sent, EntryBytes, Entries;
    var kept := Kept(attributes, wireLimit);
    SentStep(plus, page, k);
    SentStep(false, page, k);
    if k == 0 {
      EmptyPrefix(plus, page, 0, None, 0);
      EmptyPrefix(false, page, 0, None, 0);
    }
    assert Sent(false, page, k + 1).Bytes?;
    BasicSize(page, k + 1);
    if !(directoryLimit.Some? && DirectoryBytes(page.entries[..k + 1]) + 4 > directoryLimit.value) {
      var es := TypedEntries(plus, page.entries[..k + 1]);
      var longer := Listing(kept, page.verifier, es, false);
      SentIsEntries(plus, page, k + 1);
      NoAttributesEncode();
      ListingSize(kept, page.verifier, es, false);
      assert Exceeds(plus, page.entries[..k + 1], kept, wireLimit, longer);
    }
  }

  lemma SentIsEntries(plus: bool, page: Page, k: nat)
    requires k <= |page.entries|
    ensures Sent(plus, page, k) == Entries(TypedEntries(plus, page.entries[..k]))
  {
  }

  /** One entry breaks a limit: its basic part the directory limit, or a listing of it alone
      the reply's. */
  ghost predicate FirstBreaks(plus: bool, attributes: Option<FileAttributes>, page: Page, directoryLimit: Option<nat>,
                              wireLimit: nat)
  {
    && page.entries != []
    && (|| (directoryLimit.Some? && DirectoryBytes(page.entries[..1]) + 4 > directoryLimit.value)
        || TooLong(plus, page.entries[..1], attributes, wireLimit))
  }

  lemma TooLongIsRefused(plus: bool, page: Page, kept: Option<FileAttributes>, directoryLimit: Option<nat>, wireLimit: nat)
    requires page.entries != [] && TooLong(plus, page.entries[..1], kept, wireLimit)
    ensures !Accepts(plus, page, Base(kept), directoryLimit, wireLimit, 1)
  {
    hide ReadDirBytes, Entries, PostAttributes;
    var r :| Exceeds(plus, page.entries[..1], kept, wireLimit, r);
    var es := TypedEntries(plus, page.entries[..1]);
    assert r.entries == es;
    if Sent(plus, page, 1).Bytes? {
      ListingParts(r);
      ListingSize(kept, r.verifier, es, r.eof);
    }
  }

  lemma ListingParts(r: ReadDirResult)
    requires r.Listing? && ReadDirBytes(r).Bytes?
    ensures PostAttributes(r.attributes).Bytes?
  {
    hide PostAttributes;
  }

  /** TOOSMALL, with the directory's attributes, is the answer exactly when not even an empty
      listing fits or the first entry breaks a limit. */
  lemma TooSmallIsExact(plus: bool, attributes: Option<FileAttributes>, page: Page, directoryLimit: Option<nat>,
                        wireLimit: nat, r: ReadDirResult)
    requires IsChoice(plus, attributes, page, directoryLimit, wireLimit, Chosen(r))
    ensures r.ListingError? ==> r == ListingError(10005, attributes)
    ensures r.ListingError? <==>
            || wireLimit < 20
            || FirstBreaks(plus, if attributes.Some? && wireLimit < 104 then None else attributes, page, directoryLimit, wireLimit)
  {
    hide PostAttributes, Accepts, Obstacle, TooLong, FirstBreaks;
    var kept := Kept(attributes, wireLimit);
    var base := Base(kept);
    if base <= wireLimit {
      var k: nat :| Longest(plus, page, base, directoryLimit, wireLimit, k)
                    && Chosen(r) == ChoiceAt(plus, attributes, page, directoryLimit, wireLimit, k);
      if page.entries == [] {
        NothingBreaks(plus, kept, page, directoryLimit, wireLimit);
      } else if k == 0 {
        FirstRefused(plus, attributes, page, directoryLimit, wireLimit);
      } else {
        RefusesContrapositive(plus, page, base, directoryLimit, wireLimit, k);
        FirstAccepted(plus, page, kept, directoryLimit, wireLimit);
      }
    }
  }

  lemma NothingBreaks(plus: bool, kept: Option<FileAttributes>, page: Page, directoryLimit: Option<nat>, wireLimit: nat)
    requires page.entries == []
    ensures !FirstBreaks(plus, kept, page, directoryLimit, wireLimit)
  {
  }

  lemma FirstRefused(plus: bool, attributes: Option<FileAttributes>, page: Page, directoryLimit: Option<nat>,
                     wireLimit: nat)
    requires page.entries != [] && Obstacle(plus, page, directoryLimit, 0).None? && PostAttributes(attributes).Bytes?
    requires Base(Kept(attributes, wireLimit)) <= wireLimit
    requires !Accepts(plus, page, Base(Kept(attributes, wireLimit)), directoryLimit, wireLimit, 1)
    ensures FirstBreaks(plus, Kept(attributes, wireLimit), page, directoryLimit, wireLimit)
  {
    hide PostAttributes, Obstacle, Accepts, TooLong, DirectoryBytes;
    EmptyPrefix(plus, page, Base(Kept(attributes, wireLimit)), directoryLimit, wireLimit);
    OneMoreBreaks(plus, attributes, page, directoryLimit, wireLimit, 0);
  }

  lemma RefusesContrapositive(plus: bool, page: Page, base: nat, directoryLimit: Option<nat>, wireLimit: nat, k: nat)
    requires 1 <= k && Accepts(plus, page, base, directoryLimit, wireLimit, k)
    ensures Accepts(plus, page, base, directoryLimit, wireLimit, 1)
  {
    hide Accepts;
    if !Accepts(plus, page, base, directoryLimit, wireLimit, 1) {
      RefusesLonger(plus, page, base, directoryLimit, wireLimit, 1, k);
    }
  }

  lemma FirstAccepted(plus: bool, page: Page, kept: Option<FileAttributes>, directoryLimit: Option<nat>, wireLimit: nat)
    requires page.entries != [] && Accepts(plus, page, Base(kept), directoryLimit, wireLimit, 1)
    ensures !FirstBreaks(plus, kept, page, directoryLimit, wireLimit)
  {
    hide Sent, TooLong;
    BasicSize(page, 1);
    if TooLong(plus, page.entries[..1], kept, wireLimit) {
      TooLongIsRefused(plus, page, kept, directoryLimit, wireLimit);
    }
  }
}
