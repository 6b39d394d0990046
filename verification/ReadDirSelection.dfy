/** Forward selection of directory entries (src/server/connection.rs): take entries of a
    backend page in order while both byte limits hold. */
module ReadDirSelection {
  import opened Sequences
  import opened BigEndian
  import opened Results
  import opened Encoding

  /** `handle` is the export's handle for the entry's object. */
  datatype DirectoryEntry = DirectoryEntry(
    fileId: u64, name: seq<byte>, cookie: u64, attributes: Option<FileAttributes>, handle: Handle)
  datatype Page = Page(verifier: Verifier, entries: seq<DirectoryEntry>, eof: bool)

  function BasicEntry(d: DirectoryEntry): Entry {
    Entry(d.fileId, d.name, d.cookie, Basic)
  }

  function TypedEntry(plus: bool, d: DirectoryEntry): Entry {
    if plus then Entry(d.fileId, d.name, d.cookie, Plus(d.attributes, Some(d.handle))) else BasicEntry(d)
  }

  function TypedEntries(plus: bool, ds: seq<DirectoryEntry>): (es: seq<Entry>)
    ensures |es| == |ds|
  {
    seq(|ds|, i requires 0 <= i < |ds| => TypedEntry(plus, ds[i]))
  }

  /** Bytes of the first `k` entries: in the listing sent, and of their basic parts. */
  function Sent(plus: bool, page: Page, k: nat): Encoded
    requires k <= |page.entries|
  {
    Entries(TypedEntries(plus, page.entries[..k]))
  }

  /** Size of a listing without entries, the status word not counted. */
  function Base(attributes: Option<FileAttributes>): nat {
    (if attributes.None? then 4 else 88) + 8 + 8
  }

  /** Directory attributes are given up before the reply is. */
  function Kept(attributes: Option<FileAttributes>, wireLimit: nat): Option<FileAttributes> {
    if Base(attributes) > wireLimit then None else attributes
  }

  /** The first `k` entries may be sent: they encode and meet both limits. A listing
      without entries is not held to the directory limit. */
  ghost predicate Accepts(plus: bool, page: Page, base: nat, directoryLimit: Option<nat>, wireLimit: nat, k: nat) {
    && k <= |page.entries|
    && (k > 0 ==>
        && Sent(false, page, k).Bytes?
        && Sent(plus, page, k).Bytes?
        && (directoryLimit.Some? ==> Size(Sent(false, page, k)) + 4 <= directoryLimit.value)
        && base + Size(Sent(plus, page, k)) <= wireLimit)
  }

  ghost predicate Longest(plus: bool, page: Page, base: nat, directoryLimit: Option<nat>, wireLimit: nat, k: nat) {
    && k <= |page.entries|
    && Accepts(plus, page, base, directoryLimit, wireLimit, k)
    && forall j :: k < j ==> !Accepts(plus, page, base, directoryLimit, wireLimit, j)
  }

  /** The error, if any, that entry `k` raises when it is the first one not accepted. */
  function Obstacle(plus: bool, page: Page, directoryLimit: Option<nat>, k: nat): Option<EncodeError>
    requires k < |page.entries|
  {
    var d := page.entries[k];
    var basic := EntryBytes(BasicEntry(d));
    var typed := EntryBytes(TypedEntry(plus, d));
    if basic.Failed? then Some(basic.error)
    else if directoryLimit.Some? && Size(Sent(false, page, k)) + Size(basic) + 4 > directoryLimit.value then None
    else if typed.Failed? then Some(typed.error)
    else None
  }

  datatype Choice = Chosen(result: ReadDirResult) | ChoiceFailed(error: EncodeError)

  /** The reply for a page of which the first `k` entries are accepted. */
  function ChoiceAt(plus: bool, attributes: Option<FileAttributes>, page: Page, directoryLimit: Option<nat>,
                    wireLimit: nat, k: nat): Choice
    requires k <= |page.entries|
  {
    if k < |page.entries| && Obstacle(plus, page, directoryLimit, k).Some?
    then ChoiceFailed(Obstacle(plus, page, directoryLimit, k).value)
    else if k == 0 < |page.entries| then Chosen(ListingError(TOO_SMALL, attributes))
    else Chosen(Listing(Kept(attributes, wireLimit), page.verifier, TypedEntries(plus, page.entries[..k]),
                        page.eof && k == |page.entries|))
  }

  /** What a READDIR or READDIRPLUS reply must be. */
  ghost predicate IsChoice(plus: bool, attributes: Option<FileAttributes>, page: Page, directoryLimit: Option<nat>,
                           wireLimit: nat, c: Choice) {
    var base := Base(Kept(attributes, wireLimit));
    if PostAttributes(attributes).Failed? then c == ChoiceFailed(PostAttributes(attributes).error)
    else if base > wireLimit then c == Chosen(ListingError(TOO_SMALL, attributes))
    else exists k: nat ::
      && Longest(plus, page, base, directoryLimit, wireLimit, k)
      && c == ChoiceAt(plus, attributes, page, directoryLimit, wireLimit, k)
  }

  // ----------------------------------------------------------------- growing a prefix

  lemma SentStep(plus: bool, page: Page, k: nat)
    requires k < |page.entries|
    ensures Sent(plus, page, k + 1) == Then(Sent(plus, page, k), EntryBytes(TypedEntry(plus, page.entries[k])))
  {
    hide EntryBytes;
    var longer := TypedEntries(plus, page.entries[..k + 1]);
    assert longer[..k] == TypedEntries(plus, page.entries[..k]);
  }

  lemma AcceptsShorter(plus: bool, page: Page, base: nat, directoryLimit: Option<nat>, wireLimit: nat, k: nat)
    requires Accepts(plus, page, base, directoryLimit, wireLimit, k + 1)
    ensures Accepts(plus, page, base, directoryLimit, wireLimit, k)
  {
    hide Sent, EntryBytes;
    SentStep(plus, page, k);
    SentStep(false, page, k);
  }

  lemma {:induction false} RefusesLonger(plus: bool, page: Page, base: nat, directoryLimit: Option<nat>,
                                         wireLimit: nat, k: nat, j: nat)
    requires k <= j && !Accepts(plus, page, base, directoryLimit, wireLimit, k)
    ensures !Accepts(plus, page, base, directoryLimit, wireLimit, j)
    decreases j
  {
    hide Accepts;
    if k >= j {
    } else {
      RefusesLonger(plus, page, base, directoryLimit, wireLimit, k, j - 1);
      if Accepts(plus, page, base, directoryLimit, wireLimit, j) {
        AcceptsShorter(plus, page, base, directoryLimit, wireLimit, j - 1);
      }
    }
  }

  /** The prefix at which the selection stops is the longest accepted one. */
  lemma StopsAtLongest(plus: bool, page: Page, base: nat, directoryLimit: Option<nat>, wireLimit: nat, k: nat)
    requires k <= |page.entries| && Accepts(plus, page, base, directoryLimit, wireLimit, k)
    requires !Accepts(plus, page, base, directoryLimit, wireLimit, k + 1)
    ensures Longest(plus, page, base, directoryLimit, wireLimit, k)
  {
    hide Accepts;
    forall j | k < j
      ensures !Accepts(plus, page, base, directoryLimit, wireLimit, j)
    {
      RefusesLonger(plus, page, base, directoryLimit, wireLimit, k + 1, j);
    }
  }

  /** Size and encodability of the empty listing. */
  lemma EmptyListing(attributes: Option<FileAttributes>, verifier: Verifier)
    ensures var r := ReadDirBytes(Listing(attributes, verifier, [], false));
            if PostAttributes(attributes).Failed? then r == Failed(PostAttributes(attributes).error)
            else r.Bytes? && |r.bytes| == 4 + Base(attributes)
  {
    hide PostAttributes;
    if PostAttributes(attributes).Bytes? {
      ListingSize(attributes, verifier, [], false);
    }
  }

  // --------------------------------------------------------------------- the selection

  /** Encodes the listing without entries, first with the directory attributes and, if
      that alone is too large, without them. */
  method EmptySize(attributes: Option<FileAttributes>, verifier: Verifier, wireLimit: nat)
    returns (r: Outcome, kept: Option<FileAttributes>, base: nat)
    ensures PostAttributes(attributes).Failed? ==> r == Fail(PostAttributes(attributes).error)
    ensures PostAttributes(attributes).Bytes? ==>
              r.Pass? && kept == Kept(attributes, wireLimit) && base == Base(kept)
  {
    hide ReadDirBytes;
    kept, base := attributes, 0;
    EmptyListing(attributes, verifier);
    var empty := new Encoder();
    r := EncodeReadDir(empty, Listing(attributes, verifier, [], false));
    if r.Fail? {
      return;
    }
    base := SaturatingSub(|empty.output|, 4);
    if base > wireLimit {
      kept := None;
      EmptyListing(None, verifier);
      empty := new Encoder();
      r := EncodeReadDir(empty, Listing(None, verifier, [], false));
      assert r.Pass?;
      base := SaturatingSub(|empty.output|, 4);
    }
  }

  datatype Step = Take(size: nat, directorySize: nat) | Stop | Broken(error: EncodeError)

  /** One turn of the loop: is the next entry taken? */
  method Consider(plus: bool, d: DirectoryEntry, base: nat, directoryLimit: Option<nat>, wireLimit: nat,
                  encodedEntries: nat, directoryBytes: nat) returns (step: Step)
    ensures var basic, typed := EntryBytes(BasicEntry(d)), EntryBytes(TypedEntry(plus, d));
            var overDirectory :=
              basic.Bytes? && directoryLimit.Some? && directoryBytes + Size(basic) + 4 > directoryLimit.value;
            match step
            case Broken(error) => basic == Failed(error) || (basic.Bytes? && !overDirectory && typed == Failed(error))
            case Stop =>
              overDirectory || (basic.Bytes? && typed.Bytes? && base + encodedEntries + Size(typed) > wireLimit)
            case Take(size, directorySize) =>
              && basic.Bytes? && typed.Bytes? && !overDirectory
              && size == Size(typed) && directorySize == Size(basic)
              && base + encodedEntries + size <= wireLimit
  {
    hide EntryBytes;
    var directoryPart := new Encoder();
    var outcome := EncodeEntry(directoryPart, BasicEntry(d));
    if outcome.Fail? {
      return Broken(outcome.error);
    }
    if directoryLimit.Some? && directoryBytes + |directoryPart.output| + 4 > directoryLimit.value {
      return Stop;
    }
    var encoded := new Encoder();
    outcome := EncodeEntry(encoded, TypedEntry(plus, d));
    if outcome.Fail? {
      return Broken(outcome.error);
    }
    if base + encodedEntries + |encoded.output| > wireLimit {
      return Stop;
    }
    return Take(|encoded.output|, |directoryPart.output|);
  }

  /** A step that takes nothing ends the selection at `k`, and says why. */
  lemma StopIsJustified(plus: bool, page: Page, base: nat, directoryLimit: Option<nat>, wireLimit: nat, k: nat)
    requires k < |page.entries| && Accepts(plus, page, base, directoryLimit, wireLimit, k)
    requires Sent(plus, page, k).Bytes? && Sent(false, page, k).Bytes?
    ensures var basic, typed := EntryBytes(BasicEntry(page.entries[k])), EntryBytes(TypedEntry(plus, page.entries[k]));
            && (Accepts(plus, page, base, directoryLimit, wireLimit, k + 1) <==>
                && basic.Bytes? && typed.Bytes?
                && (directoryLimit.Some? ==> Size(Sent(false, page, k)) + Size(basic) + 4 <= directoryLimit.value)
                && base + Size(Sent(plus, page, k)) + Size(typed) <= wireLimit)
            && (basic.Bytes? ==> Sent(false, page, k + 1).Bytes?
                                 && Size(Sent(false, page, k + 1)) == Size(Sent(false, page, k)) + Size(basic))
            && (typed.Bytes? ==> Sent(plus, page, k + 1).Bytes?
                                 && Size(Sent(plus, page, k + 1)) == Size(Sent(plus, page, k)) + Size(typed))
  {
    hide Sent, EntryBytes;
    SentStep(plus, page, k);
    SentStep(false, page, k);
  }

  method Select(plus: bool, attributes: Option<FileAttributes>, page: Page, directoryLimit: Option<nat>,
                wireLimit: nat) returns (c: Choice)
    ensures IsChoice(plus, attributes, page, directoryLimit, wireLimit, c)
  {
    hide PostAttributes, EntryBytes, Sent, Accepts;
    var outcome, kept, base := EmptySize(attributes, page.verifier, wireLimit);
    if outcome.Fail? {
      return ChoiceFailed(outcome.error);
    }
    if base > wireLimit {
      return Chosen(ListingError(TOO_SMALL, attributes));
    }
    EmptyPrefix(plus, page, base, directoryLimit, wireLimit);
    var n := |page.entries|;
    var entries: seq<Entry> := [];
    var encodedEntries, directoryBytes := 0, 0;
    var truncated := false;
    var i := 0;
    while i < n && !truncated
      invariant 0 <= i <= n
      invariant entries == TypedEntries(plus, page.entries[..i])
      invariant Accepts(plus, page, base, directoryLimit, wireLimit, i)
      invariant Sent(plus, page, i).Bytes? && encodedEntries == Size(Sent(plus, page, i))
      invariant Sent(false, page, i).Bytes?
      invariant !truncated ==> directoryBytes == Size(Sent(false, page, i))
      invariant truncated ==>
                  && i < n
                  && Longest(plus, page, base, directoryLimit, wireLimit, i)
                  && Obstacle(plus, page, directoryLimit, i).None?
      decreases n - i, !truncated
    {
      StopIsJustified(plus, page, base, directoryLimit, wireLimit, i);
      var step := Consider(plus, page.entries[i], base, directoryLimit, wireLimit, encodedEntries, directoryBytes);
      if !step.Take? {
        StopsAtLongest(plus, page, base, directoryLimit, wireLimit, i);
      }
      match step {
        case Broken(error) =>
          c := ChoiceFailed(error);
          assert c == ChoiceAt(plus, attributes, page, directoryLimit, wireLimit, i);
          return;
        case Stop =>
          truncated := true;
        case Take(size, directorySize) =>
          directoryBytes := directoryBytes + directorySize;
          encodedEntries := encodedEntries + size;
          entries := entries + [TypedEntry(plus, page.entries[i])];
          assert page.entries[..i + 1] == page.entries[..i] + [page.entries[i]];
          i := i + 1;
      }
    }
    if !truncated {
      WholePage(plus, page, base, directoryLimit, wireLimit);
      assert page.entries[..n] == page.entries;
    }
    if n > 0 && truncated && entries == [] {
      c := Chosen(ListingError(TOO_SMALL, attributes));
    } else {
      c := Chosen(Listing(kept, page.verifier, entries, page.eof && !truncated));
    }
    assert c == ChoiceAt(plus, attributes, page, directoryLimit, wireLimit, i);
  }

  lemma EmptyPrefix(plus: bool, page: Page, base: nat, directoryLimit: Option<nat>, wireLimit: nat)
    ensures Accepts(plus, page, base, directoryLimit, wireLimit, 0)
    ensures Sent(plus, page, 0) == Bytes([]) && Sent(false, page, 0) == Bytes([])
    ensures TypedEntries(plus, page.entries[..0]) == []
  {
  }

  lemma WholePage(plus: bool, page: Page, base: nat, directoryLimit: Option<nat>, wireLimit: nat)
    requires Accepts(plus, page, base, directoryLimit, wireLimit, |page.entries|)
    ensures Longest(plus, page, base, directoryLimit, wireLimit, |page.entries|)
  {
    hide Sent;
  }
}
