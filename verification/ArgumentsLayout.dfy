/** Where the fields of each call stand on the wire: the argument structures of RFC 1813 as
    plain lists of XDR items, and the proof that they are what the decoder accepts. */
module ArgumentsLayout {
  import opened Sequences
  import opened BigEndian
  import opened Xdr
  import opened XdrItems
  import opened Arguments
  import opened ArgumentsCanonical

  // ------------------------------------------------------------------------- structures

  function Flag(present: bool): Item {
    Word(if present then 1 else 0)
  }

  /** nfstime3. */
  function TimeItems(t: NfsTime): seq<Item>
    requires TimeFits(t)
  {
    [Word(t.seconds), Word(t.nanoseconds)]
  }

  /** set_atime and set_mtime: DONT_CHANGE, SET_TO_SERVER_TIME, SET_TO_CLIENT_TIME. */
  function SetTimeItems(t: Option<SetTime>): seq<Item>
    requires SetTimeFits(t)
  {
    match t
    case None => [Word(0)]
    case Some(ServerTime) => [Word(1)]
    case Some(ClientTime(time)) => [Word(2)] + TimeItems(time)
  }

  function Optional32(v: Option<u32>): seq<Item> {
    [Flag(v.Some?)] + if v.Some? then [Word(v.value)] else []
  }

  function SizeItems(size: Option<u64>): seq<Item> {
    [Flag(size.Some?)] + if size.Some? then [Hyper(size.value)] else []
  }

  /** sattr3. */
  function AttributeItems(a: SetAttributes): seq<Item>
    requires AttributesFit(a)
  {
    Optional32(a.mode) + Optional32(a.uid) + Optional32(a.gid) + SizeItems(a.size)
    + SetTimeItems(a.accessTime) + SetTimeItems(a.modifyTime)
  }

  /** diropargs3. */
  function TargetItems(t: DirectoryOperation): seq<Item> {
    [Counted(t.directory), Counted(t.name)]
  }

  function GuardItems(g: Option<NfsTime>): seq<Item>
    requires g.Some? ==> TimeFits(g.value)
  {
    [Flag(g.Some?)] + if g.Some? then TimeItems(g.value) else []
  }

  /** createhow3: UNCHECKED, GUARDED, EXCLUSIVE. */
  function HowItems(mode: CreateMode, a: SetAttributes): seq<Item>
    requires AttributesFit(a)
  {
    match mode
    case Unchecked => [Word(0)] + AttributeItems(a)
    case Guarded => [Word(1)] + AttributeItems(a)
    case Exclusive(verifier) => [Word(2), Plain(verifier)]
  }

  /** mknoddata3: NF3BLK, NF3CHR, NF3SOCK, NF3FIFO. */
  function NodeItems(n: NodeType, a: SetAttributes): seq<Item>
    requires AttributesFit(a)
  {
    match n
    case BlockDevice(major, minor) => [Word(3)] + AttributeItems(a) + [Word(major), Word(minor)]
    case CharacterDevice(major, minor) => [Word(4)] + AttributeItems(a) + [Word(major), Word(minor)]
    case Socket => [Word(6)] + AttributeItems(a)
    case Fifo => [Word(7)] + AttributeItems(a)
  }

  function StableWord(s: Stability): Item {
    Word(match s case Unstable => 0 case DataSync => 1 case FileSync => 2)
  }

  /** The arguments of each procedure, sections 3.3.0 to 3.3.21 of RFC 1813. */
  function Layout(a: NfsArguments, limit: nat): seq<Item>
    requires Fits(a, limit)
  {
    match a
    case Null => []
    case GetAttr(h) => [Counted(h)]
    case SetAttr(h, attributes, guard) => [Counted(h)] + AttributeItems(attributes) + GuardItems(guard)
    case Lookup(t) => TargetItems(t)
    case Access(h, requested) => [Counted(h), Word(requested)]
    case ReadLink(h) => [Counted(h)]
    case Read(h, offset, count) => [Counted(h), Hyper(offset), Word(count)]
    case Write(w) =>
      [Counted(w.handle), Hyper(w.offset), Word(w.count), StableWord(w.requested), Counted(w.data)]
    case Create(t, mode, attributes) => TargetItems(t) + HowItems(mode, attributes)
    case Mkdir(t, attributes) => TargetItems(t) + AttributeItems(attributes)
    case Symlink(t, attributes, path) => TargetItems(t) + AttributeItems(attributes) + [Counted(path)]
    case Mknod(t, node, attributes) => TargetItems(t) + NodeItems(node, attributes)
    case Remove(t) => TargetItems(t)
    case Rmdir(t) => TargetItems(t)
    case Rename(s, t) => TargetItems(s) + TargetItems(t)
    case Link(h, t) => [Counted(h)] + TargetItems(t)
    case ReadDir(h, cookie, verifier, count) => [Counted(h), Hyper(cookie), Plain(verifier), Word(count)]
    case ReadDirPlus(h, cookie, verifier, directoryCount, maxCount) =>
      [Counted(h), Hyper(cookie), Plain(verifier), Word(directoryCount), Word(maxCount)]
    case FsStat(h) => [Counted(h)]
    case FsInfo(h) => [Counted(h)]
    case PathConf(h) => [Counted(h)]
    case Commit(h, offset, count) => [Counted(h), Hyper(offset), Word(count)]
  }

  // ------------------------------------------------------------------------ each structure

  lemma TimeLayout(t: NfsTime, rest: seq<byte>)
    requires TimeFits(t)
    ensures AllFit(TimeItems(t)) && Before(TimeItems(t), rest) == PutTime(t, rest)
  {
    hide Before, PutU32;
    Two(Word(t.seconds), Word(t.nanoseconds), rest);
  }

  lemma SetTimeLayout(t: Option<SetTime>, rest: seq<byte>)
    requires SetTimeFits(t)
    ensures AllFit(SetTimeItems(t)) && Before(SetTimeItems(t), rest) == PutSetTime(t, rest)
  {
    hide Before, PutU32, AllFit, TimeItems, PutTime;
    match t
    case None => One(Word(0), rest);
    case Some(ServerTime) => One(Word(1), rest);
    case Some(ClientTime(time)) =>
      TimeLayout(time, rest);
      One(Word(2), PutTime(time, rest));
      Join([Word(2)], TimeItems(time), rest);
  }

  lemma OptionalLayout(v: Option<u32>, rest: seq<byte>)
    ensures AllFit(Optional32(v)) && Before(Optional32(v), rest) == PutOption32(v, rest)
  {
    hide Before, PutU32, AllFit;
    if v.Some? {
      Two(Flag(true), Word(v.value), rest);
      assert Optional32(v) == [Flag(true), Word(v.value)];
    } else {
      One(Flag(false), rest);
      assert Optional32(v) == [Flag(false)];
    }
  }

  lemma SizeLayout(v: Option<u64>, rest: seq<byte>)
    ensures AllFit(SizeItems(v)) && Before(SizeItems(v), rest) == PutOption64(v, rest)
  {
    hide Before, PutU32, PutU64, AllFit;
    if v.Some? {
      Two(Flag(true), Hyper(v.value), rest);
      assert SizeItems(v) == [Flag(true), Hyper(v.value)];
    } else {
      One(Flag(false), rest);
      assert SizeItems(v) == [Flag(false)];
    }
  }

  lemma AttributeLayout(a: SetAttributes, rest: seq<byte>)
    requires AttributesFit(a)
    ensures AllFit(AttributeItems(a)) && Before(AttributeItems(a), rest) == PutAttributes(a, rest)
  {
    hide Before, AllFit, Optional32, SizeItems, SetTimeItems, PutOption32, PutOption64, PutSetTime;
    var s5 := PutSetTime(a.modifyTime, rest);
    var s4 := PutSetTime(a.accessTime, s5);
    var s3 := PutOption64(a.size, s4);
    var s2 := PutOption32(a.gid, s3);
    var s1 := PutOption32(a.uid, s2);
    SetTimeLayout(a.modifyTime, rest);
    SetTimeLayout(a.accessTime, s5);
    SizeLayout(a.size, s4);
    OptionalLayout(a.gid, s3);
    OptionalLayout(a.uid, s2);
    OptionalLayout(a.mode, s1);
    var times := SetTimeItems(a.accessTime) + SetTimeItems(a.modifyTime);
    Join(SetTimeItems(a.accessTime), SetTimeItems(a.modifyTime), rest);
    Join(SizeItems(a.size), times, rest);
    Join(Optional32(a.gid), SizeItems(a.size) + times, rest);
    Join(Optional32(a.uid), Optional32(a.gid) + (SizeItems(a.size) + times), rest);
    Join(Optional32(a.mode), Optional32(a.uid) + (Optional32(a.gid) + (SizeItems(a.size) + times)), rest);
    assert AttributeItems(a) == Optional32(a.mode) + Optional32(a.uid) + Optional32(a.gid) + SizeItems(a.size)
                                + SetTimeItems(a.accessTime) + SetTimeItems(a.modifyTime);
    assert AttributeItems(a) == Optional32(a.mode) + (Optional32(a.uid) + (Optional32(a.gid) + (SizeItems(a.size) + times)));
  }

  lemma TargetLayout(t: DirectoryOperation, rest: seq<byte>)
    requires TargetFits(t)
    ensures AllFit(TargetItems(t)) && Before(TargetItems(t), rest) == PutTarget(t, rest)
  {
    hide Before, PutOpaque;
    Two(Counted(t.directory), Counted(t.name), rest);
  }

  lemma GuardLayout(g: Option<NfsTime>, rest: seq<byte>)
    requires g.Some? ==> TimeFits(g.value)
    ensures AllFit(GuardItems(g)) && Before(GuardItems(g), rest) == PutGuard(g, rest)
  {
    hide Before, PutU32, AllFit, TimeItems, PutTime;
    if g.Some? {
      TimeLayout(g.value, rest);
      One(Flag(true), PutTime(g.value, rest));
      Join([Flag(true)], TimeItems(g.value), rest);
    } else {
      One(Flag(false), rest);
      assert GuardItems(g) == [Flag(false)];
    }
  }

  lemma HowLayout(mode: CreateMode, a: SetAttributes, rest: seq<byte>)
    requires AttributesFit(a)
    ensures AllFit(HowItems(mode, a)) && Before(HowItems(mode, a), rest) == PutHow(mode, a, rest)
  {
    hide Before, PutU32, AllFit, AttributeItems, PutAttributes;
    AttributeLayout(a, rest);
    match mode
    case Unchecked => Led(0, a, rest);
    case Guarded => Led(1, a, rest);
    case Exclusive(verifier) => Two(Word(2), Plain(verifier), rest);
  }

  /** A discriminant in front of attributes. */
  lemma Led(kind: u32, a: SetAttributes, rest: seq<byte>)
    requires AttributesFit(a)
    ensures AllFit([Word(kind)] + AttributeItems(a))
    ensures Before([Word(kind)] + AttributeItems(a), rest) == PutU32(kind, PutAttributes(a, rest))
  {
    hide Before, PutU32, AllFit, AttributeItems, PutAttributes;
    AttributeLayout(a, rest);
    One(Word(kind), PutAttributes(a, rest));
    Join([Word(kind)], AttributeItems(a), rest);
  }

  lemma NodeLayout(n: NodeType, a: SetAttributes, rest: seq<byte>)
    requires AttributesFit(a)
    ensures AllFit(NodeItems(n, a)) && Before(NodeItems(n, a), rest) == PutNode(n, a, rest)
  {
    hide Before, PutU32, AllFit, AttributeItems, PutAttributes;
    match n
    case BlockDevice(major, minor) =>
      Two(Word(major), Word(minor), rest);
      Led(3, a, PutU32(major, PutU32(minor, rest)));
      Join([Word(3)] + AttributeItems(a), [Word(major), Word(minor)], rest);
    case CharacterDevice(major, minor) =>
      Two(Word(major), Word(minor), rest);
      Led(4, a, PutU32(major, PutU32(minor, rest)));
      Join([Word(4)] + AttributeItems(a), [Word(major), Word(minor)], rest);
    case Socket => Led(6, a, rest);
    case Fifo => Led(7, a, rest);
  }

  lemma HandleLed(h: Handle, items: seq<Item>, rest: seq<byte>, tail: seq<byte>)
    requires |h| <= MAX_HANDLE && AllFit(items) && Before(items, rest) == tail
    ensures AllFit([Counted(h)] + items) && Before([Counted(h)] + items, rest) == PutOpaque(h, tail)
  {
    hide Before, PutOpaque, AllFit;
    One(Counted(h), tail);
    Join([Counted(h)], items, rest);
  }

  lemma TargetLed(t: DirectoryOperation, items: seq<Item>, rest: seq<byte>, tail: seq<byte>)
    requires TargetFits(t) && AllFit(items) && Before(items, rest) == tail
    ensures AllFit(TargetItems(t) + items) && Before(TargetItems(t) + items, rest) == PutTarget(t, tail)
  {
    hide Before, PutTarget, AllFit, TargetItems;
    TargetLayout(t, tail);
    Join(TargetItems(t), items, rest);
  }

  // --------------------------------------------------------------------- all procedures

  /** Procedures whose arguments are a handle and plain fields. */
  lemma PlainLayout(a: NfsArguments, limit: nat, rest: seq<byte>)
    requires Fits(a, limit)
    requires a.Null? || a.GetAttr? || a.Access? || a.ReadLink? || a.Read? || a.FsStat? || a.FsInfo? || a.PathConf? || a.Commit?
    ensures AllFit(Layout(a, limit)) && Before(Layout(a, limit), rest) == Put(a, limit, rest)
  {
    hide Before, PutOpaque, PutU32, PutU64, AllFit;
    match a
    case Null => NothingInFront(rest);
    case GetAttr(h) => One(Counted(h), rest);
    case Access(h, requested) => Two(Counted(h), Word(requested), rest);
    case ReadLink(h) => One(Counted(h), rest);
    case Read(h, offset, count) => Three(Counted(h), Hyper(offset), Word(count), rest);
    case FsStat(h) => One(Counted(h), rest);
    case FsInfo(h) => One(Counted(h), rest);
    case PathConf(h) => One(Counted(h), rest);
    case Commit(h, offset, count) => Three(Counted(h), Hyper(offset), Word(count), rest);
    case _ =>
  }

  lemma WriteLayout(w: WriteArgs, limit: nat, rest: seq<byte>)
    requires WriteFits(w, limit)
    ensures AllFit(Layout(Write(w), limit)) && Before(Layout(Write(w), limit), rest) == PutWrite(w, rest)
  {
    hide Before, PutOpaque, PutU32, PutU64, AllFit;
    var tail := PutStability(w.requested, PutOpaque(w.data, rest));
    Two(StableWord(w.requested), Counted(w.data), rest);
    Three(Counted(w.handle), Hyper(w.offset), Word(w.count), tail);
    Join([Counted(w.handle), Hyper(w.offset), Word(w.count)], [StableWord(w.requested), Counted(w.data)], rest);
    assert [Counted(w.handle), Hyper(w.offset), Word(w.count)] + [StableWord(w.requested), Counted(w.data)]
        == Layout(Write(w), limit);
  }

  lemma ReadDirLayout(a: NfsArguments, limit: nat, rest: seq<byte>)
    requires Fits(a, limit) && (a.ReadDir? || a.ReadDirPlus?)
    ensures AllFit(Layout(a, limit)) && Before(Layout(a, limit), rest) == Put(a, limit, rest)
  {
    hide Before, PutOpaque, PutU32, PutU64, AllFit;
    match a
    case ReadDir(h, cookie, verifier, count) =>
      One(Word(count), rest);
      Three(Counted(h), Hyper(cookie), Plain(verifier), PutU32(count, rest));
      Join([Counted(h), Hyper(cookie), Plain(verifier)], [Word(count)], rest);
      assert [Counted(h), Hyper(cookie), Plain(verifier)] + [Word(count)] == Layout(a, limit);
    case ReadDirPlus(h, cookie, verifier, directoryCount, maxCount) =>
      Two(Word(directoryCount), Word(maxCount), rest);
      Three(Counted(h), Hyper(cookie), Plain(verifier), PutU32(directoryCount, PutU32(maxCount, rest)));
      Join([Counted(h), Hyper(cookie), Plain(verifier)], [Word(directoryCount), Word(maxCount)], rest);
      assert [Counted(h), Hyper(cookie), Plain(verifier)] + [Word(directoryCount), Word(maxCount)] == Layout(a, limit);
    case _ =>
  }

  lemma NamedLayout(a: NfsArguments, limit: nat, rest: seq<byte>)
    requires Fits(a, limit)
    requires a.Lookup? || a.Create? || a.Mkdir? || a.Symlink? || a.Mknod? || a.Remove? || a.Rmdir? || a.Rename?
    ensures AllFit(Layout(a, limit)) && Before(Layout(a, limit), rest) == Put(a, limit, rest)
  {
    hide Before, AllFit, PutTarget, TargetItems, PutHow, HowItems, PutAttributes, AttributeItems, PutNode, NodeItems, PutOpaque;
    match a
    case Lookup(t) => TargetLayout(t, rest);
    case Create(t, mode, attributes) =>
      HowLayout(mode, attributes, rest);
      TargetLed(t, HowItems(mode, attributes), rest, PutHow(mode, attributes, rest));
    case Mkdir(t, attributes) =>
      AttributeLayout(attributes, rest);
      TargetLed(t, AttributeItems(attributes), rest, PutAttributes(attributes, rest));
    case Symlink(t, attributes, path) =>
      One(Counted(path), rest);
      AttributeLayout(attributes, PutOpaque(path, rest));
      Join(AttributeItems(attributes), [Counted(path)], rest);
      TargetLed(t, AttributeItems(attributes) + [Counted(path)], rest, PutAttributes(attributes, PutOpaque(path, rest)));
      assert TargetItems(t) + (AttributeItems(attributes) + [Counted(path)]) == Layout(a, limit);
    case Mknod(t, node, attributes) =>
      NodeLayout(node, attributes, rest);
      TargetLed(t, NodeItems(node, attributes), rest, PutNode(node, attributes, rest));
    case Remove(t) => TargetLayout(t, rest);
    case Rmdir(t) => TargetLayout(t, rest);
    case Rename(s, t) =>
      TargetLayout(t, rest);
      TargetLed(s, TargetItems(t), rest, PutTarget(t, rest));
    case _ =>
  }

  lemma PutIsLayout(a: NfsArguments, limit: nat, rest: seq<byte>)
    requires Fits(a, limit)
    ensures AllFit(Layout(a, limit)) && Before(Layout(a, limit), rest) == Put(a, limit, rest)
  {
    hide Before, AllFit, PutTarget, TargetItems, PutAttributes, AttributeItems, PutGuard, GuardItems, PutOpaque, PutWrite;
    match a
    case SetAttr(h, attributes, guard) =>
      GuardLayout(guard, rest);
      AttributeLayout(attributes, PutGuard(guard, rest));
      Join(AttributeItems(attributes), GuardItems(guard), rest);
      HandleLed(h, AttributeItems(attributes) + GuardItems(guard), rest, PutAttributes(attributes, PutGuard(guard, rest)));
      assert [Counted(h)] + (AttributeItems(attributes) + GuardItems(guard)) == Layout(a, limit);
    case Link(h, t) =>
      TargetLayout(t, rest);
      HandleLed(h, TargetItems(t), rest, PutTarget(t, rest));
    case Write(w) => WriteLayout(w, limit, rest);
    case ReadDir(_, _, _, _) => ReadDirLayout(a, limit, rest);
    case ReadDirPlus(_, _, _, _, _) => ReadDirLayout(a, limit, rest);
    case _ =>
      if a.Null? || a.GetAttr? || a.Access? || a.ReadLink? || a.Read? || a.FsStat? || a.FsInfo? || a.PathConf? || a.Commit? {
        PlainLayout(a, limit, rest);
      } else {
        NamedLayout(a, limit, rest);
      }
  }

  /** The decoder accepts a call exactly when its bytes are the fields of that procedure's
      structure in the order and form of RFC 1813, within the field limits, and nothing
      else. */
  lemma DecodeFollowsLayout(input: seq<byte>, limit: nat, a: NfsArguments)
    ensures Decode(Procedure(a), input, limit) == Ok(a) <==>
            Fits(a, limit) && AllFit(Layout(a, limit)) && input == Flat(Layout(a, limit))
  {
    hide Decode, Layout, Flat, AllFit, Fits;
    DecodeIsCanonical(Procedure(a), input, limit, a);
    if Fits(a, limit) {
      PutIsLayout(a, limit, []);
      assert Before(Layout(a, limit), []) == Flat(Layout(a, limit)) + [] == Flat(Layout(a, limit));
    }
  }
}
