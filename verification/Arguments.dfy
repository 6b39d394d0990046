/** The arguments of the 22 NFSv3 procedures (RFC 1813, src/nfs3/procedures/mod.rs):
    their XDR encoding, and the decoder as a function of the bytes. */
module Arguments {
  import opened Sequences
  import opened BigEndian
  import opened Xdr

  const MAX_HANDLE: nat := 64
  const MAX_NAME: nat := 1024
  const MAX_NANOSECONDS: nat := 999_999_999

  type Handle = seq<byte>

  datatype NfsTime = NfsTime(seconds: u64, nanoseconds: u32)
  datatype SetTime = ServerTime | ClientTime(time: NfsTime)
  datatype SetAttributes = SetAttributes(
    mode: Option<u32>, uid: Option<u32>, gid: Option<u32>, size: Option<u64>,
    accessTime: Option<SetTime>, modifyTime: Option<SetTime>)
  datatype DirectoryOperation = DirectoryOperation(directory: Handle, name: seq<byte>)
  datatype Stability = Unstable | DataSync | FileSync
  datatype CreateMode = Unchecked | Guarded | Exclusive(verifier: seq<byte>)
  datatype NodeType = BlockDevice(major: u32, minor: u32) | CharacterDevice(major: u32, minor: u32) | Socket | Fifo
  datatype WriteArgs = WriteArgs(handle: Handle, offset: u64, count: u32, requested: Stability, data: seq<byte>)

  datatype NfsArguments =
    | Null
    | GetAttr(handle: Handle)
    | SetAttr(handle: Handle, attributes: SetAttributes, guard: Option<NfsTime>)
    | Lookup(target: DirectoryOperation)
    | Access(handle: Handle, requested: u32)
    | ReadLink(handle: Handle)
    | Read(handle: Handle, offset: u64, count: u32)
    | Write(write: WriteArgs)
    | Create(target: DirectoryOperation, mode: CreateMode, attributes: SetAttributes)
    | Mkdir(target: DirectoryOperation, attributes: SetAttributes)
    | Symlink(target: DirectoryOperation, attributes: SetAttributes, path: seq<byte>)
    | Mknod(target: DirectoryOperation, nodeType: NodeType, attributes: SetAttributes)
    | Remove(target: DirectoryOperation)
    | Rmdir(target: DirectoryOperation)
    | Rename(source: DirectoryOperation, target: DirectoryOperation)
    | Link(handle: Handle, target: DirectoryOperation)
    | ReadDir(directory: Handle, cookie: u64, verifier: seq<byte>, count: u32)
    | ReadDirPlus(directory: Handle, cookie: u64, verifier: seq<byte>, directoryCount: u32, maxCount: u32)
    | FsStat(handle: Handle)
    | FsInfo(handle: Handle)
    | PathConf(handle: Handle)
    | Commit(handle: Handle, offset: u64, count: u32)

  const NO_ATTRIBUTES := SetAttributes(None, None, None, None, None, None)

  // ------------------------------------------------------------------- what fits the wire

  predicate TimeFits(t: NfsTime) {
    t.seconds < U32_BOUND && t.nanoseconds <= MAX_NANOSECONDS
  }

  predicate SetTimeFits(t: Option<SetTime>) {
    t.Some? && t.value.ClientTime? ==> TimeFits(t.value.time)
  }

  predicate AttributesFit(a: SetAttributes) {
    SetTimeFits(a.accessTime) && SetTimeFits(a.modifyTime)
  }

  predicate TargetFits(d: DirectoryOperation) {
    |d.directory| <= MAX_HANDLE && |d.name| <= MAX_NAME
  }

  predicate WriteFits(w: WriteArgs, limit: nat) {
    |w.handle| <= MAX_HANDLE && |w.data| <= limit && |w.data| < U32_BOUND
  }

  /** The field limits a decoded value obeys; `limit` bounds data and link targets. */
  predicate Fits(a: NfsArguments, limit: nat) {
    match a
    case Null => true
    case GetAttr(h) => |h| <= MAX_HANDLE
    case SetAttr(h, attributes, guard) => |h| <= MAX_HANDLE && AttributesFit(attributes) && (guard.Some? ==> TimeFits(guard.value))
    case Lookup(t) => TargetFits(t)
    case Access(h, _) => |h| <= MAX_HANDLE
    case ReadLink(h) => |h| <= MAX_HANDLE
    case Read(h, _, _) => |h| <= MAX_HANDLE
    case Write(w) => WriteFits(w, limit)
    case Create(t, mode, attributes) =>
      TargetFits(t) && AttributesFit(attributes) && (mode.Exclusive? ==> |mode.verifier| == 8 && attributes == NO_ATTRIBUTES)
    case Mkdir(t, attributes) => TargetFits(t) && AttributesFit(attributes)
    case Symlink(t, attributes, path) => TargetFits(t) && AttributesFit(attributes) && |path| <= limit && |path| < U32_BOUND
    case Mknod(t, _, attributes) => TargetFits(t) && AttributesFit(attributes)
    case Remove(t) => TargetFits(t)
    case Rmdir(t) => TargetFits(t)
    case Rename(s, t) => TargetFits(s) && TargetFits(t)
    case Link(h, t) => |h| <= MAX_HANDLE && TargetFits(t)
    case ReadDir(h, _, verifier, _) => |h| <= MAX_HANDLE && |verifier| == 8
    case ReadDirPlus(h, _, verifier, _, _) => |h| <= MAX_HANDLE && |verifier| == 8
    case FsStat(h) => |h| <= MAX_HANDLE
    case FsInfo(h) => |h| <= MAX_HANDLE
    case PathConf(h) => |h| <= MAX_HANDLE
    case Commit(h, _, _) => |h| <= MAX_HANDLE
  }

  function Procedure(a: NfsArguments): u32 {
    match a
    case Null => 0
    case GetAttr(_) => 1
    case SetAttr(_, _, _) => 2
    case Lookup(_) => 3
    case Access(_, _) => 4
    case ReadLink(_) => 5
    case Read(_, _, _) => 6
    case Write(_) => 7
    case Create(_, _, _) => 8
    case Mkdir(_, _) => 9
    case Symlink(_, _, _) => 10
    case Mknod(_, _, _) => 11
    case Remove(_) => 12
    case Rmdir(_) => 13
    case Rename(_, _) => 14
    case Link(_, _) => 15
    case ReadDir(_, _, _, _) => 16
    case ReadDirPlus(_, _, _, _, _) => 17
    case FsStat(_) => 18
    case FsInfo(_) => 19
    case PathConf(_) => 20
    case Commit(_, _, _) => 21
  }

  // ------------------------------------------------------------------------- encoding

  function PutTime(t: NfsTime, rest: seq<byte>): seq<byte>
    requires TimeFits(t)
  {
    PutU32(t.seconds, PutU32(t.nanoseconds, rest))
  }

  function PutOption32(v: Option<u32>, rest: seq<byte>): seq<byte> {
    if v.Some? then PutBool(true, PutU32(v.value, rest)) else PutBool(false, rest)
  }

  function PutOption64(v: Option<u64>, rest: seq<byte>): seq<byte> {
    if v.Some? then PutBool(true, PutU64(v.value, rest)) else PutBool(false, rest)
  }

  function PutGuard(v: Option<NfsTime>, rest: seq<byte>): seq<byte>
    requires v.Some? ==> TimeFits(v.value)
  {
    if v.Some? then PutBool(true, PutTime(v.value, rest)) else PutBool(false, rest)
  }

  function PutSetTime(t: Option<SetTime>, rest: seq<byte>): seq<byte>
    requires SetTimeFits(t)
  {
    match t
    case None => PutU32(0, rest)
    case Some(ServerTime) => PutU32(1, rest)
    case Some(ClientTime(time)) => PutU32(2, PutTime(time, rest))
  }

  function PutAttributes(a: SetAttributes, rest: seq<byte>): seq<byte>
    requires AttributesFit(a)
  {
    PutOption32(a.mode, PutOption32(a.uid, PutOption32(a.gid, PutOption64(a.size,
      PutSetTime(a.accessTime, PutSetTime(a.modifyTime, rest))))))
  }

  function PutTarget(d: DirectoryOperation, rest: seq<byte>): seq<byte>
    requires TargetFits(d)
  {
    PutOpaque(d.directory, PutOpaque(d.name, rest))
  }

  function PutStability(s: Stability, rest: seq<byte>): seq<byte> {
    PutU32(match s case Unstable => 0 case DataSync => 1 case FileSync => 2, rest)
  }

  function PutWrite(w: WriteArgs, rest: seq<byte>): seq<byte>
    requires |w.handle| <= MAX_HANDLE && |w.data| < U32_BOUND
  {
    PutOpaque(w.handle, PutU64(w.offset, PutU32(w.count, PutStability(w.requested, PutOpaque(w.data, rest)))))
  }

  function PutHow(mode: CreateMode, attributes: SetAttributes, rest: seq<byte>): seq<byte>
    requires AttributesFit(attributes)
  {
    match mode
    case Unchecked => PutU32(0, PutAttributes(attributes, rest))
    case Guarded => PutU32(1, PutAttributes(attributes, rest))
    case Exclusive(verifier) => PutU32(2, verifier + rest)
  }

  function PutNode(n: NodeType, attributes: SetAttributes, rest: seq<byte>): seq<byte>
    requires AttributesFit(attributes)
  {
    match n
    case BlockDevice(major, minor) => PutU32(3, PutAttributes(attributes, PutU32(major, PutU32(minor, rest))))
    case CharacterDevice(major, minor) => PutU32(4, PutAttributes(attributes, PutU32(major, PutU32(minor, rest))))
    case Socket => PutU32(6, PutAttributes(attributes, rest))
    case Fifo => PutU32(7, PutAttributes(attributes, rest))
  }

  /** The XDR encoding of the arguments, in front of `rest`. */
  function Put(a: NfsArguments, limit: nat, rest: seq<byte>): seq<byte>
    requires Fits(a, limit)
  {
    match a
    case Null => rest
    case GetAttr(h) => PutOpaque(h, rest)
    case SetAttr(h, attributes, guard) => PutOpaque(h, PutAttributes(attributes, PutGuard(guard, rest)))
    case Lookup(t) => PutTarget(t, rest)
    case Access(h, requested) => PutOpaque(h, PutU32(requested, rest))
    case ReadLink(h) => PutOpaque(h, rest)
    case Read(h, offset, count) => PutOpaque(h, PutU64(offset, PutU32(count, rest)))
    case Write(w) => PutWrite(w, rest)
    case Create(t, mode, attributes) => PutTarget(t, PutHow(mode, attributes, rest))
    case Mkdir(t, attributes) => PutTarget(t, PutAttributes(attributes, rest))
    case Symlink(t, attributes, path) => PutTarget(t, PutAttributes(attributes, PutOpaque(path, rest)))
    case Mknod(t, node, attributes) => PutTarget(t, PutNode(node, attributes, rest))
    case Remove(t) => PutTarget(t, rest)
    case Rmdir(t) => PutTarget(t, rest)
    case Rename(s, t) => PutTarget(s, PutTarget(t, rest))
    case Link(h, t) => PutOpaque(h, PutTarget(t, rest))
    case ReadDir(h, cookie, verifier, count) => PutOpaque(h, PutU64(cookie, verifier + PutU32(count, rest)))
    case ReadDirPlus(h, cookie, verifier, directoryCount, maxCount) =>
      PutOpaque(h, PutU64(cookie, verifier + PutU32(directoryCount, PutU32(maxCount, rest))))
    case FsStat(h) => PutOpaque(h, rest)
    case FsInfo(h) => PutOpaque(h, rest)
    case PathConf(h) => PutOpaque(h, rest)
    case Commit(h, offset, count) => PutOpaque(h, PutU64(offset, PutU32(count, rest)))
  }

  function Encode(a: NfsArguments, limit: nat): seq<byte>
    requires Fits(a, limit)
  {
    Put(a, limit, [])
  }

  // ------------------------------------------------------------------------- decoding

  function GetHandle(s: seq<byte>): Parsed<Handle> {
    GetOpaque(s, "NFS file handle", MAX_HANDLE)
  }

  function GetTime(s: seq<byte>): Parsed<NfsTime> {
    var (seconds, s1) :- GetU32(s);
    var (nanoseconds, s2) :- GetU32(s1);
    if nanoseconds > MAX_NANOSECONDS then Err(InvalidDiscriminant("nanoseconds", nanoseconds))
    else Ok((NfsTime(seconds, nanoseconds), s2))
  }

  function GetOption32(s: seq<byte>): Parsed<Option<u32>> {
    var (present, s1) :- GetBool(s);
    if !present then Ok((None, s1))
    else
      var (v, s2) :- GetU32(s1);
      Ok((Some(v), s2))
  }

  function GetOption64(s: seq<byte>): Parsed<Option<u64>> {
    var (present, s1) :- GetBool(s);
    if !present then Ok((None, s1))
    else
      var (v, s2) :- GetU64(s1);
      Ok((Some(v), s2))
  }

  function GetGuard(s: seq<byte>): Parsed<Option<NfsTime>> {
    var (present, s1) :- GetBool(s);
    if !present then Ok((None, s1))
    else
      var (v, s2) :- GetTime(s1);
      Ok((Some(v), s2))
  }

  function GetSetTime(s: seq<byte>): Parsed<Option<SetTime>> {
    var (how, s1) :- GetU32(s);
    if how == 0 then Ok((None, s1))
    else if how == 1 then Ok((Some(ServerTime), s1))
    else if how == 2 then
      var (time, s2) :- GetTime(s1);
      Ok((Some(ClientTime(time)), s2))
    else Err(InvalidDiscriminant("set time", how))
  }

  function GetAttributes(s: seq<byte>): Parsed<SetAttributes> {
    var (mode, s1) :- GetOption32(s);
    var (uid, s2) :- GetOption32(s1);
    var (gid, s3) :- GetOption32(s2);
    var (size, s4) :- GetOption64(s3);
    var (accessTime, s5) :- GetSetTime(s4);
    var (modifyTime, s6) :- GetSetTime(s5);
    Ok((SetAttributes(mode, uid, gid, size, accessTime, modifyTime), s6))
  }

  function GetTarget(s: seq<byte>): Parsed<DirectoryOperation> {
    var (directory, s1) :- GetHandle(s);
    var (name, s2) :- GetOpaque(s1, "NFS filename", MAX_NAME);
    Ok((DirectoryOperation(directory, name), s2))
  }

  function GetStability(s: seq<byte>): Parsed<Stability> {
    var (n, s1) :- GetU32(s);
    if n == 0 then Ok((Unstable, s1))
    else if n == 1 then Ok((DataSync, s1))
    else if n == 2 then Ok((FileSync, s1))
    else Err(InvalidDiscriminant("write stability", n))
  }

  function GetWrite(s: seq<byte>, limit: nat): Parsed<WriteArgs> {
    var (handle, s1) :- GetHandle(s);
    var (offset, s2) :- GetU64(s1);
    var (count, s3) :- GetU32(s2);
    var (requested, s4) :- GetStability(s3);
    var (data, s5) :- GetOpaque(s4, "WRITE data", limit);
    Ok((WriteArgs(handle, offset, count, requested, data), s5))
  }

  function GetHow(s: seq<byte>): Parsed<(CreateMode, SetAttributes)> {
    var (n, s1) :- GetU32(s);
    if n == 0 || n == 1 then
      var (attributes, s2) :- GetAttributes(s1);
      Ok(((if n == 0 then Unchecked else Guarded, attributes), s2))
    else if n == 2 then
      var (verifier, s2) :- GetFixed(s1, 8);
      Ok(((Exclusive(verifier), NO_ATTRIBUTES), s2))
    else Err(InvalidDiscriminant("CREATE mode", n))
  }

  function GetNode(s: seq<byte>): Parsed<(NodeType, SetAttributes)> {
    var (kind, s1) :- GetU32(s);
    var (attributes, s2) :- GetAttributes(s1);
    if kind == 3 || kind == 4 then
      var (major, s3) :- GetU32(s2);
      var (minor, s4) :- GetU32(s3);
      Ok(((if kind == 3 then BlockDevice(major, minor) else CharacterDevice(major, minor), attributes), s4))
    else if kind == 6 then Ok(((Socket, attributes), s2))
    else if kind == 7 then Ok(((Fifo, attributes), s2))
    else Err(InvalidDiscriminant("MKNOD type", kind))
  }

  /** One procedure's arguments off the front of `s`. */
  function Get(procedure: u32, s: seq<byte>, limit: nat): Parsed<NfsArguments> {
    match procedure
    case 0 => Ok((Null, s))
    case 1 =>
      var (h, s1) :- GetHandle(s);
      Ok((GetAttr(h), s1))
    case 2 =>
      var (h, s1) :- GetHandle(s);
      var (attributes, s2) :- GetAttributes(s1);
      var (guard, s3) :- GetGuard(s2);
      Ok((SetAttr(h, attributes, guard), s3))
    case 3 =>
      var (t, s1) :- GetTarget(s);
      Ok((Lookup(t), s1))
    case 4 =>
      var (h, s1) :- GetHandle(s);
      var (requested, s2) :- GetU32(s1);
      Ok((Access(h, requested), s2))
    case 5 =>
      var (h, s1) :- GetHandle(s);
      Ok((ReadLink(h), s1))
    case 6 =>
      var (h, s1) :- GetHandle(s);
      var (offset, s2) :- GetU64(s1);
      var (count, s3) :- GetU32(s2);
      Ok((Read(h, offset, count), s3))
    case 7 =>
      var (w, s1) :- GetWrite(s, limit);
      Ok((Write(w), s1))
    case 8 =>
      var (t, s1) :- GetTarget(s);
      var (how, s2) :- GetHow(s1);
      Ok((Create(t, how.0, how.1), s2))
    case 9 =>
      var (t, s1) :- GetTarget(s);
      var (attributes, s2) :- GetAttributes(s1);
      Ok((Mkdir(t, attributes), s2))
    case 10 =>
      var (t, s1) :- GetTarget(s);
      var (attributes, s2) :- GetAttributes(s1);
      var (path, s3) :- GetOpaque(s2, "symlink target", limit);
      Ok((Symlink(t, attributes, path), s3))
    case 11 =>
      var (t, s1) :- GetTarget(s);
      var (node, s2) :- GetNode(s1);
      Ok((Mknod(t, node.0, node.1), s2))
    case 12 =>
      var (t, s1) :- GetTarget(s);
      Ok((Remove(t), s1))
    case 13 =>
      var (t, s1) :- GetTarget(s);
      Ok((Rmdir(t), s1))
    case 14 =>
      var (source, s1) :- GetTarget(s);
      var (target, s2) :- GetTarget(s1);
      Ok((Rename(source, target), s2))
    case 15 =>
      var (h, s1) :- GetHandle(s);
      var (t, s2) :- GetTarget(s1);
      Ok((Link(h, t), s2))
    case 16 =>
      var (h, s1) :- GetHandle(s);
      var (cookie, s2) :- GetU64(s1);
      var (verifier, s3) :- GetFixed(s2, 8);
      var (count, s4) :- GetU32(s3);
      Ok((ReadDir(h, cookie, verifier, count), s4))
    case 17 =>
      var (h, s1) :- GetHandle(s);
      var (cookie, s2) :- GetU64(s1);
      var (verifier, s3) :- GetFixed(s2, 8);
      var (directoryCount, s4) :- GetU32(s3);
      var (maxCount, s5) :- GetU32(s4);
      Ok((ReadDirPlus(h, cookie, verifier, directoryCount, maxCount), s5))
    case 18 =>
      var (h, s1) :- GetHandle(s);
      Ok((FsStat(h), s1))
    case 19 =>
      var (h, s1) :- GetHandle(s);
      Ok((FsInfo(h), s1))
    case 20 =>
      var (h, s1) :- GetHandle(s);
      Ok((PathConf(h), s1))
    case 21 =>
      var (h, s1) :- GetHandle(s);
      var (offset, s2) :- GetU64(s1);
      var (count, s3) :- GetU32(s2);
      Ok((Commit(h, offset, count), s3))
    case _ => Err(InvalidDiscriminant("NFS procedure", procedure))
  }

  function Decode(procedure: u32, input: seq<byte>, limit: nat): Decoded<NfsArguments> {
    Finish(Get(procedure, input, limit))
  }

  // --------------------------------------------- each reader inverts its writer, and nothing else

  lemma TimeBack(t: NfsTime, rest: seq<byte>)
    requires TimeFits(t)
    ensures GetTime(PutTime(t, rest)) == Ok((t, rest))
  {
    hide PutU32, GetU32;
    ReadU32Back(t.seconds, PutU32(t.nanoseconds, rest));
    ReadU32Back(t.nanoseconds, rest);
  }

  lemma TimeCanonical(s: seq<byte>)
    requires GetTime(s).Ok?
    ensures var (t, rest) := GetTime(s).value; TimeFits(t) && s == PutTime(t, rest)
  {
    hide PutU32, GetU32;
    U32IsCanonical(s);
    U32IsCanonical(GetU32(s).value.1);
  }

  lemma Option32Back(v: Option<u32>, rest: seq<byte>)
    ensures GetOption32(PutOption32(v, rest)) == Ok((v, rest))
  {
    hide PutU32, GetU32, PutBool, GetBool;
    if v.Some? { ReadBoolBack(true, PutU32(v.value, rest)); ReadU32Back(v.value, rest); } else { ReadBoolBack(false, rest); }
  }

  lemma Option32Canonical(s: seq<byte>)
    requires GetOption32(s).Ok?
    ensures var (v, rest) := GetOption32(s).value; s == PutOption32(v, rest)
  {
    hide PutU32, GetU32, PutBool, GetBool;
    BoolIsCanonical(s);
    if GetBool(s).value.0 { U32IsCanonical(GetBool(s).value.1); }
  }

  lemma Option64Back(v: Option<u64>, rest: seq<byte>)
    ensures GetOption64(PutOption64(v, rest)) == Ok((v, rest))
  {
    hide PutU64, GetU64, PutBool, GetBool;
    if v.Some? { ReadBoolBack(true, PutU64(v.value, rest)); ReadU64Back(v.value, rest); } else { ReadBoolBack(false, rest); }
  }

  lemma Option64Canonical(s: seq<byte>)
    requires GetOption64(s).Ok?
    ensures var (v, rest) := GetOption64(s).value; s == PutOption64(v, rest)
  {
    hide PutU64, GetU64, PutBool, GetBool;
    BoolIsCanonical(s);
    if GetBool(s).value.0 { U64IsCanonical(GetBool(s).value.1); }
  }

  lemma GuardBack(v: Option<NfsTime>, rest: seq<byte>)
    requires v.Some? ==> TimeFits(v.value)
    ensures GetGuard(PutGuard(v, rest)) == Ok((v, rest))
  {
    hide PutTime, GetTime, PutBool, GetBool;
    if v.Some? { ReadBoolBack(true, PutTime(v.value, rest)); TimeBack(v.value, rest); } else { ReadBoolBack(false, rest); }
  }

  lemma GuardCanonical(s: seq<byte>)
    requires GetGuard(s).Ok?
    ensures var (v, rest) := GetGuard(s).value; (v.Some? ==> TimeFits(v.value)) && s == PutGuard(v, rest)
  {
    hide PutTime, GetTime, PutBool, GetBool;
    BoolIsCanonical(s);
    if GetBool(s).value.0 { TimeCanonical(GetBool(s).value.1); }
  }

  lemma SetTimeBack(t: Option<SetTime>, rest: seq<byte>)
    requires SetTimeFits(t)
    ensures GetSetTime(PutSetTime(t, rest)) == Ok((t, rest))
  {
    hide PutTime, GetTime, PutU32, GetU32;
    match t
    case None => ReadU32Back(0, rest);
    case Some(ServerTime) => ReadU32Back(1, rest);
    case Some(ClientTime(time)) => ReadU32Back(2, PutTime(time, rest)); TimeBack(time, rest);
  }

  lemma SetTimeCanonical(s: seq<byte>)
    requires GetSetTime(s).Ok?
    ensures var (t, rest) := GetSetTime(s).value; SetTimeFits(t) && s == PutSetTime(t, rest)
  {
    hide PutTime, GetTime, PutU32, GetU32;
    U32IsCanonical(s);
    if GetU32(s).value.0 == 2 { TimeCanonical(GetU32(s).value.1); }
  }

  lemma AttributesBack(a: SetAttributes, rest: seq<byte>)
    requires AttributesFit(a)
    ensures GetAttributes(PutAttributes(a, rest)) == Ok((a, rest))
  {
    hide PutOption32, GetOption32, PutOption64, GetOption64, PutSetTime, GetSetTime;
    var s5 := PutSetTime(a.modifyTime, rest);
    var s4 := PutSetTime(a.accessTime, s5);
    var s3 := PutOption64(a.size, s4);
    var s2 := PutOption32(a.gid, s3);
    var s1 := PutOption32(a.uid, s2);
    Option32Back(a.mode, s1);
    Option32Back(a.uid, s2);
    Option32Back(a.gid, s3);
    Option64Back(a.size, s4);
    SetTimeBack(a.accessTime, s5);
    SetTimeBack(a.modifyTime, rest);
  }

  lemma AttributesCanonical(s: seq<byte>)
    requires GetAttributes(s).Ok?
    ensures var (a, rest) := GetAttributes(s).value; AttributesFit(a) && s == PutAttributes(a, rest)
  {
    hide PutOption32, GetOption32, PutOption64, GetOption64, PutSetTime, GetSetTime;
    Option32Canonical(s);
    var s1 := GetOption32(s).value.1;
    Option32Canonical(s1);
    var s2 := GetOption32(s1).value.1;
    Option32Canonical(s2);
    var s3 := GetOption32(s2).value.1;
    Option64Canonical(s3);
    var s4 := GetOption64(s3).value.1;
    SetTimeCanonical(s4);
    SetTimeCanonical(GetSetTime(s4).value.1);
  }

  lemma TargetBack(d: DirectoryOperation, rest: seq<byte>)
    requires TargetFits(d)
    ensures GetTarget(PutTarget(d, rest)) == Ok((d, rest))
  {
    hide PutOpaque, GetOpaque;
    ReadOpaqueBack(d.directory, PutOpaque(d.name, rest), "NFS file handle", MAX_HANDLE);
    ReadOpaqueBack(d.name, rest, "NFS filename", MAX_NAME);
  }

  lemma TargetCanonical(s: seq<byte>)
    requires GetTarget(s).Ok?
    ensures var (d, rest) := GetTarget(s).value; TargetFits(d) && s == PutTarget(d, rest)
  {
    hide PutOpaque, GetOpaque;
    OpaqueIsCanonical(s, "NFS file handle", MAX_HANDLE);
    OpaqueIsCanonical(GetHandle(s).value.1, "NFS filename", MAX_NAME);
  }

  lemma StabilityBack(v: Stability, rest: seq<byte>)
    ensures GetStability(PutStability(v, rest)) == Ok((v, rest))
  {
    hide PutU32, GetU32;
    ReadU32Back(match v case Unstable => 0 case DataSync => 1 case FileSync => 2, rest);
  }

  lemma StabilityCanonical(s: seq<byte>)
    requires GetStability(s).Ok?
    ensures var (v, rest) := GetStability(s).value; s == PutStability(v, rest)
  {
    hide PutU32, GetU32;
    U32IsCanonical(s);
  }

  lemma HandleBack(h: Handle, rest: seq<byte>)
    requires |h| <= MAX_HANDLE
    ensures GetHandle(PutOpaque(h, rest)) == Ok((h, rest))
  {
    ReadOpaqueBack(h, rest, "NFS file handle", MAX_HANDLE);
  }

  lemma HandleCanonical(s: seq<byte>)
    requires GetHandle(s).Ok?
    ensures var (h, rest) := GetHandle(s).value; |h| <= MAX_HANDLE && s == PutOpaque(h, rest)
  {
    OpaqueIsCanonical(s, "NFS file handle", MAX_HANDLE);
  }

  lemma WriteBack(w: WriteArgs, limit: nat, rest: seq<byte>)
    requires WriteFits(w, limit)
    ensures GetWrite(PutWrite(w, rest), limit) == Ok((w, rest))
  {
    hide PutOpaque, GetOpaque, GetHandle, PutU32, GetU32, PutU64, GetU64, PutStability, GetStability;
    var s4 := PutOpaque(w.data, rest);
    var s3 := PutStability(w.requested, s4);
    var s2 := PutU32(w.count, s3);
    HandleBack(w.handle, PutU64(w.offset, s2));
    ReadU64Back(w.offset, s2);
    ReadU32Back(w.count, s3);
    StabilityBack(w.requested, s4);
    ReadOpaqueBack(w.data, rest, "WRITE data", limit);
  }

  lemma WriteCanonical(s: seq<byte>, limit: nat)
    requires GetWrite(s, limit).Ok?
    ensures var (w, rest) := GetWrite(s, limit).value; WriteFits(w, limit) && s == PutWrite(w, rest)
  {
    hide PutOpaque, GetOpaque, GetHandle, PutU32, GetU32, PutU64, GetU64, PutStability, GetStability;
    HandleCanonical(s);
    var s1 := GetHandle(s).value.1;
    U64IsCanonical(s1);
    var s2 := GetU64(s1).value.1;
    U32IsCanonical(s2);
    var s3 := GetU32(s2).value.1;
    StabilityCanonical(s3);
    OpaqueIsCanonical(GetStability(s3).value.1, "WRITE data", limit);
  }

  lemma HowBack(mode: CreateMode, attributes: SetAttributes, rest: seq<byte>)
    requires AttributesFit(attributes) && (mode.Exclusive? ==> |mode.verifier| == 8 && attributes == NO_ATTRIBUTES)
    ensures GetHow(PutHow(mode, attributes, rest)) == Ok(((mode, attributes), rest))
  {
    hide PutU32, GetU32, PutAttributes, GetAttributes;
    match mode
    case Unchecked => ReadU32Back(0, PutAttributes(attributes, rest)); AttributesBack(attributes, rest);
    case Guarded => ReadU32Back(1, PutAttributes(attributes, rest)); AttributesBack(attributes, rest);
    case Exclusive(verifier) => ReadU32Back(2, verifier + rest); ReadFixedBack(verifier, rest);
  }

  lemma HowCanonical(s: seq<byte>)
    requires GetHow(s).Ok?
    ensures var ((mode, attributes), rest) := GetHow(s).value;
            && AttributesFit(attributes) && (mode.Exclusive? ==> |mode.verifier| == 8 && attributes == NO_ATTRIBUTES)
            && s == PutHow(mode, attributes, rest)
  {
    hide PutU32, GetU32, PutAttributes, GetAttributes;
    U32IsCanonical(s);
    var (n, s1) := GetU32(s).value;
    if n == 2 { FixedIsCanonical(s1, 8); } else { AttributesCanonical(s1); }
  }

  lemma NodeBack(n: NodeType, attributes: SetAttributes, rest: seq<byte>)
    requires AttributesFit(attributes)
    ensures GetNode(PutNode(n, attributes, rest)) == Ok(((n, attributes), rest))
  {
    hide PutU32, GetU32, PutAttributes, GetAttributes;
    var tail := if n.BlockDevice? || n.CharacterDevice? then PutU32(n.major, PutU32(n.minor, rest)) else rest;
    AttributesBack(attributes, tail);
    ReadU32Back(match n case BlockDevice(_, _) => 3 case CharacterDevice(_, _) => 4 case Socket => 6 case Fifo => 7,
                PutAttributes(attributes, tail));
    if n.BlockDevice? || n.CharacterDevice? {
      ReadU32Back(n.major, PutU32(n.minor, rest));
      ReadU32Back(n.minor, rest);
    }
  }

  lemma NodeCanonical(s: seq<byte>)
    requires GetNode(s).Ok?
    ensures var ((n, attributes), rest) := GetNode(s).value;
            AttributesFit(attributes) && s == PutNode(n, attributes, rest)
  {
    hide PutU32, GetU32, PutAttributes, GetAttributes;
    U32IsCanonical(s);
    var (kind, s1) := GetU32(s).value;
    AttributesCanonical(s1);
    var s2 := GetAttributes(s1).value.1;
    if kind == 3 || kind == 4 {
      U32IsCanonical(s2);
      U32IsCanonical(GetU32(s2).value.1);
    }
  }
}
