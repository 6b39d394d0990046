/** The decoder itself (src/rpc/codec.rs, src/nfs3/procedures/mod.rs): a cursor over an
    input, advanced by every read. Each read is proved to do what the corresponding
    function of the unread bytes does. */
module Decoding {
  import opened Sequences
  import opened BigEndian
  import opened Replies
  import opened Xdr
  import opened Arguments

  /** A read that returned `r` and left `rest` unread did what `spec` says. After an
      error the cursor is never used again. */
  ghost predicate Agrees<T(!new)>(spec: Parsed<T>, r: Decoded<T>, rest: seq<byte>) {
    match spec
    case Ok(parsed) => r == Ok(parsed.0) && rest == parsed.1
    case Err(e) => r == Err(e)
  }

  class Decoder {
    const input: seq<byte>
    var position: nat

    ghost predicate Valid()
      reads this
    {
      position <= |input|
    }

    ghost function Remaining(): seq<byte>
      requires Valid()
      reads this
    {
      input[position..]
    }

    constructor (input: seq<byte>)
      ensures Valid() && this.input == input && position == 0 && Remaining() == input
    {
      this.input := input;
      position := 0;
    }

    method Take(count: nat) returns (r: Decoded<seq<byte>>)
      requires Valid()
      modifies this`position
      ensures Valid() && Agrees(GetFixed(old(Remaining()), count), r, Remaining())
      ensures r.Ok? ==> position == old(position) + count && r.value == input[old(position)..position]
    {
      if position + count > |input| {
        return Err(Truncated);
      }
      var end := position + count;
      var value := input[position..end];
      assert input[position..][..count] == value && input[position..][count..] == input[end..];
      position := end;
      return Ok(value);
    }

    method ReadU32() returns (r: Decoded<u32>)
      requires Valid()
      modifies this`position
      ensures Valid() && Agrees(GetU32(old(Remaining())), r, Remaining())
      ensures r.Ok? ==> position == old(position) + 4
    {
      hide FromBe32;
      var bytes :- Take(4);
      return Ok(FromBe32(bytes));
    }

    method ReadU64() returns (r: Decoded<u64>)
      requires Valid()
      modifies this`position
      ensures Valid() && Agrees(GetU64(old(Remaining())), r, Remaining())
    {
      hide FromBe64;
      var bytes :- Take(8);
      return Ok(FromBe64(bytes));
    }

    method ReadBool() returns (r: Decoded<bool>)
      requires Valid()
      modifies this`position
      ensures Valid() && Agrees(GetBool(old(Remaining())), r, Remaining())
    {
      hide GetU32;
      var value :- ReadU32();
      if value == 0 {
        return Ok(false);
      } else if value == 1 {
        return Ok(true);
      } else {
        return Err(InvalidBoolean(value));
      }
    }

    method ReadFixed(count: nat) returns (r: Decoded<seq<byte>>)
      requires Valid()
      modifies this`position
      ensures Valid() && Agrees(GetFixed(old(Remaining()), count), r, Remaining())
    {
      r := Take(count);
    }

    method ReadLength(field: string, limit: nat) returns (r: Decoded<nat>)
      requires Valid()
      modifies this`position
      ensures Valid() && Agrees(GetLength(old(Remaining()), field, limit), r, Remaining())
      ensures r.Ok? ==> position == old(position) + 4
    {
      hide GetU32;
      var length :- ReadU32();
      if length > limit {
        return Err(LimitExceeded(field, length, limit));
      }
      return Ok(length);
    }

    /** The value is the stretch of the input right after its length word. */
    method ReadOpaqueSlice(field: string, limit: nat) returns (r: Decoded<seq<byte>>)
      requires Valid()
      modifies this`position
      ensures Valid() && Agrees(GetOpaque(old(Remaining()), field, limit), r, Remaining())
      ensures r.Ok? ==>
                && old(position) + 4 + |r.value| <= |input|
                && r.value == input[old(position) + 4..old(position) + 4 + |r.value|]
    {
      hide GetLength, GetFixed, Padding;
      var length :- ReadLength(field, limit);
      var value :- Take(length);
      var padding :- Take(Padding(length));
      var zero := AllZero(padding);
      if !zero {
        return Err(InvalidPadding);
      }
      return Ok(value);
    }

    method ReadOpaque(field: string, limit: nat) returns (r: Decoded<seq<byte>>)
      requires Valid()
      modifies this`position
      ensures Valid() && Agrees(GetOpaque(old(Remaining()), field, limit), r, Remaining())
    {
      hide GetOpaque;
      r := ReadOpaqueSlice(field, limit);
    }

    method Finish() returns (r: Decoded<()>)
      requires Valid()
      ensures r == if Remaining() == [] then Ok(()) else Err(TrailingBytes)
    {
      return if position == |input| then Ok(()) else Err(TrailingBytes);
    }
  }

  /** No byte of the padding is non-zero. */
  method AllZero(padding: seq<byte>) returns (zero: bool)
    ensures zero <==> padding == Zeros(|padding|)
  {
    var i := 0;
    while i < |padding|
      invariant 0 <= i <= |padding|
      invariant forall k :: 0 <= k < i ==> padding[k] == 0
    {
      if padding[i] != 0 {
        assert Zeros(|padding|)[i] == 0;
        return false;
      }
      i := i + 1;
    }
    return true;
  }

  // ------------------------------------------------------------------- NFS values

  method DecodeHandle(d: Decoder) returns (r: Decoded<Handle>)
    requires d.Valid()
    modifies d`position
    ensures d.Valid() && Agrees(GetHandle(old(d.Remaining())), r, d.Remaining())
  {
    hide GetOpaque;
    r := d.ReadOpaque("NFS file handle", MAX_HANDLE);
  }

  method DecodeTarget(d: Decoder) returns (r: Decoded<DirectoryOperation>)
    requires d.Valid()
    modifies d`position
    ensures d.Valid() && Agrees(GetTarget(old(d.Remaining())), r, d.Remaining())
  {
    hide GetOpaque, GetHandle;
    var directory :- DecodeHandle(d);
    var name :- d.ReadOpaque("NFS filename", MAX_NAME);
    return Ok(DirectoryOperation(directory, name));
  }

  method DecodeTime(d: Decoder) returns (r: Decoded<NfsTime>)
    requires d.Valid()
    modifies d`position
    ensures d.Valid() && Agrees(GetTime(old(d.Remaining())), r, d.Remaining())
  {
    hide GetU32;
    var seconds :- d.ReadU32();
    var nanoseconds :- d.ReadU32();
    if nanoseconds > MAX_NANOSECONDS {
      return Err(InvalidDiscriminant("nanoseconds", nanoseconds));
    }
    return Ok(NfsTime(seconds, nanoseconds));
  }

  method DecodeOption32(d: Decoder) returns (r: Decoded<Option<u32>>)
    requires d.Valid()
    modifies d`position
    ensures d.Valid() && Agrees(GetOption32(old(d.Remaining())), r, d.Remaining())
  {
    hide GetU32, GetBool;
    var present :- d.ReadBool();
    if !present {
      return Ok(None);
    }
    var value :- d.ReadU32();
    return Ok(Some(value));
  }

  method DecodeOption64(d: Decoder) returns (r: Decoded<Option<u64>>)
    requires d.Valid()
    modifies d`position
    ensures d.Valid() && Agrees(GetOption64(old(d.Remaining())), r, d.Remaining())
  {
    hide GetU64, GetBool;
    var present :- d.ReadBool();
    if !present {
      return Ok(None);
    }
    var value :- d.ReadU64();
    return Ok(Some(value));
  }

  method DecodeGuard(d: Decoder) returns (r: Decoded<Option<NfsTime>>)
    requires d.Valid()
    modifies d`position
    ensures d.Valid() && Agrees(GetGuard(old(d.Remaining())), r, d.Remaining())
  {
    hide GetTime, GetBool;
    var present :- d.ReadBool();
    if !present {
      return Ok(None);
    }
    var time :- DecodeTime(d);
    return Ok(Some(time));
  }

  method DecodeSetTime(d: Decoder) returns (r: Decoded<Option<SetTime>>)
    requires d.Valid()
    modifies d`position
    ensures d.Valid() && Agrees(GetSetTime(old(d.Remaining())), r, d.Remaining())
  {
    hide GetTime, GetU32;
    var how :- d.ReadU32();
    match how {
      case 0 => return Ok(None);
      case 1 => return Ok(Some(ServerTime));
      case 2 =>
        var time :- DecodeTime(d);
        return Ok(Some(ClientTime(time)));
      case _ => return Err(InvalidDiscriminant("set time", how));
    }
  }

  method DecodeSetAttributes(d: Decoder) returns (r: Decoded<SetAttributes>)
    requires d.Valid()
    modifies d`position
    ensures d.Valid() && Agrees(GetAttributes(old(d.Remaining())), r, d.Remaining())
  {
    hide GetOption32, GetOption64, GetSetTime;
    var mode :- DecodeOption32(d);
    var uid :- DecodeOption32(d);
    var gid :- DecodeOption32(d);
    var size :- DecodeOption64(d);
    var accessTime :- DecodeSetTime(d);
    var modifyTime :- DecodeSetTime(d);
    return Ok(SetAttributes(mode, uid, gid, size, accessTime, modifyTime));
  }

  method DecodeStability(d: Decoder) returns (r: Decoded<Stability>)
    requires d.Valid()
    modifies d`position
    ensures d.Valid() && Agrees(GetStability(old(d.Remaining())), r, d.Remaining())
  {
    hide GetU32;
    var value :- d.ReadU32();
    match value {
      case 0 => return Ok(Unstable);
      case 1 => return Ok(DataSync);
      case 2 => return Ok(FileSync);
      case _ => return Err(InvalidDiscriminant("write stability", value));
    }
  }

  method DecodeWrite(d: Decoder, limit: nat) returns (r: Decoded<WriteArgs>)
    requires d.Valid()
    modifies d`position
    ensures d.Valid() && Agrees(GetWrite(old(d.Remaining()), limit), r, d.Remaining())
  {
    hide GetU32, GetU64, GetHandle, GetStability, GetOpaque;
    var handle :- DecodeHandle(d);
    var offset :- d.ReadU64();
    var count :- d.ReadU32();
    var requested :- DecodeStability(d);
    var data :- d.ReadOpaque("WRITE data", limit);
    return Ok(WriteArgs(handle, offset, count, requested, data));
  }

  method DecodeHow(d: Decoder) returns (r: Decoded<(CreateMode, SetAttributes)>)
    requires d.Valid()
    modifies d`position
    ensures d.Valid() && Agrees(GetHow(old(d.Remaining())), r, d.Remaining())
  {
    hide GetU32, GetFixed, GetAttributes;
    var value :- d.ReadU32();
    var mode;
    match value {
      case 0 => mode := Unchecked;
      case 1 => mode := Guarded;
      case 2 =>
        var verifier :- d.ReadFixed(8);
        mode := Exclusive(verifier);
      case _ => return Err(InvalidDiscriminant("CREATE mode", value));
    }
    var attributes := NO_ATTRIBUTES;
    if !mode.Exclusive? {
      attributes :- DecodeSetAttributes(d);
    }
    return Ok((mode, attributes));
  }

  method DecodeNode(d: Decoder) returns (r: Decoded<(NodeType, SetAttributes)>)
    requires d.Valid()
    modifies d`position
    ensures d.Valid() && Agrees(GetNode(old(d.Remaining())), r, d.Remaining())
  {
    hide GetU32, GetAttributes;
    var kind :- d.ReadU32();
    var attributes :- DecodeSetAttributes(d);
    match kind {
      case 3 =>
        var major :- d.ReadU32();
        var minor :- d.ReadU32();
        return Ok((BlockDevice(major, minor), attributes));
      case 4 =>
        var major :- d.ReadU32();
        var minor :- d.ReadU32();
        return Ok((CharacterDevice(major, minor), attributes));
      case 6 => return Ok((Socket, attributes));
      case 7 => return Ok((Fifo, attributes));
      case _ => return Err(InvalidDiscriminant("MKNOD type", kind));
    }
  }

  // -------------------------------------------------------------------- procedures

  /** Procedures 0 to 7. */
  method DecodeObjectArguments(d: Decoder, procedure: u32, limit: nat) returns (r: Decoded<NfsArguments>)
    requires d.Valid() && procedure < 8
    modifies d`position
    ensures d.Valid() && Agrees(Get(procedure, old(d.Remaining()), limit), r, d.Remaining())
  {
    hide GetU32, GetU64, GetHandle, GetTarget, GetAttributes, GetGuard, GetWrite;
    if procedure == 0 {
      return Ok(Null);
    } else if procedure == 3 {
      var target :- DecodeTarget(d);
      return Ok(Lookup(target));
    } else if procedure == 7 {
      var write :- DecodeWrite(d, limit);
      return Ok(Write(write));
    }
    var handle :- DecodeHandle(d);
    if procedure == 1 {
      return Ok(GetAttr(handle));
    } else if procedure == 2 {
      var attributes :- DecodeSetAttributes(d);
      var guard :- DecodeGuard(d);
      return Ok(SetAttr(handle, attributes, guard));
    } else if procedure == 4 {
      var requested :- d.ReadU32();
      return Ok(Access(handle, requested));
    } else if procedure == 5 {
      return Ok(ReadLink(handle));
    } else {
      var offset :- d.ReadU64();
      var count :- d.ReadU32();
      return Ok(Read(handle, offset, count));
    }
  }

  /** Procedures 8 to 14. */
  method DecodeNamespaceArguments(d: Decoder, procedure: u32, limit: nat) returns (r: Decoded<NfsArguments>)
    requires d.Valid() && 8 <= procedure < 15
    modifies d`position
    ensures d.Valid() && Agrees(Get(procedure, old(d.Remaining()), limit), r, d.Remaining())
  {
    hide GetTarget, GetAttributes, GetHow, GetNode, GetOpaque;
    var target :- DecodeTarget(d);
    if procedure == 8 {
      var how :- DecodeHow(d);
      return Ok(Create(target, how.0, how.1));
    } else if procedure == 9 {
      var attributes :- DecodeSetAttributes(d);
      return Ok(Mkdir(target, attributes));
    } else if procedure == 10 {
      var attributes :- DecodeSetAttributes(d);
      var path :- d.ReadOpaque("symlink target", limit);
      return Ok(Symlink(target, attributes, path));
    } else if procedure == 11 {
      var node :- DecodeNode(d);
      return Ok(Mknod(target, node.0, node.1));
    } else if procedure == 12 {
      return Ok(Remove(target));
    } else if procedure == 13 {
      return Ok(Rmdir(target));
    } else {
      var to :- DecodeTarget(d);
      return Ok(Rename(target, to));
    }
  }

  /** Procedures 15 to 21. */
  method DecodeVolumeArguments(d: Decoder, procedure: u32, limit: nat) returns (r: Decoded<NfsArguments>)
    requires d.Valid() && 15 <= procedure < 22
    modifies d`position
    ensures d.Valid() && Agrees(Get(procedure, old(d.Remaining()), limit), r, d.Remaining())
  {
    hide GetU32, GetU64, GetHandle, GetTarget, GetFixed;
    var handle :- DecodeHandle(d);
    if procedure == 15 {
      var target :- DecodeTarget(d);
      return Ok(Link(handle, target));
    } else if procedure == 16 {
      var cookie :- d.ReadU64();
      var verifier :- d.ReadFixed(8);
      var count :- d.ReadU32();
      return Ok(ReadDir(handle, cookie, verifier, count));
    } else if procedure == 17 {
      var cookie :- d.ReadU64();
      var verifier :- d.ReadFixed(8);
      var directoryCount :- d.ReadU32();
      var maxCount :- d.ReadU32();
      return Ok(ReadDirPlus(handle, cookie, verifier, directoryCount, maxCount));
    } else if procedure == 18 {
      return Ok(FsStat(handle));
    } else if procedure == 19 {
      return Ok(FsInfo(handle));
    } else if procedure == 20 {
      return Ok(PathConf(handle));
    } else {
      var offset :- d.ReadU64();
      var count :- d.ReadU32();
      return Ok(Commit(handle, offset, count));
    }
  }

  /** `NfsArguments::decode`: one value of the named procedure and nothing after it. */
  method DecodeArguments(procedure: u32, input: seq<byte>, limit: nat) returns (r: Decoded<NfsArguments>)
    ensures r == Arguments.Decode(procedure, input, limit)
  {
    if procedure >= 22 {
      return Err(InvalidDiscriminant("NFS procedure", procedure));
    }
    hide Get;
    var d := new Decoder(input);
    var arguments;
    if procedure < 8 {
      arguments :- DecodeObjectArguments(d, procedure, limit);
    } else if procedure < 15 {
      arguments :- DecodeNamespaceArguments(d, procedure, limit);
    } else {
      arguments :- DecodeVolumeArguments(d, procedure, limit);
    }
    var _ :- d.Finish();
    return Ok(arguments);
  }

  /** `WriteRequest::decode`: the data is cut out of the record by position instead of
      being copied by the decoder. On every input it returns what the copying WRITE
      decode returns, errors included. */
  method DecodeWriteRequest(input: seq<byte>, limit: nat) returns (r: Decoded<WriteArgs>)
    ensures r == Xdr.Finish(GetWrite(input, limit))
    ensures Arguments.Decode(7, input, limit) ==
            match r
            case Ok(w) => Ok(Write(w))
            case Err(e) => Err(e)
  {
    hide GetU32, GetU64, GetHandle, GetStability, GetOpaque;
    var d := new Decoder(input);
    var handle :- DecodeHandle(d);
    var offset :- d.ReadU64();
    var count :- d.ReadU32();
    var requested :- DecodeStability(d);
    var dataPrefix := d.position;
    var slice :- d.ReadOpaqueSlice("WRITE data", limit);
    var length := |slice|;
    var _ :- d.Finish();
    var start := dataPrefix + 4;
    return Ok(WriteArgs(handle, offset, count, requested, input[start..start + length]));
  }
}
