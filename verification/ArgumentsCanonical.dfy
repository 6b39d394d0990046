/** Argument decoding is canonical: `decode` accepts exactly one byte string for each
    value within the field limits, and no other byte string at all. */
module ArgumentsCanonical {
  import opened Sequences
  import opened BigEndian
  import opened Xdr
  import opened Arguments

  lemma GetBack(a: NfsArguments, limit: nat, rest: seq<byte>)
    requires Fits(a, limit)
    ensures Get(Procedure(a), Put(a, limit, rest), limit) == Ok((a, rest))
  {
    hide Get, Put, Fits;
    if Procedure(a) < 10 {
      GetBackLow(a, limit, rest);
    } else {
      GetBackHigh(a, limit, rest);
    }
  }

  /** Procedures 0 to 9. */
  lemma GetBackLow(a: NfsArguments, limit: nat, rest: seq<byte>)
    requires Fits(a, limit) && Procedure(a) < 10
    ensures Get(Procedure(a), Put(a, limit, rest), limit) == Ok((a, rest))
  {
    hide PutOpaque, GetOpaque, GetHandle, PutU32, GetU32, PutU64, GetU64, PutTarget, GetTarget, PutAttributes, GetAttributes,
         PutGuard, GetGuard, PutWrite, GetWrite, PutHow, GetHow, PutNode, GetNode, GetFixed;
    match a
    case Null =>
    case GetAttr(h) => HandleBack(h, rest);
    case SetAttr(h, attributes, guard) =>
      HandleBack(h, PutAttributes(attributes, PutGuard(guard, rest)));
      AttributesBack(attributes, PutGuard(guard, rest));
      GuardBack(guard, rest);
    case Lookup(t) => TargetBack(t, rest);
    case Access(h, requested) =>
      HandleBack(h, PutU32(requested, rest));
      ReadU32Back(requested, rest);
    case ReadLink(h) => HandleBack(h, rest);
    case Read(h, offset, count) => OffsetCountBack(h, offset, count, rest);
    case Write(w) => WriteBack(w, limit, rest);
    case Create(t, mode, attributes) =>
      TargetBack(t, PutHow(mode, attributes, rest));
      HowBack(mode, attributes, rest);
    case Mkdir(t, attributes) =>
      TargetBack(t, PutAttributes(attributes, rest));
      AttributesBack(attributes, rest);
    case _ =>
  }

  /** Procedures 10 to 21. */
  lemma GetBackHigh(a: NfsArguments, limit: nat, rest: seq<byte>)
    requires Fits(a, limit) && Procedure(a) >= 10
    ensures Get(Procedure(a), Put(a, limit, rest), limit) == Ok((a, rest))
  {
    hide PutOpaque, GetOpaque, GetHandle, PutU32, GetU32, PutU64, GetU64, PutTarget, GetTarget, PutAttributes, GetAttributes,
         PutGuard, GetGuard, PutWrite, GetWrite, PutHow, GetHow, PutNode, GetNode, GetFixed;
    match a
    case Symlink(t, attributes, path) =>
      TargetBack(t, PutAttributes(attributes, PutOpaque(path, rest)));
      AttributesBack(attributes, PutOpaque(path, rest));
      ReadOpaqueBack(path, rest, "symlink target", limit);
    case Mknod(t, node, attributes) =>
      TargetBack(t, PutNode(node, attributes, rest));
      NodeBack(node, attributes, rest);
    case Remove(t) => TargetBack(t, rest);
    case Rmdir(t) => TargetBack(t, rest);
    case Rename(s, t) =>
      TargetBack(s, PutTarget(t, rest));
      TargetBack(t, rest);
    case Link(h, t) =>
      HandleBack(h, PutTarget(t, rest));
      TargetBack(t, rest);
    case ReadDir(h, cookie, verifier, count) =>
      CookieBack(h, cookie, verifier, PutU32(count, rest));
      ReadU32Back(count, rest);
    case ReadDirPlus(h, cookie, verifier, directoryCount, maxCount) =>
      CookieBack(h, cookie, verifier, PutU32(directoryCount, PutU32(maxCount, rest)));
      ReadU32Back(directoryCount, PutU32(maxCount, rest));
      ReadU32Back(maxCount, rest);
    case FsStat(h) => HandleBack(h, rest);
    case FsInfo(h) => HandleBack(h, rest);
    case PathConf(h) => HandleBack(h, rest);
    case Commit(h, offset, count) => OffsetCountBack(h, offset, count, rest);
    case _ =>
  }

  lemma OffsetCountBack(h: Handle, offset: u64, count: u32, rest: seq<byte>)
    requires |h| <= MAX_HANDLE
    ensures var s := PutOpaque(h, PutU64(offset, PutU32(count, rest)));
            && GetHandle(s) == Ok((h, PutU64(offset, PutU32(count, rest))))
            && GetU64(PutU64(offset, PutU32(count, rest))) == Ok((offset, PutU32(count, rest)))
            && GetU32(PutU32(count, rest)) == Ok((count, rest))
  {
    hide GetHandle, PutOpaque, PutU64, GetU64, PutU32, GetU32;
    HandleBack(h, PutU64(offset, PutU32(count, rest)));
    ReadU64Back(offset, PutU32(count, rest));
    ReadU32Back(count, rest);
  }

  lemma CookieBack(h: Handle, cookie: u64, verifier: seq<byte>, rest: seq<byte>)
    requires |h| <= MAX_HANDLE && |verifier| == 8
    ensures GetHandle(PutOpaque(h, PutU64(cookie, verifier + rest))) == Ok((h, PutU64(cookie, verifier + rest)))
    ensures GetU64(PutU64(cookie, verifier + rest)) == Ok((cookie, verifier + rest))
    ensures GetFixed(verifier + rest, 8) == Ok((verifier, rest))
  {
    hide GetHandle, PutOpaque, PutU64, GetU64, GetFixed;
    HandleBack(h, PutU64(cookie, verifier + rest));
    ReadU64Back(cookie, verifier + rest);
    ReadFixedBack(verifier, rest);
  }

  lemma OffsetCountCanonical(s: seq<byte>)
    requires GetHandle(s).Ok? && GetU64(GetHandle(s).value.1).Ok? && GetU32(GetU64(GetHandle(s).value.1).value.1).Ok?
    ensures var (h, s1) := GetHandle(s).value;
            var (offset, s2) := GetU64(s1).value;
            var (count, s3) := GetU32(s2).value;
            |h| <= MAX_HANDLE && s == PutOpaque(h, PutU64(offset, PutU32(count, s3)))
  {
    hide GetHandle, PutOpaque, PutU64, GetU64, PutU32, GetU32;
    HandleCanonical(s);
    U64IsCanonical(GetHandle(s).value.1);
    U32IsCanonical(GetU64(GetHandle(s).value.1).value.1);
  }

  lemma CookieCanonical(s: seq<byte>)
    requires GetHandle(s).Ok? && GetU64(GetHandle(s).value.1).Ok? && GetFixed(GetU64(GetHandle(s).value.1).value.1, 8).Ok?
    ensures var (h, s1) := GetHandle(s).value;
            var (cookie, s2) := GetU64(s1).value;
            var (verifier, s3) := GetFixed(s2, 8).value;
            |h| <= MAX_HANDLE && |verifier| == 8 && s == PutOpaque(h, PutU64(cookie, verifier + s3))
  {
    hide GetHandle, PutOpaque, PutU64, GetU64, GetFixed;
    HandleCanonical(s);
    U64IsCanonical(GetHandle(s).value.1);
    FixedIsCanonical(GetU64(GetHandle(s).value.1).value.1, 8);
  }

  /** What was decoded, written again, is what was read. */
  ghost predicate Canonical(procedure: u32, s: seq<byte>, limit: nat) {
    Get(procedure, s, limit).Ok? ==>
      var (a, rest) := Get(procedure, s, limit).value;
      Procedure(a) == procedure && Fits(a, limit) && s == Put(a, limit, rest)
  }

  lemma HandleProceduresCanonical(procedure: u32, s: seq<byte>, limit: nat)
    requires procedure in {1, 4, 5, 6, 18, 19, 20, 21}
    ensures Canonical(procedure, s, limit)
  {
    hide PutOpaque, GetOpaque, GetHandle, PutU32, GetU32, PutU64, GetU64, PutTarget, GetTarget, PutAttributes, GetAttributes,
         PutGuard, GetGuard, PutWrite, GetWrite, PutHow, GetHow, PutNode, GetNode, GetFixed;
    if Get(procedure, s, limit).Ok? {
      if procedure == 1 || procedure == 5 || procedure == 18 || procedure == 19 || procedure == 20 {
        HandleCanonical(s);
      } else if procedure == 4 {
        HandleCanonical(s);
        U32IsCanonical(GetHandle(s).value.1);
      } else if procedure == 6 || procedure == 21 {
        OffsetCountCanonical(s);
      }
    }
  }

  lemma TargetProceduresCanonical(procedure: u32, s: seq<byte>, limit: nat)
    requires procedure in {3, 9, 12, 13, 14, 15}
    ensures Canonical(procedure, s, limit)
  {
    hide PutOpaque, GetOpaque, GetHandle, PutU32, GetU32, PutU64, GetU64, PutTarget, GetTarget, PutAttributes, GetAttributes,
         PutGuard, GetGuard, PutWrite, GetWrite, PutHow, GetHow, PutNode, GetNode, GetFixed;
    if Get(procedure, s, limit).Ok? {
      if procedure == 3 || procedure == 12 || procedure == 13 {
        TargetCanonical(s);
      } else if procedure == 9 {
        TargetCanonical(s);
        AttributesCanonical(GetTarget(s).value.1);
      } else if procedure == 14 {
        TargetCanonical(s);
        TargetCanonical(GetTarget(s).value.1);
      } else if procedure == 15 {
        HandleCanonical(s);
        TargetCanonical(GetHandle(s).value.1);
      }
    }
  }

  lemma MakingProceduresCanonical(procedure: u32, s: seq<byte>, limit: nat)
    requires procedure in {2, 7, 8, 10, 11}
    ensures Canonical(procedure, s, limit)
  {
    hide PutOpaque, GetOpaque, GetHandle, PutU32, GetU32, PutU64, GetU64, PutTarget, GetTarget, PutAttributes, GetAttributes,
         PutGuard, GetGuard, PutWrite, GetWrite, PutHow, GetHow, PutNode, GetNode, GetFixed;
    if Get(procedure, s, limit).Ok? {
      if procedure == 2 {
        HandleCanonical(s);
        var s1 := GetHandle(s).value.1;
        AttributesCanonical(s1);
        GuardCanonical(GetAttributes(s1).value.1);
      } else if procedure == 7 {
        WriteCanonical(s, limit);
      } else if procedure == 8 {
        TargetCanonical(s);
        HowCanonical(GetTarget(s).value.1);
      } else if procedure == 10 {
        TargetCanonical(s);
        var s1 := GetTarget(s).value.1;
        AttributesCanonical(s1);
        OpaqueIsCanonical(GetAttributes(s1).value.1, "symlink target", limit);
      } else if procedure == 11 {
        TargetCanonical(s);
        NodeCanonical(GetTarget(s).value.1);
      }
    }
  }

  lemma ListingProceduresCanonical(procedure: u32, s: seq<byte>, limit: nat)
    requires procedure in {16, 17}
    ensures Canonical(procedure, s, limit)
  {
    hide PutOpaque, GetOpaque, GetHandle, PutU32, GetU32, PutU64, GetU64, PutTarget, GetTarget, PutAttributes, GetAttributes,
         PutGuard, GetGuard, PutWrite, GetWrite, PutHow, GetHow, PutNode, GetNode, GetFixed;
    if Get(procedure, s, limit).Ok? {
      if procedure == 16 {
        CookieCanonical(s);
        var s3 := GetFixed(GetU64(GetHandle(s).value.1).value.1, 8).value.1;
        U32IsCanonical(s3);
      } else if procedure == 17 {
        CookieCanonical(s);
        var s3 := GetFixed(GetU64(GetHandle(s).value.1).value.1, 8).value.1;
        U32IsCanonical(s3);
        U32IsCanonical(GetU32(s3).value.1);
      }
    }
  }

  lemma GetCanonical(procedure: u32, s: seq<byte>, limit: nat)
    ensures Canonical(procedure, s, limit)
  {
    if procedure in {1, 4, 5, 6, 18, 19, 20, 21} {
      HandleProceduresCanonical(procedure, s, limit);
    } else if procedure in {3, 9, 12, 13, 14, 15} {
      TargetProceduresCanonical(procedure, s, limit);
    } else if procedure in {2, 7, 8, 10, 11} {
      MakingProceduresCanonical(procedure, s, limit);
    } else if procedure in {16, 17} {
      ListingProceduresCanonical(procedure, s, limit);
    } else {
      hide GetHandle, GetTarget, GetAttributes, GetWrite, GetHow, GetNode;
    }
  }

  /** For each procedure, `decode` succeeds with a value exactly on the one XDR
      encoding of that value within the field limits. */
  lemma DecodeIsCanonical(procedure: u32, input: seq<byte>, limit: nat, a: NfsArguments)
    ensures Decode(procedure, input, limit) == Ok(a) <==>
            Procedure(a) == procedure && Fits(a, limit) && input == Encode(a, limit)
  {
    GetCanonical(procedure, input, limit);
    if Fits(a, limit) {
      GetBack(a, limit, []);
    }
    hide Get, Put, Fits, Procedure;
  }

  /** Two inputs that decode to the same arguments are the same input. */
  lemma DecodeIsInjective(procedure: u32, x: seq<byte>, y: seq<byte>, limit: nat)
    requires Decode(procedure, x, limit).Ok? && Decode(procedure, x, limit) == Decode(procedure, y, limit)
    ensures x == y
  {
    hide Decode, Fits, Procedure, Encode;
    var a := Decode(procedure, x, limit).value;
    DecodeIsCanonical(procedure, x, limit, a);
    DecodeIsCanonical(procedure, y, limit, a);
  }
}
