/** An RPC call as it arrives (RFC 5531, src/server/connection.rs), and the largest one
    the limits must let in. */
module Calls {
  import opened Sequences
  import opened BigEndian
  import opened Xdr
  import opened XdrItems
  import opened Arguments
  import opened ArgumentsCanonical
  import opened Decoding
  import opened Principals
  import Limits
  import RecordFormat

  const MAX_CREDENTIAL: nat := 400
  const PORTMAP_PROGRAM: u32 := 100000

  datatype AuthPolicy = OnlyAuthSys | OnlyAnonymous | Either

  datatype Call = Call(xid: u32, program: u32, version: u32, procedure: u32, flavor: u32, credential: seq<byte>)

  /** RPC version 2, an AUTH_NONE verifier, and `arguments` after the header. */
  function PutCall(c: Call, arguments: seq<byte>): (s: seq<byte>)
    requires |c.credential| <= MAX_CREDENTIAL
    ensures |s| <= Limits.MAX_VALID_RPC_CALL_PREFIX_SIZE + |arguments|
    ensures |c.credential| == MAX_CREDENTIAL ==> |s| == Limits.MAX_VALID_RPC_CALL_PREFIX_SIZE + |arguments|
  {
    PutHeader(Header(c, 0, 2, 0, []), arguments)
  }

  datatype Header = Header(call: Call, messageType: u32, rpcVersion: u32, verifierFlavor: u32, verifier: seq<byte>)

  function PutHeader(h: Header, arguments: seq<byte>): (s: seq<byte>)
    requires |h.call.credential| <= MAX_CREDENTIAL && |h.verifier| <= MAX_CREDENTIAL
    ensures |s| == 32 + OpaqueSize(|h.call.credential|) + OpaqueSize(|h.verifier|) + |arguments|
  {
    PutU32(h.call.xid, PutU32(h.messageType, PutU32(h.rpcVersion, PutU32(h.call.program, PutU32(h.call.version,
      PutU32(h.call.procedure, PutU32(h.call.flavor, PutOpaque(h.call.credential,
        PutU32(h.verifierFlavor, PutOpaque(h.verifier, arguments))))))))))
  }

  function GetHeader(record: seq<byte>): Parsed<Header> {
    var (xid, s1) :- GetU32(record);
    var (messageType, s2) :- GetU32(s1);
    var (rpcVersion, s3) :- GetU32(s2);
    var (program, s4) :- GetU32(s3);
    var (version, s5) :- GetU32(s4);
    var (procedure, s6) :- GetU32(s5);
    var (flavor, s7) :- GetU32(s6);
    var (credential, s8) :- GetOpaque(s7, "RPC credential", MAX_CREDENTIAL);
    var (verifierFlavor, s9) :- GetU32(s8);
    var (verifier, s10) :- GetOpaque(s9, "RPC verifier", MAX_CREDENTIAL);
    Ok((Header(Call(xid, program, version, procedure, flavor, credential), messageType, rpcVersion,
               verifierFlavor, verifier), s10))
  }

  /** Refusals carry the RPC authentication status. */
  datatype Received =
    | Received(call: Call, principal: Principal, arguments: seq<byte>)
    | AuthError(status: u32)
    | VersionMismatch
    | Malformed

  predicate Allowed(policy: AuthPolicy, program: u32, p: Principal) {
    || program == PORTMAP_PROGRAM
    || policy.Either?
    || (policy.OnlyAuthSys? && p.AuthSys?)
    || (policy.OnlyAnonymous? && p.Anonymous?)
  }

  /** What the dispatcher makes of a record. A record that does not parse and a message that
      is no call end the same way, in a bare error reply. */
  function GetCall(record: seq<byte>, policy: AuthPolicy): Received {
    match GetHeader(record)
    case Err(_) => Malformed
    case Ok(parsed) =>
      var (h, rest) := parsed;
      if h.messageType != 0 then Malformed
      else if h.verifierFlavor != AUTH_NONE || h.verifier != [] then AuthError(3)
      else
        match DecodePrincipal(h.call.flavor, h.call.credential)
        case Err(_) => AuthError(1)
        case Ok(p) =>
          if h.rpcVersion != 2 then VersionMismatch
          else if !Allowed(policy, h.call.program, p) then AuthError(5)
          else Received(h.call, p, rest)
  }

  lemma HeaderBack(h: Header, arguments: seq<byte>)
    requires |h.call.credential| <= MAX_CREDENTIAL && |h.verifier| <= MAX_CREDENTIAL
    ensures GetHeader(PutHeader(h, arguments)) == Ok((h, arguments))
  {
    hide PutU32, GetU32, PutOpaque, GetOpaque;
    var c := h.call;
    var s9 := PutOpaque(h.verifier, arguments);
    var s8 := PutU32(h.verifierFlavor, s9);
    var s7 := PutOpaque(c.credential, s8);
    var s6 := PutU32(c.flavor, s7);
    var s5 := PutU32(c.procedure, s6);
    var s4 := PutU32(c.version, s5);
    var s3 := PutU32(c.program, s4);
    var s2 := PutU32(h.rpcVersion, s3);
    var s1 := PutU32(h.messageType, s2);
    ReadU32Back(c.xid, s1);
    ReadU32Back(h.messageType, s2);
    ReadU32Back(h.rpcVersion, s3);
    ReadU32Back(c.program, s4);
    ReadU32Back(c.version, s5);
    ReadU32Back(c.procedure, s6);
    ReadU32Back(c.flavor, s7);
    ReadOpaqueBack(c.credential, s8, "RPC credential", MAX_CREDENTIAL);
    ReadU32Back(h.verifierFlavor, s9);
    ReadOpaqueBack(h.verifier, arguments, "RPC verifier", MAX_CREDENTIAL);
  }

  lemma HeaderCanonical(record: seq<byte>)
    requires GetHeader(record).Ok?
    ensures var (h, rest) := GetHeader(record).value;
            && |h.call.credential| <= MAX_CREDENTIAL && |h.verifier| <= MAX_CREDENTIAL
            && record == PutHeader(h, rest)
  {
    hide PutU32, GetU32, PutOpaque, GetOpaque;
    U32IsCanonical(record);
    var s1 := GetU32(record).value.1;
    U32IsCanonical(s1);
    var s2 := GetU32(s1).value.1;
    U32IsCanonical(s2);
    var s3 := GetU32(s2).value.1;
    U32IsCanonical(s3);
    var s4 := GetU32(s3).value.1;
    U32IsCanonical(s4);
    var s5 := GetU32(s4).value.1;
    U32IsCanonical(s5);
    var s6 := GetU32(s5).value.1;
    U32IsCanonical(s6);
    var s7 := GetU32(s6).value.1;
    OpaqueIsCanonical(s7, "RPC credential", MAX_CREDENTIAL);
    var s8 := GetOpaque(s7, "RPC credential", MAX_CREDENTIAL).value.1;
    U32IsCanonical(s8);
    OpaqueIsCanonical(GetU32(s8).value.1, "RPC verifier", MAX_CREDENTIAL);
  }

  /** A call goes on to the replay cache exactly when the record is the one encoding of a
      version 2 call with an empty verifier, and its credential names a principal that the
      policy admits. */
  lemma CallIsCanonical(record: seq<byte>, policy: AuthPolicy, c: Call, p: Principal, arguments: seq<byte>)
    ensures GetCall(record, policy) == Received(c, p, arguments) <==>
            && |c.credential| <= MAX_CREDENTIAL && record == PutCall(c, arguments)
            && DecodePrincipal(c.flavor, c.credential) == Ok(p) && Allowed(policy, c.program, p)
  {
    hide GetHeader, PutHeader, DecodePrincipal, Allowed;
    if GetHeader(record).Ok? {
      HeaderCanonical(record);
    }
    if |c.credential| <= MAX_CREDENTIAL {
      HeaderBack(Header(c, 0, 2, 0, []), arguments);
    }
  }

  /** The call header of RFC 5531, section 9. */
  function HeaderItems(h: Header): seq<Item> {
    [Word(h.call.xid), Word(h.messageType), Word(h.rpcVersion), Word(h.call.program), Word(h.call.version)]
    + [Word(h.call.procedure), Word(h.call.flavor), Counted(h.call.credential), Word(h.verifierFlavor), Counted(h.verifier)]
  }

  /** A header is those fields in that order, in front of the arguments. */
  lemma HeaderLayout(h: Header, arguments: seq<byte>)
    requires |h.call.credential| <= MAX_CREDENTIAL && |h.verifier| <= MAX_CREDENTIAL
    ensures AllFit(HeaderItems(h)) && PutHeader(h, arguments) == Flat(HeaderItems(h)) + arguments
  {
    hide Flat, PutU32, PutOpaque, AllFit;
    var c := h.call;
    Five(Word(c.procedure), Word(c.flavor), Counted(c.credential), Word(h.verifierFlavor), Counted(h.verifier), arguments);
    var tail := PutU32(c.procedure, PutU32(c.flavor, PutOpaque(c.credential, PutU32(h.verifierFlavor,
      PutOpaque(h.verifier, arguments)))));
    Five(Word(c.xid), Word(h.messageType), Word(h.rpcVersion), Word(c.program), Word(c.version), tail);
    Join([Word(c.xid), Word(h.messageType), Word(h.rpcVersion), Word(c.program), Word(c.version)],
         [Word(c.procedure), Word(c.flavor), Counted(c.credential), Word(h.verifierFlavor), Counted(h.verifier)], arguments);
  }

  /** The credential is an AUTH_SYS principal within the limits, under some stamp. */
  ghost predicate IsAuthSys(flavor: u32, credential: seq<byte>, p: Principal) {
    flavor == 1 && p.AuthSys? && PrincipalFits(p) && exists stamp: u32 :: credential == PutAuthSys(stamp, p, [])
  }

  /** The credential is empty and of flavor AUTH_NONE. */
  ghost predicate IsAnonymous(flavor: u32, credential: seq<byte>, p: Principal) {
    flavor == 0 && credential == [] && p == Anonymous
  }

  lemma CredentialIsEither(flavor: u32, credential: seq<byte>, p: Principal)
    ensures DecodePrincipal(flavor, credential) == Ok(p) <==>
            IsAuthSys(flavor, credential, p) || IsAnonymous(flavor, credential, p)
  {
    hide DecodePrincipal, PutAuthSys;
    PrincipalIsCanonical(flavor, credential, p);
  }

  /** Who a policy lets in, for any program but the port mapper: AUTH_SYS admits principals
      with an AUTH_SYS credential only, the anonymous policy those with an empty AUTH_NONE
      one only, and the mixed policy both. The port mapper admits both under any policy. */
  lemma PolicyIsEnforced(policy: AuthPolicy, c: Call, arguments: seq<byte>, p: Principal)
    requires |c.credential| <= MAX_CREDENTIAL
    ensures var admitted := GetCall(PutCall(c, arguments), policy) == Received(c, p, arguments);
            var authSys, anonymous := IsAuthSys(c.flavor, c.credential, p), IsAnonymous(c.flavor, c.credential, p);
            && (c.program != 100000 && policy == OnlyAuthSys ==> (admitted <==> authSys))
            && (c.program != 100000 && policy == OnlyAnonymous ==> (admitted <==> anonymous))
            && (c.program == 100000 || policy == Either ==> (admitted <==> authSys || anonymous))
  {
    hide GetCall, PutCall, DecodePrincipal, IsAuthSys, PutAuthSys;
    CallIsCanonical(PutCall(c, arguments), policy, c, p, arguments);
    CredentialIsEither(c.flavor, c.credential, p);
    AuthSysKind(c.flavor, c.credential, p);
  }

  lemma AuthSysKind(flavor: u32, credential: seq<byte>, p: Principal)
    ensures IsAuthSys(flavor, credential, p) ==> p.AuthSys?
  {
    hide PutAuthSys;
  }

  ghost predicate HasHeader(record: seq<byte>, h: Header, arguments: seq<byte>) {
    |h.call.credential| <= MAX_CREDENTIAL && |h.verifier| <= MAX_CREDENTIAL && record == PutHeader(h, arguments)
  }

  /** Which refusal every other record gets, in the order of the checks: no reply but a bare
      error for what is no call at all, AUTH_BADVERF for a verifier that is not empty,
      AUTH_BADCRED for a credential of neither kind, a mismatch for another RPC version, and
      AUTH_TOOWEAK for a principal that the policy does not admit. */
  lemma EveryRefusal(record: seq<byte>, policy: AuthPolicy, h: Header, arguments: seq<byte>)
    requires HasHeader(record, h, arguments)
    ensures var r := GetCall(record, policy);
            var known := exists p :: IsAuthSys(h.call.flavor, h.call.credential, p)
                                     || IsAnonymous(h.call.flavor, h.call.credential, p);
            if h.messageType != 0 then r == Malformed
            else if h.verifierFlavor != 0 || h.verifier != [] then r == AuthError(3)
            else if !known then r == AuthError(1)
            else if h.rpcVersion != 2 then r == VersionMismatch
            else r == AuthError(5) || (r.Received? && r.call == h.call && r.arguments == arguments)
  {
    hide GetHeader, PutHeader, DecodePrincipal, Allowed, IsAuthSys, IsAnonymous;
    HeaderBack(h, arguments);
    var d := DecodePrincipal(h.call.flavor, h.call.credential);
    if d.Ok? {
      CredentialIsEither(h.call.flavor, h.call.credential, d.value);
    } else {
      forall p
        ensures !IsAuthSys(h.call.flavor, h.call.credential, p) && !IsAnonymous(h.call.flavor, h.call.credential, p)
      {
        CredentialIsEither(h.call.flavor, h.call.credential, p);
      }
    }
  }

  /** Any other answer than that to a malformed record goes to a header followed by arguments. */
  lemma OnlyHeadersAreAnswered(record: seq<byte>, policy: AuthPolicy)
    ensures GetCall(record, policy) != Malformed ==> exists h, arguments :: HasHeader(record, h, arguments)
  {
    hide GetHeader, PutHeader, DecodePrincipal, Allowed;
    if GetHeader(record).Ok? {
      HeaderCanonical(record);
      assert HasHeader(record, GetHeader(record).value.0, GetHeader(record).value.1);
    }
  }

  method ReadHeader(record: seq<byte>) returns (r: Decoded<(Header, seq<byte>)>)
    ensures match GetHeader(record)
            case Ok(parsed) => if parsed.0.messageType == 0 then r == Ok(parsed) else r.Err?
            case Err(_) => r.Err?
  {
    hide GetU32, GetOpaque;
    var d := new Decoder(record);
    var xid :- d.ReadU32();
    var messageType :- d.ReadU32();
    if messageType != 0 {
      return Err(InvalidDiscriminant("RPC message", messageType));
    }
    var rpcVersion :- d.ReadU32();
    var program :- d.ReadU32();
    var version :- d.ReadU32();
    var procedure :- d.ReadU32();
    var flavor :- d.ReadU32();
    var credential :- d.ReadOpaqueSlice("RPC credential", MAX_CREDENTIAL);
    var verifierFlavor :- d.ReadU32();
    var verifier :- d.ReadOpaqueSlice("RPC verifier", MAX_CREDENTIAL);
    var header := Header(Call(xid, program, version, procedure, flavor, credential), messageType, rpcVersion,
                         verifierFlavor, verifier);
    return Ok((header, record[d.position..]));
  }

  /** The dispatcher up to the replay cache. */
  method ReceiveCall(record: seq<byte>, policy: AuthPolicy) returns (r: Received)
    ensures r == GetCall(record, policy)
  {
    hide GetHeader, DecodePrincipal, Allowed;
    var parsed := ReadHeader(record);
    if parsed.Err? {
      return Malformed;
    }
    var (h, arguments) := parsed.value;
    if h.verifierFlavor != AUTH_NONE || h.verifier != [] {
      return AuthError(3);
    }
    var principal := DecodeCredential(h.call.flavor, h.call.credential);
    if principal.Err? {
      return AuthError(1);
    }
    if h.rpcVersion != 2 {
      return VersionMismatch;
    }
    if !Allowed(policy, h.call.program, principal.value) {
      return AuthError(5);
    }
    return Received(h.call, principal.value, arguments);
  }

  /** The argument overhead of a WRITE call, attained with a full handle and three bytes of
      padding. */
  lemma WriteSize(w: WriteArgs)
    requires |w.handle| <= MAX_HANDLE && |w.data| < U32_BOUND
    ensures |PutWrite(w, [])| <= Limits.WRITE_ARGUMENT_FIXED_SIZE + |w.data| + 3
    ensures |w.handle| == MAX_HANDLE && |w.data| % 4 == 1 ==>
              |PutWrite(w, [])| == Limits.WRITE_ARGUMENT_FIXED_SIZE + |w.data| + 3
  {
    hide PutU32, PutU64, PutOpaque;
  }

  /** A WRITE call with the largest credential, handle and data the limits advertise fits
      one record. Sent with any framing by the same rules, it is read back whole with the
      following bytes untouched, its header is recovered for any principal that the policy
      admits, and its arguments decode to the original request. */
  lemma FullWriteArrives(l: Limits.ServerLimits, policy: AuthPolicy, c: Call, w: WriteArgs, rest: seq<byte>)
    requires Limits.Validate(l).None?
    requires |c.credential| <= MAX_CREDENTIAL && c.procedure == 7
    requires |w.handle| <= MAX_HANDLE && |w.data| <= l.maxWriteSize
    ensures Fits(Write(w), l.maxRpcRecordSize)
    ensures var record := PutCall(c, Encode(Write(w), l.maxRpcRecordSize));
            && Limits.Carries(l, |record|)
            && RecordFormat.Writable(|record|, l.maxRpcFragmentSize)
            && RecordFormat.Parse(RecordFormat.Frames(record, l.maxRpcFragmentSize) + rest, Limits.Transport(l), [], 0)
               == RecordFormat.Ok((record, rest))
            && (forall p :: DecodePrincipal(c.flavor, c.credential) == Ok(p) && Allowed(policy, c.program, p) ==>
                  GetCall(record, policy) == Received(c, p, Encode(Write(w), l.maxRpcRecordSize)))
            && Decode(c.procedure, Encode(Write(w), l.maxRpcRecordSize), l.maxRpcRecordSize) == Ok(Write(w))
  {
    hide Limits.Validate, RecordFormat.ValidateRecordLength, RecordFormat.Parse, RecordFormat.Frames;
    hide PutCall, GetCall, Decode, PutWrite, DecodePrincipal, Allowed;
    Limits.ValidateIsAdequacy(l);
    RecordFormat.ValidateIsExact(l.maxWriteSize + Limits.MAXIMUM_WRITE_RECORD_OVERHEAD, Limits.Transport(l));
    var arguments := Encode(Write(w), l.maxRpcRecordSize);
    WriteSize(w);
    var record := PutCall(c, arguments);
    Limits.CarriesShorter(l, l.maxWriteSize + Limits.MAXIMUM_WRITE_RECORD_OVERHEAD, |record|);
    RecordFormat.RecordRoundTrip(record, rest, Limits.Transport(l));
    forall p | DecodePrincipal(c.flavor, c.credential) == Ok(p) && Allowed(policy, c.program, p)
      ensures GetCall(record, policy) == Received(c, p, arguments)
    {
      CallIsCanonical(record, policy, c, p, arguments);
    }
    DecodeIsCanonical(7, arguments, l.maxRpcRecordSize, Write(w));
  }
}
