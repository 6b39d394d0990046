/** RPC credentials (src/rpc/auth.rs; appendix A of RFC 5531): who a call comes from. */
module Principals {
  import opened Sequences
  import opened BigEndian
  import opened Xdr
  import opened XdrItems
  import opened Decoding

  const AUTH_NONE: u32 := 0
  const AUTH_SYS: u32 := 1
  const MAX_MACHINE_NAME: nat := 255
  const MAX_GROUPS: nat := 16

  datatype Principal = Anonymous | AuthSys(uid: u32, gid: u32, groups: seq<u32>, machine: seq<byte>)

  predicate PrincipalFits(p: Principal) {
    p.AuthSys? ==> |p.groups| <= MAX_GROUPS && |p.machine| <= MAX_MACHINE_NAME
  }

  // --------------------------------------------------------------------------- arrays

  function PutWords(words: seq<u32>, rest: seq<byte>): (s: seq<byte>)
    ensures |s| == 4 * |words| + |rest|
  {
    if words == [] then rest else PutU32(words[0], PutWords(words[1..], rest))
  }

  function GetWords(s: seq<byte>, count: nat): Parsed<seq<u32>> {
    if count == 0 then Ok(([], s))
    else
      var (word, s1) :- GetU32(s);
      var (words, s2) :- GetWords(s1, count - 1);
      Ok(([word] + words, s2))
  }

  function GetArray(s: seq<byte>, field: string, limit: nat): Parsed<seq<u32>> {
    var (length, s1) :- GetLength(s, field, limit);
    GetWords(s1, length)
  }

  lemma {:induction false} WordsBack(words: seq<u32>, rest: seq<byte>)
    ensures GetWords(PutWords(words, rest), |words|) == Ok((words, rest))
  {
    hide PutU32, GetU32;
    if words == [] {
    } else {
      ReadU32Back(words[0], PutWords(words[1..], rest));
      WordsBack(words[1..], rest);
      assert words == [words[0]] + words[1..];
    }
  }

  lemma {:induction false} WordsCanonical(s: seq<byte>, count: nat)
    requires GetWords(s, count).Ok?
    ensures |GetWords(s, count).value.0| == count
    ensures s == PutWords(GetWords(s, count).value.0, GetWords(s, count).value.1)
    decreases count
  {
    hide PutU32, GetU32;
    if count == 0 {
    } else {
      U32IsCanonical(s);
      var (word, s1) := GetU32(s).value;
      WordsCanonical(s1, count - 1);
      var words := GetWords(s1, count - 1).value.0;
      assert ([word] + words)[1..] == words;
    }
  }

  // ----------------------------------------------------------------------- credentials

  /** The body of an AUTH_SYS credential; the stamp carries no meaning. */
  function PutAuthSys(stamp: u32, p: Principal, rest: seq<byte>): seq<byte>
    requires p.AuthSys? && PrincipalFits(p)
  {
    PutU32(stamp, PutOpaque(p.machine, PutU32(p.uid, PutU32(p.gid, PutU32(|p.groups|, PutWords(p.groups, rest))))))
  }

  function GetAuthSys(s: seq<byte>): Parsed<(u32, Principal)> {
    var (stamp, s1) :- GetU32(s);
    var (machine, s2) :- GetOpaque(s1, "AUTH_SYS machine name", MAX_MACHINE_NAME);
    var (uid, s3) :- GetU32(s2);
    var (gid, s4) :- GetU32(s3);
    var (groups, s5) :- GetArray(s4, "AUTH_SYS groups", MAX_GROUPS);
    Ok(((stamp, AuthSys(uid, gid, groups, machine)), s5))
  }

  function DecodePrincipal(flavor: u32, body: seq<byte>): Decoded<Principal> {
    if flavor == AUTH_NONE then
      if body == [] then Ok(Anonymous) else Err(TrailingBytes)
    else if flavor == AUTH_SYS then
      var parsed :- Finish(GetAuthSys(body));
      Ok(parsed.1)
    else Err(InvalidDiscriminant("authentication flavor", flavor))
  }

  /** authsys_parms of RFC 5531, appendix A: stamp, machine name, uid, gid, gids. */
  function AuthSysItems(stamp: u32, p: Principal): seq<Item>
    requires p.AuthSys? && PrincipalFits(p)
  {
    [Word(stamp), Counted(p.machine), Word(p.uid), Word(p.gid), Word(|p.groups|)]
    + seq(|p.groups|, i requires 0 <= i < |p.groups| => Word(p.groups[i]))
  }

  lemma {:induction false} WordsLayout(words: seq<u32>, rest: seq<byte>)
    ensures var items := seq(|words|, i requires 0 <= i < |words| => Word(words[i]));
            AllFit(items) && Before(items, rest) == PutWords(words, rest)
  {
    hide Before, PutU32, AllFit;
    var items := seq(|words|, i requires 0 <= i < |words| => Word(words[i]));
    if words == [] {
      NothingInFront(rest);
    } else {
      var others := words[1..];
      var tail := seq(|others|, i requires 0 <= i < |others| => Word(others[i]));
      WordsLayout(others, rest);
      One(Word(words[0]), PutWords(others, rest));
      Join([Word(words[0])], tail, rest);
      assert items == [Word(words[0])] + tail;
    }
  }

  /** The body of an AUTH_SYS credential is those fields in that order. */
  lemma AuthSysLayout(stamp: u32, p: Principal)
    requires p.AuthSys? && PrincipalFits(p)
    ensures AllFit(AuthSysItems(stamp, p)) && PutAuthSys(stamp, p, []) == Flat(AuthSysItems(stamp, p))
  {
    hide Flat, PutU32, PutOpaque, PutWords, AllFit;
    var head := [Word(stamp), Counted(p.machine), Word(p.uid), Word(p.gid), Word(|p.groups|)];
    var tail := seq(|p.groups|, i requires 0 <= i < |p.groups| => Word(p.groups[i]));
    WordsLayout(p.groups, []);
    Five(Word(stamp), Counted(p.machine), Word(p.uid), Word(p.gid), Word(|p.groups|), PutWords(p.groups, []));
    Join(head, tail, []);
    assert Flat(AuthSysItems(stamp, p)) + [] == Flat(AuthSysItems(stamp, p));
  }

  lemma AuthSysBack(stamp: u32, p: Principal, rest: seq<byte>)
    requires p.AuthSys? && PrincipalFits(p)
    ensures GetAuthSys(PutAuthSys(stamp, p, rest)) == Ok(((stamp, p), rest))
  {
    hide PutU32, GetU32, PutOpaque, GetOpaque, PutWords, GetWords;
    var s4 := PutWords(p.groups, rest);
    var s3 := PutU32(|p.groups|, s4);
    var s2 := PutU32(p.gid, s3);
    var s1 := PutU32(p.uid, s2);
    ReadU32Back(stamp, PutOpaque(p.machine, s1));
    ReadOpaqueBack(p.machine, s1, "AUTH_SYS machine name", MAX_MACHINE_NAME);
    ReadU32Back(p.uid, s2);
    ReadU32Back(p.gid, s3);
    ReadU32Back(|p.groups|, s4);
    WordsBack(p.groups, rest);
  }

  lemma AuthSysCanonical(s: seq<byte>)
    requires GetAuthSys(s).Ok?
    ensures var ((stamp, p), rest) := GetAuthSys(s).value;
            p.AuthSys? && PrincipalFits(p) && s == PutAuthSys(stamp, p, rest)
  {
    hide PutU32, GetU32, PutOpaque, GetOpaque, PutWords, GetWords;
    U32IsCanonical(s);
    var s1 := GetU32(s).value.1;
    OpaqueIsCanonical(s1, "AUTH_SYS machine name", MAX_MACHINE_NAME);
    var s2 := GetOpaque(s1, "AUTH_SYS machine name", MAX_MACHINE_NAME).value.1;
    U32IsCanonical(s2);
    var s3 := GetU32(s2).value.1;
    U32IsCanonical(s3);
    var s4 := GetU32(s3).value.1;
    U32IsCanonical(s4);
    WordsCanonical(GetU32(s4).value.1, GetU32(s4).value.0);
  }

  /** A credential is accepted exactly when it is an empty AUTH_NONE body, or the XDR
      encoding of an AUTH_SYS principal within the limits under some stamp. */
  lemma PrincipalIsCanonical(flavor: u32, body: seq<byte>, p: Principal)
    ensures DecodePrincipal(flavor, body) == Ok(p) <==>
            || (flavor == AUTH_NONE && body == [] && p == Anonymous)
            || (flavor == AUTH_SYS && p.AuthSys? && PrincipalFits(p)
                && exists stamp: u32 :: body == PutAuthSys(stamp, p, []))
  {
    hide GetAuthSys, PutAuthSys;
    if flavor == AUTH_SYS {
      if DecodePrincipal(flavor, body) == Ok(p) {
        AuthSysCanonical(body);
        assert body == PutAuthSys(GetAuthSys(body).value.0.0, p, []);
      }
      if p.AuthSys? && PrincipalFits(p) {
        forall stamp: u32
          ensures GetAuthSys(PutAuthSys(stamp, p, [])) == Ok(((stamp, p), []))
        {
          AuthSysBack(stamp, p, []);
        }
      }
    }
  }

  // ---------------------------------------------------------------------- the decoder

  /** `read_array` for words: a bounded length, then that many elements. */
  method ReadWords(d: Decoder, field: string, limit: nat) returns (r: Decoded<seq<u32>>)
    requires d.Valid()
    modifies d`position
    ensures d.Valid() && Agrees(GetArray(old(d.Remaining()), field, limit), r, d.Remaining())
  {
    hide GetLength, GetU32;
    var length :- d.ReadLength(field, limit);
    ghost var start := d.Remaining();
    var words: seq<u32> := [];
    AfterNothing(GetWords(start, length));
    while |words| < length
      invariant |words| <= length
      invariant d.Valid()
      invariant GetWords(start, length) == After(words, GetWords(d.Remaining(), length - |words|))
    {
      AfterOne(words, d.Remaining(), length - |words|);
      var word :- d.ReadU32();
      words := words + [word];
    }
    assert words + [] == words;
    return Ok(words);
  }

  /** A parse continued after `done` has been read. */
  function After(done: seq<u32>, p: Parsed<seq<u32>>): Parsed<seq<u32>> {
    match p
    case Ok(parsed) => Ok((done + parsed.0, parsed.1))
    case Err(e) => Err(e)
  }

  lemma AfterNothing(p: Parsed<seq<u32>>)
    ensures After([], p) == p
  {
    if p.Ok? {
      assert [] + p.value.0 == p.value.0;
    }
  }

  lemma AfterOne(done: seq<u32>, s: seq<byte>, count: nat)
    requires count > 0
    ensures After(done, GetWords(s, count)) ==
            match GetU32(s)
            case Ok(parsed) => After(done + [parsed.0], GetWords(parsed.1, count - 1))
            case Err(e) => Err(e)
  {
    hide GetU32;
    if GetU32(s).Ok? && GetWords(GetU32(s).value.1, count - 1).Ok? {
      var (word, s1) := GetU32(s).value;
      var words := GetWords(s1, count - 1).value.0;
      assert done + ([word] + words) == (done + [word]) + words;
    }
  }

  method DecodeCredential(flavor: u32, body: seq<byte>) returns (r: Decoded<Principal>)
    ensures r == DecodePrincipal(flavor, body)
  {
    hide GetU32, GetOpaque, GetArray;
    if flavor == AUTH_NONE {
      return if body == [] then Ok(Anonymous) else Err(TrailingBytes);
    } else if flavor == AUTH_SYS {
      var d := new Decoder(body);
      var _ :- d.ReadU32();
      var machine :- d.ReadOpaque("AUTH_SYS machine name", MAX_MACHINE_NAME);
      var uid :- d.ReadU32();
      var gid :- d.ReadU32();
      var groups :- ReadWords(d, "AUTH_SYS groups", MAX_GROUPS);
      var _ :- d.Finish();
      return Ok(AuthSys(uid, gid, groups, machine));
    } else {
      return Err(InvalidDiscriminant("authentication flavor", flavor));
    }
  }
}
