/** One checkpoint record of SPEC 6.5.1: its members, its bytes, and the check of one record. */
module Record {
  import opened Bytes
  import opened Wrappers
  import opened Wire

  /** The longest record either side reads. */
  const RECORD_CAP: nat := 0x10_0000

  const CHECKPOINT: string := "checkpoint"
  const CLOSE_KIND: string := "close"
  const RESUME: string := "resume"
  const ALG: string := "ES256"
  const KEY_EXPIRED: string := "key_expired"

  /** The members of a record before its signature. */
  datatype Fields = Fields(
    kind: string, stream: string, count: int, head: string, prefix: string, at: string, prev: string)

  datatype Record = Signed(fields: Fields, kid: string, sig: Bytes) | Unsigned(fields: Fields)

  /** A record as read: each member that is there and has its type. */
  datatype Members = Members(
    v: Option<int>, kind: Option<string>, stream: Option<string>, count: Option<int>, head: Option<string>,
    prefix: Option<string>, at: Option<string>, prev: Option<string>,
    alg: Option<string>, kid: Option<string>, sig: Option<string>, reason: Option<string>)

  datatype View = NotObject | NotCanonical | WrongType | Object(members: Members)

  type Key = Bytes

  /** JCS over a record, base64url, and ECDSA P-256 verification. */
  datatype Notary = Notary(
    encode: Record -> Bytes,
    input: (Fields, string) -> Bytes,
    view: Bytes -> View,
    peek: Bytes -> (string, int),
    withoutSig: Bytes -> Option<Bytes>,
    base64: Bytes -> string,
    unbase64: string -> Option<Bytes>,
    verifies: (Key, Bytes, Bytes) -> bool)

  function Encode(n: Notary, r: Record): Bytes { n.encode(r) }
  function SigningInput(n: Notary, f: Fields, kid: string): Bytes { n.input(f, kid) }
  function ViewOf(n: Notary, raw: Bytes): View { n.view(raw) }
  function Peek(n: Notary, raw: Bytes): (string, int) { n.peek(raw) }
  function WithoutSig(n: Notary, raw: Bytes): Option<Bytes> { n.withoutSig(raw) }
  function Base64(n: Notary, b: Bytes): string { n.base64(b) }
  function Unbase64(n: Notary, s: string): Option<Bytes> { n.unbase64(s) }
  predicate Verifies(n: Notary, key: Key, input: Bytes, sig: Bytes) { n.verifies(key, input, sig) }

  /** What a verifier must read back out of a record. */
  function MembersOf(n: Notary, r: Record): Members {
    var f := r.fields;
    Members(Some(1), Some(f.kind), Some(f.stream), Some(f.count), Some(f.head), Some(f.prefix), Some(f.at),
        Some(f.prev),
            if r.Signed? then Some(ALG) else None,
            if r.Signed? then Some(r.kid) else None,
            if r.Signed? then Some(Base64(n, r.sig)) else None,
            if r.Signed? then None else Some(KEY_EXPIRED))
  }

  /** The greatest count that every reader of JSON numbers reads back: RFC 8785 writes numbers as 64-bit floats. */
  const MAX_COUNT: int := 0x20_0000_0000_0000

  /** The records a round trip is promised for. */
  predicate Recordable(r: Record) { 0 <= r.fields.count <= MAX_COUNT }

  ghost predicate NotaryLaws(n: Notary) {
    // a record is one non-empty line
    && (forall r: Record :: Encode(n, r) != [] && LF !in Encode(n, r))
    // it is canonical, and its members read back
    && (forall r: Record :: Recordable(r) ==> ViewOf(n, Encode(n, r)) == Object(MembersOf(n, r)))
    // removing sig from a signed record gives its signing input
    && (forall r: Record :: Recordable(r) && r.Signed? ==>
          WithoutSig(n, Encode(n, r)) == Some(SigningInput(n, r.fields, r.kid)))
    // base64url round trips
    && (forall b: Bytes :: Unbase64(n, Base64(n, b)) == Some(b))
    && PeekLaw(n)
  }

  /** Peeking at kind and count reads the same members as reading the record, whatever the bytes are. */
  ghost predicate PeekLaw(n: Notary) {
    forall raw: Bytes :: ViewOf(n, raw).Object? ==>
      var m := ViewOf(n, raw).members;
      && (m.count.Some? ==> Peek(n, raw).1 == m.count.value)
      && (m.kind.Some? ==> Peek(n, raw).0 == m.kind.value)
  }

  /** YYYY-MM-DDTHH:MM:SS.sssZ */
  predicate IsTimestamp(s: string) {
    && |s| == 24
    && (forall i | 0 <= i < 24 :: i !in {4, 7, 10, 13, 16, 19, 23} ==> '0' <= s[i] <= '9')
    && s[4] == '-' && s[7] == '-' && s[10] == 'T' && s[13] == ':' && s[16] == ':' && s[19] == '.' && s[23] == 'Z'
  }

  // ---------------------------------------------------------------- checkRecord

  datatype Refusal =
    | OverCap | NotAnObject | NonCanonical | BadType | BadMembers | BadVersion | BadKind | OtherStream | BadCount
    | Truncation | BadHead | NoHead | OtherHead | BadPrefix | OtherPrefix | OtherPrev | BadAt
    | BadReason | BadAlg | BadSig | UnknownKey | NotSerializable | BadSignature

  datatype Verdict = Refused(why: Refusal) | Valid | UnsignedRecord

  function TextAt(m: map<int, string>, k: int): string { if k in m then m[k] else "" }
  function BytesAt(m: map<int, Bytes>, k: int): Bytes { if k in m then m[k] else [] }

  /** checkRecord: the first check the record fails, in order. */
  function CheckRecord(n: Notary, raw: Bytes, long: bool, lines: nat,
                       headAt: map<int, string>, prefixAt: map<int, Bytes>,
                       expectPrev: string, stream: string, keys: map<string, Key>): Verdict
  {
    if long then Refused(OverCap)
    else match ViewOf(n, raw)
      case NotObject => Refused(NotAnObject)
      case NotCanonical => Refused(NonCanonical)
      case WrongType => Refused(BadType)
      case Object(m) =>
        if !(m.v.Some? && m.kind.Some? && m.stream.Some? && m.count.Some?
             && m.head.Some? && m.prefix.Some? && m.at.Some? && m.prev.Some?) then Refused(BadMembers)
        else
          var signed := m.alg.Some? && m.kid.Some? && m.sig.Some? && m.reason.None?;
          var unsigned := m.alg.None? && m.kid.None? && m.sig.None? && m.reason.Some?;
          if !signed && !unsigned then Refused(BadMembers)
          else if m.v.value != 1 then Refused(BadVersion)
          else if m.kind.value != CHECKPOINT && m.kind.value != CLOSE_KIND && m.kind.value != RESUME
            then Refused(BadKind)
          else if m.stream.value != stream then Refused(OtherStream)
          else if m.count.value < 1 then Refused(BadCount)
          else if m.count.value > lines then Refused(Truncation)
          else
            var count := m.count.value;
            if !IsHashText(m.head.value) then Refused(BadHead)
            else if TextAt(headAt, count) == "" then Refused(NoHead)
            else if m.head.value != TextAt(headAt, count) then Refused(OtherHead)
            else if !IsHashText(m.prefix.value) then Refused(BadPrefix)
            else if m.prefix.value != HashText(BytesAt(prefixAt, count)) then Refused(OtherPrefix)
            else if m.prev.value != expectPrev then Refused(OtherPrev)
            else if !IsTimestamp(m.at.value) then Refused(BadAt)
            else if unsigned then
              if m.reason.value != KEY_EXPIRED then Refused(BadReason) else UnsignedRecord
            else CheckSignature(n, raw, m.alg.value, m.kid.value, m.sig.value, keys)
  }

  function CheckSignature(n: Notary, raw: Bytes, alg: string, kid: string, sig: string, keys: map<string, Key>)
    : Verdict
  {
    var bytes := Unbase64(n, sig);
    var input := WithoutSig(n, raw);
    if alg != ALG then Refused(BadAlg)
    else if bytes.None? || |bytes.value| != 64 then Refused(BadSig)
    else if kid !in keys then Refused(UnknownKey)
    else if input.None? then Refused(NotSerializable)
    else if !Verifies(n, keys[kid], input.value, bytes.value) then Refused(BadSignature)
    else Valid
  }

  /** Only the count-th head and prefix are ever looked up. */
  lemma CheckIsLocal(n: Notary, raw: Bytes, long: bool, lines: nat,
                     h1: map<int, string>, h2: map<int, string>, p1: map<int, Bytes>, p2: map<int, Bytes>,
                     expectPrev: string, stream: string, keys: map<string, Key>)
    requires PeekLaw(n)
    requires var c := Peek(n, raw).1;
             1 <= c <= lines ==> TextAt(h1, c) == TextAt(h2, c) && BytesAt(p1, c) == BytesAt(p2, c)
    ensures CheckRecord(n, raw, long, lines, h1, p1, expectPrev, stream, keys) ==
            CheckRecord(n, raw, long, lines, h2, p2, expectPrev, stream, keys)
  {
    hide IsHashText, IsTimestamp, HashText, CheckSignature;
  }
}
