/** What a verified token says: the claims as decoded JSON, and how each is read. */
module Claims {
  import opened Wrappers
  import opened Clock

  datatype Json =
    | Null
    | Bool(b: bool)
    | Number(x: real)
    | Text(s: string)
    | List(items: seq<Json>)
    | Object(members: map<string, Json>)

  type ClaimSet = map<string, Json>

  /** Why the bytes of a token are not signed by a key of the verifier's set. */
  datatype Unsigned = BadSignature | NoKid | UnknownKid | AlgNotAllowed

  /** Every refusal a verifier of this package gives. A proof's own reason is wrapped. */
  datatype Refusal =
    | NoKey | Private | Signature | Binding | Stale | Replay | CacheFull
    | Expired | NotYetValid | Issuer | Audience | NotBound | WrongKey(cause: Option<Refusal>) | OtherToken
    | Revoked | NoProof | Malformed | NotConfigured | NotSigned(why: Unsigned)

  /** A nested act claim as decoded: an object has a sub, empty if it names none. */
  datatype Nested = Nested(sub: string, act: Option<Nested>)

  function Subs(n: Nested): seq<string> {
    [n.sub] + if n.act.Some? then Subs(n.act.value) else []
  }

  /** What the libraries beneath decide: URL comparison, the decoding of act, and a float too large for an int64. */
  datatype Libraries = Libraries(
    sameUrl: (string, string) -> bool,
    decodeAct: Json -> Option<Nested>,
    overflow: real -> Int64)

  /** The bytes of a text in UTF-8, which is how the length of a string is counted. */
  function Utf8Length(s: string): (n: nat)
    ensures |s| <= n <= 4 * |s|
  {
    if s == "" then 0
    else
      var c := s[0] as int;
      (if c < 0x80 then 1 else if c < 0x800 then 2 else if c < 0x1_0000 then 3 else 4) + Utf8Length(s[1..])
  }

  /** A claim that is absent reads as null. */
  function Claim(claims: ClaimSet, name: string): Json {
    if name in claims then claims[name] else Null
  }

  /** A claim read as a string: empty when it is anything else. */
  function TextOf(claims: ClaimSet, name: string): string {
    var c := Claim(claims, name);
    if c.Text? then c.s else ""
  }

  /** Absent is empty; anything but a string cannot be read. */
  function OptionalText(claims: ClaimSet, name: string): Option<string> {
    if name !in claims then Some("") else if claims[name].Text? then Some(claims[name].s) else None
  }

  /** cnf.jkt, section 6 of RFC 9449. */
  function ConfirmationKey(claims: ClaimSet): string {
    var cnf := Claim(claims, "cnf");
    if cnf.Object? then TextOf(cnf.members, "jkt") else ""
  }

  /** aud is the wanted string, or a list that has it. */
  predicate Names(aud: Json, want: string) {
    aud == Text(want) || (aud.List? && Text(want) in aud.items)
  }

  method AudienceHas(aud: Json, want: string) returns (has: bool)
    ensures has <==> Names(aud, want)
  {
    match aud
    case Text(s) => return s == want;
    case List(items) =>
      for i := 0 to |items|
        invariant Text(want) !in items[..i]
      {
        if items[i].Text? && items[i].s == want {
          return true;
        }
      }
      assert items[..|items|] == items;
      return false;
    case _ => return false;
  }

  /** A JSON number with no fraction that fits in 64 bits, and nothing else. */
  function WholeSecond(v: Json): (n: Option<Int64>)
    ensures n.Some? ==> v == Number(n.value as real)
    ensures forall k: Int64 :: v == Number(k as real) ==> n == Some(k)
  {
    if !v.Number? || v.x != v.x.Floor as real || v.x < MIN64 as real || v.x >= (MAX64 + 1) as real then None
    else Some(v.x.Floor)
  }

  /** Any number, cut toward zero: up from below it, down from above, by less than one. */
  function AsUnix(lib: Libraries, v: Json): (n: Option<Int64>)
    ensures n.Some? <==> v.Number?
    ensures forall k: Int64 :: v == Number(k as real) ==> n == Some(k)
    ensures v.Number? && 0.0 <= v.x < (MAX64 + 1) as real ==> n.value as real <= v.x < (n.value + 1) as real
    ensures v.Number? && (MIN64 - 1) as real < v.x < 0.0 ==> (n.value - 1) as real < v.x <= n.value as real
  {
    if !v.Number? then None
    else
      var cut := if v.x >= 0.0 then v.x.Floor else -((-v.x).Floor);
      if MIN64 <= cut <= MAX64 then Some(cut) else Some(lib.overflow(v.x))
  }

  // ---------------------------------------------------------------- tokens

  /** A token as its libraries read it under the verifier's keys: the header's typ, the claims if the signature
      holds, and the hash section 4.2 of RFC 9449 asks of a proof. */
  datatype Token = Token(typ: Option<string>, claims: Result<ClaimSet, Unsigned>, hash: string)

  const AGENT_TOKEN_TYP: string := "at+jwt"

  predicate IsAgentToken(t: Token) { t.typ == Some(AGENT_TOKEN_TYP) }

  // ---------------------------------------------------------------- the order of refusals

  /** One check of a verifier and the refusal it gives. A verifier's refusals are a list of these, in order. */
  datatype Check = Check(ok: bool, refusal: Refusal)

  predicate AllPass(checks: seq<Check>) { forall k | 0 <= k < |checks| :: checks[k].ok }

  predicate FailsFirst(checks: seq<Check>, k: nat) {
    k < |checks| && !checks[k].ok && forall j | 0 <= j < k :: checks[j].ok
  }

  /** The refusal is that of the first check that fails. */
  ghost predicate RefusedBy(checks: seq<Check>, e: Refusal) {
    exists k: nat :: FailsFirst(checks, k) && checks[k].refusal == e
  }

  lemma RefusedOnce(checks: seq<Check>, e: Refusal, f: Refusal)
    requires RefusedBy(checks, e)
    ensures !AllPass(checks)
    ensures RefusedBy(checks, f) ==> e == f
  {
  }

  /** The first failing check gives the one refusal there is. */
  lemma RefusedOnly(checks: seq<Check>, k: nat)
    requires FailsFirst(checks, k)
    ensures forall e :: RefusedBy(checks, e) <==> e == checks[k].refusal
  {
  }

  lemma NeverRefused(checks: seq<Check>)
    requires AllPass(checks)
    ensures forall e :: !RefusedBy(checks, e)
  {
  }

  lemma EachPasses(l: seq<Check>)
    requires AllPass(l)
    ensures forall k | 0 <= k < |l| :: l[k].ok
  {
  }

  lemma FirstFailing(l: seq<Check>) returns (k: nat)
    requires !AllPass(l)
    ensures FailsFirst(l, k)
  {
    k := 0;
    while l[k].ok
      invariant k < |l| && forall j | 0 <= j < k :: l[j].ok
      decreases |l| - k
    {
      if k + 1 == |l| {
        assert AllPass(l);
      }
      k := k + 1;
    }
  }

  lemma RefusedEarly(checks: seq<Check>, rest: seq<Check>, e: Refusal)
    requires RefusedBy(checks, e)
    ensures RefusedBy(checks + rest, e)
  {
    var k: nat :| FailsFirst(checks, k) && checks[k].refusal == e;
    assert FailsFirst(checks + rest, k);
  }

  lemma RefusedLate(checks: seq<Check>, rest: seq<Check>, e: Refusal)
    requires AllPass(checks) && RefusedBy(rest, e)
    ensures RefusedBy(checks + rest, e)
  {
    var k: nat :| FailsFirst(rest, k) && rest[k].refusal == e;
    assert FailsFirst(checks + rest, |checks| + k);
  }

  lemma OneCheck(c: Check)
    ensures AllPass([c]) <==> c.ok
  {
    assert AllPass([c]) ==> [c][0].ok;
  }

  lemma AllPassTogether(checks: seq<Check>, rest: seq<Check>)
    ensures AllPass(checks + rest) <==> AllPass(checks) && AllPass(rest)
  {
    var all := checks + rest;
    assert forall k | 0 <= k < |checks| :: all[k] == checks[k];
    assert forall k | 0 <= k < |rest| :: all[|checks| + k] == rest[k];
  }

  predicate PassedTo(checks: seq<Check>, k: nat) {
    k <= |checks| && forall j | 0 <= j < k :: checks[j].ok
  }

  lemma StartChecks(checks: seq<Check>)
    ensures PassedTo(checks, 0)
  {
  }

  /** One check after those before it passed: it decides, or the next one is reached. */
  lemma Look(checks: seq<Check>, k: nat)
    requires PassedTo(checks, k) && k < |checks|
    ensures checks[k].ok ==> PassedTo(checks, k + 1)
    ensures checks[k].ok && k + 1 == |checks| ==> AllPass(checks)
    ensures !checks[k].ok ==> RefusedBy(checks, checks[k].refusal) && !AllPass(checks)
  {
    assert !checks[k].ok ==> FailsFirst(checks, k);
  }
}
