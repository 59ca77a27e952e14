/** The agent's own token at a door, and where a door relays it. */
module Access {
  import opened Wrappers
  import opened Clock
  import opened Claims
  import Dpop
  import Replay

  /** How far past exp a token still verifies, and how far ahead its iat may sit, in seconds. */
  const LEEWAY: Int64 := 30

  const MAX_JTI_BYTES: nat := 256

  const AGENT_SCHEME: string := "agent://"

  /** What Options.Revoked answers for a token id, a party and an iat. */
  type Hook = (string, string, Int64) -> bool

  /** What a door holds and received. A proof that is absent is none. */
  datatype Door = Door(
    issuer: string, audience: string, now: Instant,
    proof: Option<Dpop.Proof>, httpMethod: string, url: string, revoked: Option<Hook>)

  datatype AgentClaimSet = AgentClaimSet(
    sub: string, jti: string, jkt: string, unit: string, org: string, iat: Int64, exp: Int64)

  datatype VerifiedAgent = VerifiedAgent(agent: AgentClaimSet, proofJTI: string)

  // ---------------------------------------------------------------- the claims

  /** From leeway before iat to leeway after exp; the last second of the clock is past every exp. */
  predicate InLife(iat: Int64, exp: Int64, now: Int64) {
    iat - LEEWAY <= now < exp + LEEWAY && now < MAX64
  }

  function IssuedAt(claims: ClaimSet): Option<Int64> {
    if "iat" in claims then WholeSecond(claims["iat"]) else Some(0)
  }

  /** An agent that acts for nobody, in its life, for this resource, bound to a key. */
  predicate AgentHolds(t: Token, o: Door, now: Int64) {
    && IsAgentToken(t) && t.claims.Ok?
    && var c := t.claims.value;
    && o.issuer != "" && TextOf(c, "iss") == o.issuer
    && o.audience != "" && Names(Claim(c, "aud"), o.audience)
    && WholeSecond(Claim(c, "exp")).Some? && IssuedAt(c).Some?
    && InLife(IssuedAt(c).value, WholeSecond(Claim(c, "exp")).value, now)
    && AGENT_SCHEME < TextOf(c, "sub") && TextOf(c, "client_id") == TextOf(c, "sub")
    && TextOf(c, "jti") != "" && Claim(c, "act") == Null
    && ConfirmationKey(c) != ""
    && OptionalText(c, "unit").Some? && OptionalText(c, "org").Some?
  }

  function Agent(t: Token, o: Door, now: Int64): AgentClaimSet
    requires AgentHolds(t, o, now)
  {
    var c := t.claims.value;
    AgentClaimSet(TextOf(c, "sub"), TextOf(c, "jti"), ConfirmationKey(c), OptionalText(c, "unit").value,
                  OptionalText(c, "org").value, IssuedAt(c).value, WholeSecond(Claim(c, "exp")).value)
  }

  /** The same, in the order a refusal is chosen in. */
  function AgentChecks(t: Token, o: Door, now: Int64): seq<Check> {
    var c := if t.claims.Ok? then t.claims.value else map[];
    var exp := WholeSecond(Claim(c, "exp"));
    var iat := IssuedAt(c);
    [ Check(IsAgentToken(t), Malformed),
      Check(o.audience != "", Audience),
      Check(t.claims.Ok?, if t.claims.Err? then NotSigned(t.claims.error) else Malformed),
      Check(o.issuer != "" && TextOf(c, "iss") == o.issuer, Issuer),
      Check(Names(Claim(c, "aud"), o.audience), Audience),
      Check(exp.Some? && now < exp.value + LEEWAY && now < MAX64, Expired),
      Check(iat.Some?, Malformed),
      Check(iat.Some? && iat.value - LEEWAY <= now, NotYetValid),
      Check(AGENT_SCHEME < TextOf(c, "sub") && TextOf(c, "client_id") == TextOf(c, "sub") && TextOf(c, "jti") != ""
            && Claim(c, "act") == Null, Malformed),
      Check(ConfirmationKey(c) != "", NotBound),
      Check(OptionalText(c, "unit").Some? && OptionalText(c, "org").Some?, Malformed) ]
  }

  lemma AgentHoldsWhenAllPass(t: Token, o: Door, now: Int64)
    ensures AgentHolds(t, o, now) <==> AllPass(AgentChecks(t, o, now))
  {
    var l := AgentChecks(t, o, now);
    assert AllPass(l) ==>
        l[0].ok && l[1].ok && l[2].ok && l[3].ok && l[4].ok && l[5].ok && l[6].ok && l[7].ok && l[8].ok && l[9].ok
            && l[10].ok;
  }

  predicate AgentParties(c: ClaimSet) {
    && AGENT_SCHEME < TextOf(c, "sub") && TextOf(c, "client_id") == TextOf(c, "sub") && TextOf(c, "jti") != ""
    && Claim(c, "act") == Null
  }

  /** Which refusal of an agent token, and when: each is given exactly when everything asked before it holds and it
      does not. The door's own audience is asked for before the signature, the token's after the issuer. */
  lemma AgentRefusalMeans(t: Token, o: Door, now: Int64)
    ensures var l, c := AgentChecks(t, o, now), if t.claims.Ok? then t.claims.value else map[];
            var exp, iat := WholeSecond(Claim(c, "exp")), IssuedAt(c);
            var asked := t.typ == Some("at+jwt") && o.audience != "";
            var issued := asked && t.claims.Ok? && o.issuer != "" && TextOf(c, "iss") == o.issuer;
            var here := issued && Names(Claim(c, "aud"), o.audience);
            var alive := here && exp.Some? && now < exp.value + 30 && now < MAX64;
            var begun := alive && iat.Some? && iat.value - 30 <= now;
            var bound := begun && AgentParties(c) && ConfirmationKey(c) != "";
            && (forall why :: RefusedBy(l, NotSigned(why)) <==> asked && t.claims == Err(why))
            && (RefusedBy(l, Issuer) <==> asked && t.claims.Ok? && !issued)
            && (RefusedBy(l, Audience) <==>
                  (t.typ == Some("at+jwt") && o.audience == "") || (issued && !here))
            && (RefusedBy(l, Expired) <==> here && !alive)
            && (RefusedBy(l, NotYetValid) <==> alive && iat.Some? && iat.value - 30 > now)
            && (RefusedBy(l, NotBound) <==> begun && AgentParties(c) && ConfirmationKey(c) == "")
            && (RefusedBy(l, Malformed) <==>
                  || t.typ != Some("at+jwt") || (alive && iat.None?) || (begun && !AgentParties(c))
                  || (bound && !(OptionalText(c, "unit").Some? && OptionalText(c, "org").Some?)))
  {
    hide RefusedBy, AllPass, TextOf, Names, ConfirmationKey, OptionalText, IssuedAt, AgentParties, Claim;
    var l := AgentChecks(t, o, now);
    AgentChecksAre(t, o, now);
    if AllPass(l) {
      NeverRefused(l);
      EachPasses(l);
    } else {
      var k := FirstFailing(l);
      RefusedOnly(l, k);
    }
  }

  lemma AgentChecksAre(t: Token, o: Door, now: Int64)
    ensures var l, c := AgentChecks(t, o, now), if t.claims.Ok? then t.claims.value else map[];
            var exp, iat := WholeSecond(Claim(c, "exp")), IssuedAt(c);
            && |l| == 11
            && l[0] == Check(t.typ == Some("at+jwt"), Malformed) && l[1] == Check(o.audience != "", Audience)
            && l[2].ok == t.claims.Ok? && (t.claims.Err? ==> l[2].refusal == NotSigned(t.claims.error))
            && l[3] == Check(o.issuer != "" && TextOf(c, "iss") == o.issuer, Issuer)
            && l[4] == Check(Names(Claim(c, "aud"), o.audience), Audience)
            && l[5] == Check(exp.Some? && now < exp.value + 30 && now < MAX64, Expired)
            && l[6] == Check(iat.Some?, Malformed)
            && l[7] == Check(iat.Some? && iat.value - 30 <= now, NotYetValid)
            && l[8] == Check(AgentParties(c), Malformed) && l[9] == Check(ConfirmationKey(c) != "", NotBound)
            && l[10] == Check(OptionalText(c, "unit").Some? && OptionalText(c, "org").Some?, Malformed)
  {
    hide TextOf, Names, ConfirmationKey, OptionalText, IssuedAt, Claim;
  }

  /** Every check an agent token is held to before its proof. */
  method AgentClaims(t: Token, o: Door, now: Int64) returns (r: Result<AgentClaimSet, Refusal>)
    ensures r.Ok? <==> AgentHolds(t, o, now)
    ensures r.Ok? ==> r.value == Agent(t, o, now)
    ensures r.Err? ==> RefusedBy(AgentChecks(t, o, now), r.error)
  {
    hide AgentHolds, PassedTo, RefusedBy, AllPass, ConfirmationKey, Names, TextOf, OptionalText;
    ghost var l := AgentChecks(t, o, now);
    AgentHoldsWhenAllPass(t, o, now);
    StartChecks(l);
    Look(l, 0);
    if t.typ != Some(AGENT_TOKEN_TYP) {
      return Err(Malformed);
    }
    Look(l, 1);
    if o.audience == "" {
      return Err(Audience);
    }
    Look(l, 2);
    if t.claims.Err? {
      return Err(NotSigned(t.claims.error));
    }
    var claims := t.claims.value;
    Look(l, 3);
    if o.issuer == "" || TextOf(claims, "iss") != o.issuer {
      return Err(Issuer);
    }
    var here := AudienceHas(Claim(claims, "aud"), o.audience);
    Look(l, 4);
    if !here {
      return Err(Audience);
    }
    var exp := WholeSecond(Claim(claims, "exp"));
    Look(l, 5);
    if exp.None? || now >= SaturatingAdd(exp.value, LEEWAY) {
      return Err(Expired);
    }
    var iat := 0;
    Look(l, 6);
    if "iat" in claims {
      var read := WholeSecond(claims["iat"]);
      if read.None? {
        return Err(Malformed);
      }
      iat := read.value;
    }
    Look(l, 7);
    if iat > SaturatingAdd(now, LEEWAY) {
      return Err(NotYetValid);
    }
    var sub, jti := TextOf(claims, "sub"), TextOf(claims, "jti");
    Look(l, 8);
    if !(AGENT_SCHEME <= sub) || sub[|AGENT_SCHEME|..] == "" || TextOf(claims, "client_id") != sub || jti == ""
       || Claim(claims, "act") != Null {
      return Err(Malformed);
    }
    var jkt := ConfirmationKey(claims);
    Look(l, 9);
    if jkt == "" {
      return Err(NotBound);
    }
    var unit, org := OptionalText(claims, "unit"), OptionalText(claims, "org");
    Look(l, 10);
    if unit.None? || org.None? {
      return Err(Malformed);
    }
    return Ok(AgentClaimSet(sub, jti, jkt, unit.value, org.value, iat, exp.value));
  }

  // ---------------------------------------------------------------- at the door

  /** The door reads its clock in whole seconds. */
  function Second(o: Door): Instant { Unix(o.now) * SECOND }

  /** The proof is for this request, short enough to remember, made with the token's key and for this token. */
  predicate ProofFits(lib: Libraries, t: Token, o: Door, jkt: string) {
    && o.proof.Some? && o.httpMethod != "" && o.url != ""
    && Dpop.Holds(lib, o.proof.value, o.httpMethod, o.url, Second(o))
    && var e := Dpop.Establishes(lib, o.proof.value);
    Utf8Length(e.jti) <= MAX_JTI_BYTES && e.thumb == jkt && e.ath == t.hash
  }

  /** Everything the door asks before it asks whether the proof was used. */
  predicate Presentable(lib: Libraries, t: Token, o: Door) {
    && o.revoked.Some?
    && AgentHolds(t, o, Unix(o.now))
    && ProofFits(lib, t, o, Agent(t, o, Unix(o.now)).jkt)
    && var a := Agent(t, o, Unix(o.now)); !o.revoked.value(a.jti, a.sub, a.iat)
  }

  /** The same, in the order a refusal is chosen in. */
  function AccessChecks(lib: Libraries, t: Token, o: Door): seq<Check> {
    [Check(o.revoked.Some?, NotConfigured)] + AgentChecks(t, o, Unix(o.now)) + ProofChecks(lib, t, o)
  }

  function ProofChecks(lib: Libraries, t: Token, o: Door): seq<Check> {
    var c := if t.claims.Ok? then t.claims.value else map[];
    var checked := if o.proof.None? then Err(NoProof)
                   else Dpop.VerifyProof(lib, o.proof.value, o.httpMethod, o.url, Second(o));
    var e := if checked.Ok? then checked.value else Dpop.Presented("", "", "", 0);
    [ Check(o.proof.Some? && o.httpMethod != "" && o.url != "", NoProof),
      Check(checked.Ok?, WrongKey(if checked.Err? then Some(checked.error) else None)),
      Check(Utf8Length(e.jti) <= MAX_JTI_BYTES, WrongKey(Some(Binding))),
      Check(e.thumb == ConfirmationKey(c), WrongKey(None)),
      Check(e.ath == t.hash, WrongKey(Some(OtherToken))),
      RelayedLast(t, o) ]
  }

  lemma PresentableWhenAllPass(lib: Libraries, t: Token, o: Door)
    ensures Presentable(lib, t, o) <==> AllPass(AccessChecks(lib, t, o))
  {
    hide AgentChecks;
    AgentHoldsWhenAllPass(t, o, Unix(o.now));
    var first, agent, proof := [Check(o.revoked.Some?, NotConfigured)], AgentChecks(t, o, Unix(o.now)),
        ProofChecks(lib, t, o);
    AllPassTogether(first, agent);
    AllPassTogether(first + agent, proof);
    assert AllPass(first) <==> first[0].ok;
    assert AllPass(proof) ==> proof[0].ok && proof[1].ok && proof[2].ok && proof[3].ok && proof[4].ok && proof[5].ok;
  }

  /** Which refusal of the proof presented with a token in order, and when. */
  lemma ProofRefusalMeans(lib: Libraries, t: Token, o: Door)
    requires t.claims.Ok?
    ensures var l, given := ProofChecks(lib, t, o), o.proof.Some? && o.httpMethod != "" && o.url != "";
            var held := given && Dpop.Holds(lib, o.proof.value, o.httpMethod, o.url, Second(o));
            var short := held && Utf8Length(TextOf(o.proof.value.claims, "jti")) <= 256;
            var keyed := short && o.proof.value.key == Ok(ConfirmationKey(t.claims.value));
            var ours := keyed && TextOf(o.proof.value.claims, "ath") == t.hash;
            && (RefusedBy(l, NoProof) <==> !given)
            && ((exists why :: RefusedBy(l, WrongKey(Some(why)))) <==>
                  (given && !short) || (keyed && !ours))
            && (held && !short ==> RefusedBy(l, WrongKey(Some(Binding))))
            && (keyed && !ours ==> RefusedBy(l, WrongKey(Some(OtherToken))))
            && (RefusedBy(l, WrongKey(None)) <==> short && !keyed)
            && (RefusedBy(l, Revoked) <==> ours && !RelayedLast(t, o).ok)
  {
    hide RefusedBy, AllPass, TextOf, ConfirmationKey, Dpop.Holds, Utf8Length, RelayedLast;
    var l := ProofChecks(lib, t, o);
    ProofChecksAre(lib, t, o);
    if AllPass(l) {
      NeverRefused(l);
      EachPasses(l);
    } else {
      var k := FirstFailing(l);
      RefusedOnly(l, k);
    }
  }

  lemma ProofChecksAre(lib: Libraries, t: Token, o: Door)
    requires t.claims.Ok?
    ensures var l := ProofChecks(lib, t, o);
            && |l| == 6
            && l[0] == Check(o.proof.Some? && o.httpMethod != "" && o.url != "", NoProof)
            && l[5].ok == RelayedLast(t, o).ok && l[5].refusal == Revoked
            && (o.proof.Some? ==>
                  var p := o.proof.value;
                  && l[1].ok == Dpop.Holds(lib, p, o.httpMethod, o.url, Second(o))
                  && (!l[1].ok ==> l[1].refusal.WrongKey? && l[1].refusal.cause.Some?)
                  && (l[1].ok ==>
                        && l[2] == Check(Utf8Length(TextOf(p.claims, "jti")) <= 256, WrongKey(Some(Binding)))
                        && l[3] == Check(p.key == Ok(ConfirmationKey(t.claims.value)), WrongKey(None))
                        && l[4] == Check(TextOf(p.claims, "ath") == t.hash, WrongKey(Some(OtherToken)))))
  {
    hide TextOf, ConfirmationKey, Utf8Length;
  }

  function ProofId(lib: Libraries, t: Token, o: Door): string
    requires Presentable(lib, t, o)
  {
    Dpop.Establishes(lib, o.proof.value).jti
  }

  /** The checks of VerifyAccess between the claims and the cache. */
  method ProofOf(lib: Libraries, t: Token, o: Door, a: AgentClaimSet) returns (r: Result<VerifiedAgent, Refusal>)
    requires o.revoked.Some? && AgentHolds(t, o, Unix(o.now)) && a == Agent(t, o, Unix(o.now))
    ensures r.Err? ==> RefusedBy(ProofChecks(lib, t, o), r.error)
    ensures r.Ok? <==> AllPass(ProofChecks(lib, t, o))
    ensures r.Ok? ==> r.value.agent == a && o.proof.Some? && r.value.proofJTI == TextOf(o.proof.value.claims, "jti")
  {
    hide PassedTo, RefusedBy, AllPass;
    ghost var l := ProofChecks(lib, t, o);
    StartChecks(l);
    Look(l, 0);
    if o.proof.None? || o.httpMethod == "" || o.url == "" {
      return Err(NoProof);
    }
    var checked := Dpop.VerifyProof(lib, o.proof.value, o.httpMethod, o.url, Second(o));
    Look(l, 1);
    if checked.Err? {
      return Err(WrongKey(Some(checked.error)));
    }
    var p := checked.value;
    Look(l, 2);
    if Utf8Length(p.jti) > MAX_JTI_BYTES {
      return Err(WrongKey(Some(Binding)));
    }
    Look(l, 3);
    if p.thumb != a.jkt {
      return Err(WrongKey(None));
    }
    Look(l, 4);
    if p.ath != t.hash {
      return Err(WrongKey(Some(OtherToken)));
    }
    Look(l, 5);
    if o.revoked.value(a.jti, a.sub, a.iat) {
      return Err(Revoked);
    }
    return Ok(VerifiedAgent(a, p.jti));
  }

  function CacheAfter(lib: Libraries, t: Token, o: Door, m: Replay.Memory): Replay.Memory {
    if Presentable(lib, t, o) then Replay.After(m, ProofId(lib, t, o), Unix(o.now)) else m
  }

  predicate Admits(lib: Libraries, t: Token, o: Door, m: Replay.Memory) {
    Presentable(lib, t, o) && Replay.Judged(Replay.Turned(m, Unix(o.now)), ProofId(lib, t, o)).Admitted?
  }

  /** Verify an agent's own token and the proof presented with it. The cache is touched by a presentation that passes
      every other check, revocation included, and by no other. */
  method VerifyAccess(lib: Libraries, t: Token, o: Door, proofs: Replay.ReplayCache?)
    returns (r: Result<VerifiedAgent, Refusal>)
    modifies proofs
    ensures proofs == null || o.revoked.None? ==> r == Err(NotConfigured)
    ensures proofs != null ==>
              && proofs.State() == CacheAfter(lib, t, o, old(proofs.State()))
              && (r.Ok? <==> Admits(lib, t, o, old(proofs.State())))
              && (!Presentable(lib, t, o) ==> r.Err? && RefusedBy(AccessChecks(lib, t, o), r.error))
              && (Presentable(lib, t, o) && r.Err? ==>
                    r == Err(if Replay.Judged(Replay.Turned(old(proofs.State()), Unix(o.now)), ProofId(lib, t, o)).Full?
                             then CacheFull else Refusal.Replay))
    ensures r.Ok? ==> AgentHolds(t, o, Unix(o.now)) && r.value.agent == Agent(t, o, Unix(o.now))
                      && o.proof.Some? && r.value.proofJTI == TextOf(o.proof.value.claims, "jti")
  {
    hide AgentHolds, AgentChecks, ProofFits, PassedTo, RefusedBy, AllPass, Replay.After, Replay.Turned, Replay.Judged;
    PresentableWhenAllPass(lib, t, o);
    ghost var l := AccessChecks(lib, t, o);
    ghost var first, last := [l[0]] + AgentChecks(t, o, Unix(o.now)), ProofChecks(lib, t, o);
    StartChecks(l);
    Look(l, 0);
    if proofs == null || o.revoked.None? {
      return Err(NotConfigured);
    }
    var now := Second(o);
    var claims := AgentClaims(t, o, Unix(now));
    AgentHoldsWhenAllPass(t, o, Unix(now));
    OneCheck(l[0]);
    AllPassTogether([l[0]], AgentChecks(t, o, Unix(o.now)));
    AllPassTogether(first, last);
    if claims.Err? {
      RefusedOnce(AgentChecks(t, o, Unix(o.now)), claims.error, claims.error);
      RefusedLate([l[0]], AgentChecks(t, o, Unix(o.now)), claims.error);
      RefusedEarly(first, last, claims.error);
      return Err(claims.error);
    }
    var a := claims.value;
    r := ProofOf(lib, t, o, a);
    if r.Err? {
      RefusedLate(first, last, r.error);
      return;
    }
    var verdict := proofs.CheckAndRecord(r.value.proofJTI, Unix(now));
    match verdict
    case Admitted => return;
    case Replayed => return Err(Refusal.Replay);
    case Full => return Err(CacheFull);
  }

  /** What a relayed token is held to, in the order a refusal is chosen in. */
  function RelayChecks(t: Token, o: Door): seq<Check> {
    [Check(o.revoked.Some?, NotConfigured)] + AgentChecks(t, o, Unix(o.now)) + [RelayedLast(t, o)]
  }

  function RelayedLast(t: Token, o: Door): Check {
    var c := if t.claims.Ok? then t.claims.value else map[];
    var iat := if IssuedAt(c).Some? then IssuedAt(c).value else 0;
    Check(o.revoked.Some? && !o.revoked.value(TextOf(c, "jti"), TextOf(c, "sub"), iat), Revoked)
  }

  lemma RelayedLastMeaning(t: Token, o: Door)
    requires o.revoked.Some? && AgentHolds(t, o, Unix(o.now))
    ensures var a := Agent(t, o, Unix(o.now)); RelayedLast(t, o).ok <==> !o.revoked.value(a.jti, a.sub, a.iat)
  {
  }

  /** Verify a token another door already verified with its proof. */
  method VerifyRelayedAccess(t: Token, o: Door) returns (r: Result<VerifiedAgent, Refusal>)
    ensures r.Ok? <==> o.revoked.Some? && AgentHolds(t, o, Unix(o.now))
                       && var a := Agent(t, o, Unix(o.now)); !o.revoked.value(a.jti, a.sub, a.iat)
    ensures r.Ok? ==> r.value == VerifiedAgent(Agent(t, o, Unix(o.now)), "")
    ensures r.Err? ==> RefusedBy(RelayChecks(t, o), r.error)
  {
    hide AgentHolds, AgentChecks, PassedTo, RefusedBy, AllPass;
    ghost var now, first, last := Unix(o.now), Check(o.revoked.Some?, NotConfigured), RelayedLast(t, o);
    ghost var agent := AgentChecks(t, o, now);
    StartChecks([first]);
    Look([first], 0);
    OneCheck(first);
    if o.revoked.None? {
      RefusedEarly([first], agent, NotConfigured);
      RefusedEarly([first] + agent, [last], NotConfigured);
      return Err(NotConfigured);
    }
    var claims := AgentClaims(t, o, Unix(o.now));
    AgentHoldsWhenAllPass(t, o, now);
    AllPassTogether([first], agent);
    if claims.Err? {
      RefusedLate([first], agent, claims.error);
      RefusedEarly([first] + agent, [last], claims.error);
      return Err(claims.error);
    }
    var a := claims.value;
    RelayedLastMeaning(t, o);
    StartChecks([last]);
    Look([last], 0);
    if o.revoked.value(a.jti, a.sub, a.iat) {
      RefusedLate([first] + agent, [last], Revoked);
      return Err(Revoked);
    }
    return Ok(VerifiedAgent(a, ""));
  }

  // ---------------------------------------------------------------- doors that share one cache

  /** A visit to any door of a process. */
  datatype Visit = Visit(t: Token, o: Door)

  function Shared(lib: Libraries, cap: int, visits: seq<Visit>): Replay.Memory {
    if visits == [] then Replay.Empty(cap)
    else
      var v := visits[|visits| - 1];
      CacheAfter(lib, v.t, v.o, Shared(lib, cap, visits[..|visits| - 1]))
  }

  predicate AdmittedAt(lib: Libraries, cap: int, visits: seq<Visit>, i: nat)
    requires i < |visits|
  {
    Admits(lib, visits[i].t, visits[i].o, Shared(lib, cap, visits[..i]))
  }

  lemma SharedGrows(lib: Libraries, cap: int, visits: seq<Visit>, i: nat)
    requires i < |visits|
    ensures Shared(lib, cap, visits[..i + 1])
            == CacheAfter(lib, visits[i].t, visits[i].o, Shared(lib, cap, visits[..i]))
  {
    assert visits[..i + 1][..i] == visits[..i];
  }

  lemma {:induction false} StillHeld(lib: Libraries, cap: int, visits: seq<Visit>, i: nat, j: nat)
    requires i < j <= |visits| && AdmittedAt(lib, cap, visits, i)
    requires forall k | i < k < j && Presentable(lib, visits[k].t, visits[k].o) ::
               Unix(visits[k].o.now) <= Unix(visits[i].o.now) + Replay.GENERATION
    ensures Replay.Held(Shared(lib, cap, visits[..j]), ProofId(lib, visits[i].t, visits[i].o), Unix(visits[i].o.now))
  {
    hide AgentHolds, ProofFits, Replay.After, Replay.Turned, Replay.Judged, Replay.Held;
    SharedGrows(lib, cap, visits, j - 1);
    var id, s := ProofId(lib, visits[i].t, visits[i].o), Unix(visits[i].o.now);
    var before := Shared(lib, cap, visits[..j - 1]);
    if j == i + 1 {
      Replay.HeldOnce(before, id, s);
    } else {
      StillHeld(lib, cap, visits, i, j - 1);
      if Presentable(lib, visits[j - 1].t, visits[j - 1].o) {
        Replay.HeldOn(before, id, s,
            Replay.Call(ProofId(lib, visits[j - 1].t, visits[j - 1].o), Unix(visits[j - 1].o.now)));
      }
    }
  }

  /** Across all the doors of a process and all their tokens, one proof is admitted once: until some presentation that
      reached the cache has read a clock beyond two windows after its admission, it is refused, however the clock
      walks. */
  lemma EachProofOpensOneDoorOnce(lib: Libraries, cap: int, visits: seq<Visit>, i: nat, j: nat)
    requires i < j < |visits| && visits[i].o.proof == visits[j].o.proof
    requires AdmittedAt(lib, cap, visits, i)
    requires forall k | i < k < j && Presentable(lib, visits[k].t, visits[k].o) ::
               Unix(visits[k].o.now) <= Unix(visits[i].o.now) + Replay.GENERATION
    ensures !AdmittedAt(lib, cap, visits, j)
  {
    hide AgentHolds, Replay.After, Replay.Turned, Replay.Held;
    if AdmittedAt(lib, cap, visits, j) {
      var s, now := Unix(visits[i].o.now), Unix(visits[j].o.now);
      assert now <= s + Replay.GENERATION;
      StillHeld(lib, cap, visits, i, j);
      Replay.HeldOn(Shared(lib, cap, visits[..j]), ProofId(lib, visits[i].t, visits[i].o), s,
                    Replay.Call(ProofId(lib, visits[j].t, visits[j].o), now));
    }
  }
}
