/** A delegation token at an enforcement point: every check that makes it more than a bearer token, in order. */
module Verify {
  import opened Wrappers
  import opened Clock
  import opened Claims
  import Act
  import Delegation
  import Dpop
  import Passport
  import Replay
  import Revocations

  type Hook = (string, string, Int64) -> bool

  /** What an enforcement point holds and received. An empty audience accepts any. */
  datatype Options = Options(
    issuer: string, audience: string, now: Instant,
    proof: Option<Dpop.Proof>, httpMethod: string, url: string, revoked: Option<Hook>)

  datatype Verified = Verified(
    subject: string, actors: seq<string>, chain: seq<string>, jkt: string, jti: string, issuedAt: Int64,
    expiresAt: Int64, scope: string)

  // ---------------------------------------------------------------- the chain of a token

  /** The act claim as nested: an absent or null one names nobody. */
  function ActOf(lib: Libraries, claims: ClaimSet): Option<Nested> {
    var raw := Claim(claims, "act");
    if raw == Null then Some(Nested("", None)) else lib.decodeAct(raw)
  }

  method Decode(n: Nested) returns (a: Act.ActNode)
    ensures fresh(a) && Act.Spells(a, Subs(n))
    decreases n
  {
    var inner: Act.ActNode? := null;
    if n.act.Some? {
      inner := Decode(n.act.value);
    }
    a := new Act.ActNode(n.sub, inner);
    assert Subs(n)[1..] == if n.act.Some? then Subs(n.act.value) else [];
  }

  /** Who the token is for, then who acts, root first. */
  function Party(sub: string, n: Nested): seq<string> { Delegation.Entries(sub, Act.Reverse(Subs(n))) }

  // ---------------------------------------------------------------- the checks, in order

  function Said(t: Token): ClaimSet { if t.claims.Ok? then t.claims.value else map[] }

  /** Whether the proof holds for this request, before anything remembers it. */
  function Proved(lib: Libraries, o: Options): Result<Dpop.Presented, Refusal> {
    if o.proof.None? then Err(NoProof) else Dpop.VerifyProof(lib, o.proof.value, o.httpMethod, o.url, o.now)
  }

  /** The checks before the proof is remembered. */
  function BeforeMemory(lib: Libraries, t: Token, o: Options): seq<Check> {
    var c := Said(t);
    var exp := AsUnix(lib, Claim(c, "exp"));
    var proved := Proved(lib, o);
    [ Check(!IsAgentToken(t), Malformed),
      Check(t.claims.Ok?, if t.claims.Err? then NotSigned(t.claims.error) else Malformed),
      Check(o.issuer != "" && TextOf(c, "iss") == o.issuer, Issuer),
      Check(o.audience == "" || Names(Claim(c, "aud"), o.audience), Audience),
      Check(exp.Some? && Unix(o.now) < exp.value, Expired),
      Check(TextOf(c, "sub") != "" && TextOf(c, "jti") != "", Malformed),
      Check(ConfirmationKey(c) != "", NotBound),
      Check(o.proof.Some? && o.httpMethod != "" && o.url != "", NoProof),
      Check(proved.Ok?, WrongKey(if proved.Err? then Some(proved.error) else None)) ]
  }

  function Remembered(lib: Libraries, t: Token, o: Options, seen: Replay.Seen): Replay.Seen {
    var p := Proved(lib, o);
    if AllPass(BeforeMemory(lib, t, o)) && p.Ok? then Replay.SeenAfter(seen, p.value.jti, p.value.iat, o.now) else seen
  }

  /** The checks after it: single use, the bound key, a chain the record would hold. */
  function AfterMemory(lib: Libraries, t: Token, o: Options, seen: Replay.Seen): seq<Check> {
    var c, p := Said(t), Proved(lib, o);
    var act := ActOf(lib, c);
    [ Check(p.Ok? && p.value.jti !in Replay.Pruned(seen, o.now), WrongKey(Some(Refusal.Replay))),
      Check(p.Ok? && p.value.thumb == ConfirmationKey(c), WrongKey(None)),
      Check(act.Some? && Passport.ValidChain(Party(TextOf(c, "sub"), act.value)), Malformed) ]
  }

  function IssuedAt(lib: Libraries, c: ClaimSet): Int64 {
    var iat := AsUnix(lib, Claim(c, "iat"));
    if iat.Some? then iat.value else 0
  }

  /** Some party of the chain is revoked. */
  predicate AnyRevoked(h: Hook, jti: string, chain: seq<string>, iat: Int64) {
    exists p | p in chain :: h(jti, p, iat)
  }

  function Chained(lib: Libraries, t: Token): seq<string> {
    var act := ActOf(lib, Said(t));
    if act.Some? then Party(TextOf(Said(t), "sub"), act.value) else []
  }

  /** Every check but revocation. */
  function Checks(lib: Libraries, t: Token, o: Options, seen: Replay.Seen): seq<Check> {
    BeforeMemory(lib, t, o) + AfterMemory(lib, t, o, seen)
  }

  // ---------------------------------------------------------------- what the checks amount to

  predicate Signed(t: Token) { t.typ != Some("at+jwt") && t.claims.Ok? }

  predicate FromIssuer(c: ClaimSet, o: Options) { o.issuer != "" && TextOf(c, "iss") == o.issuer }

  predicate ForAudience(c: ClaimSet, o: Options) { o.audience == "" || Names(Claim(c, "aud"), o.audience) }

  /** exp is a number, and now's second is before it. */
  predicate Unexpired(lib: Libraries, c: ClaimSet, now: Instant) {
    Claim(c, "exp").Number? && Unix(now) < AsUnix(lib, Claim(c, "exp")).value
  }

  predicate Named(c: ClaimSet) { TextOf(c, "sub") != "" && TextOf(c, "jti") != "" }

  predicate Bound(c: ClaimSet) { ConfirmationKey(c) != "" }

  predicate Accompanied(o: Options) { o.proof.Some? && o.httpMethod != "" && o.url != "" }

  /** Its id is not among the remembered ones that can still be fresh. */
  predicate Unspent(lib: Libraries, p: Dpop.Proof, seen: Replay.Seen, now: Instant)
    requires p.key.Ok? && Claim(p.claims, "iat").Number?
  {
    var id := TextOf(p.claims, "jti");
    id in seen ==> now - seen[id] * SECOND > Replay.WINDOW * SECOND
  }

  /** A chain of agents and users, subject first, that the record would hold. */
  predicate HoldsAChain(lib: Libraries, c: ClaimSet) {
    var act := ActOf(lib, c);
    act.Some? && Passport.ValidChain([TextOf(c, "sub")] + Act.Reverse(Subs(act.value)))
  }

  /** What a delegation token and the request around it must be, all at once. */
  predicate Grants(lib: Libraries, t: Token, o: Options, seen: Replay.Seen) {
    && Signed(t)
    && var c := t.claims.value;
    && FromIssuer(c, o) && ForAudience(c, o) && Unexpired(lib, c, o.now) && Named(c) && Bound(c) && Accompanied(o)
    && Dpop.Holds(lib, o.proof.value, o.httpMethod, o.url, o.now)
    && Unspent(lib, o.proof.value, seen, o.now)
    && o.proof.value.key == Ok(ConfirmationKey(c))
    && HoldsAChain(lib, c)
  }

  /** The list of checks says just that. */
  lemma GrantsExactly(lib: Libraries, t: Token, o: Options, seen: Replay.Seen)
    ensures Grants(lib, t, o, seen) <==> AllPass(Checks(lib, t, o, seen))
  {
    hide ConfirmationKey, Names, TextOf, Passport.ValidChain, Dpop.Holds;
    AllPassTogether(BeforeMemory(lib, t, o), AfterMemory(lib, t, o, seen));
    EarlyAmounts(lib, t, o);
    if AllPass(BeforeMemory(lib, t, o)) {
      LateAmounts(lib, t, o, seen);
    }
  }

  predicate Early(lib: Libraries, t: Token, o: Options) {
    && Signed(t)
    && var c := t.claims.value;
    && FromIssuer(c, o) && ForAudience(c, o) && Unexpired(lib, c, o.now) && Named(c) && Bound(c) && Accompanied(o)
    && Dpop.Holds(lib, o.proof.value, o.httpMethod, o.url, o.now)
  }

  lemma EarlyAmounts(lib: Libraries, t: Token, o: Options)
    ensures AllPass(BeforeMemory(lib, t, o)) <==> Early(lib, t, o)
  {
    hide ConfirmationKey, Names, TextOf, Dpop.Holds;
    var l := BeforeMemory(lib, t, o);
    assert AllPass(l) ==>
        l[0].ok && l[1].ok && l[2].ok && l[3].ok && l[4].ok && l[5].ok && l[6].ok && l[7].ok && l[8].ok;
  }

  lemma LateAmounts(lib: Libraries, t: Token, o: Options, seen: Replay.Seen)
    requires Early(lib, t, o)
    ensures AllPass(AfterMemory(lib, t, o, seen)) <==>
              && Unspent(lib, o.proof.value, seen, o.now) && o.proof.value.key == Ok(ConfirmationKey(t.claims.value))
              && HoldsAChain(lib, t.claims.value)
  {
    hide ConfirmationKey, Names, TextOf, Passport.ValidChain, Dpop.Holds;
    var l := AfterMemory(lib, t, o, seen);
    assert AllPass(l) ==> l[0].ok && l[1].ok && l[2].ok;
  }

  /** Which refusal, and when: each is given exactly when everything asked before it holds and it does not. */
  lemma RefusalMeans(lib: Libraries, t: Token, o: Options, seen: Replay.Seen)
    ensures var l, c := Checks(lib, t, o, seen), Said(t);
            var signed := Signed(t);
            var claimed := signed && FromIssuer(c, o) && ForAudience(c, o);
            var proved := claimed && Unexpired(lib, c, o.now) && Named(c) && Bound(c) && Accompanied(o);
            var held := proved && Dpop.Holds(lib, o.proof.value, o.httpMethod, o.url, o.now);
            var unspent := held && Unspent(lib, o.proof.value, seen, o.now);
            var keyed := unspent && o.proof.value.key == Ok(ConfirmationKey(c));
            && (forall why :: RefusedBy(l, NotSigned(why)) <==> t.typ != Some("at+jwt") && t.claims == Err(why))
            && (RefusedBy(l, Issuer) <==> signed && !FromIssuer(c, o))
            && (RefusedBy(l, Audience) <==> signed && FromIssuer(c, o) && !ForAudience(c, o))
            && (RefusedBy(l, Expired) <==> claimed && !Unexpired(lib, c, o.now))
            && (RefusedBy(l, NotBound) <==> claimed && Unexpired(lib, c, o.now) && Named(c) && !Bound(c))
            && (RefusedBy(l, NoProof) <==>
                  claimed && Unexpired(lib, c, o.now) && Named(c) && Bound(c) && !Accompanied(o))
            && ((exists why :: RefusedBy(l, WrongKey(Some(why)))) <==> proved && !unspent)
            && (held && !unspent ==> RefusedBy(l, WrongKey(Some(Refusal.Replay))))
            && (RefusedBy(l, WrongKey(None)) <==> unspent && !keyed)
            && (RefusedBy(l, Malformed) <==>
                  || t.typ == Some("at+jwt")
                  || (claimed && Unexpired(lib, c, o.now) && !Named(c))
                  || (keyed && !HoldsAChain(lib, c)))
  {
    hide ConfirmationKey, Names, TextOf, Passport.ValidChain, Dpop.Holds, RefusedBy, AllPass, PassedTo, ActOf, Claim;
    var l := Checks(lib, t, o, seen);
    ChecksAre(lib, t, o, seen);
    if AllPass(l) {
      NeverRefused(l);
      EachPasses(l);
    } else {
      var k := FirstFailing(l);
      RefusedOnly(l, k);
    }
  }

  /** The checks one by one. */
  lemma ChecksAre(lib: Libraries, t: Token, o: Options, seen: Replay.Seen)
    ensures var l, c := Checks(lib, t, o, seen), Said(t);
            && |l| == 12
            && l[0] == Check(t.typ != Some("at+jwt"), Malformed)
            && l[1].ok == t.claims.Ok? && (t.claims.Err? ==> l[1].refusal == NotSigned(t.claims.error))
            && l[2] == Check(FromIssuer(c, o), Issuer) && l[3] == Check(ForAudience(c, o), Audience)
            && l[4] == Check(Unexpired(lib, c, o.now), Expired) && l[5] == Check(Named(c), Malformed)
            && l[6] == Check(Bound(c), NotBound) && l[7] == Check(Accompanied(o), NoProof)
            && (o.proof.Some? ==>
                  var held := Dpop.Holds(lib, o.proof.value, o.httpMethod, o.url, o.now);
                  && l[8].ok == held && (!held ==> l[8].refusal.WrongKey? && l[8].refusal.cause.Some?)
                  && (held ==> l[9] == Check(Unspent(lib, o.proof.value, seen, o.now), WrongKey(Some(Refusal.Replay))))
                  && (held ==> l[10] == Check(o.proof.value.key == Ok(ConfirmationKey(c)), WrongKey(None))))
            && (TextOf(c, "sub") != "" ==> l[11] == Check(HoldsAChain(lib, c), Malformed))
  {
    hide ConfirmationKey, Names, TextOf, Passport.ValidChain, Dpop.Holds, Claim;
    var l, first, last := Checks(lib, t, o, seen), BeforeMemory(lib, t, o), AfterMemory(lib, t, o, seen);
    assert l[0] == first[0] && l[1] == first[1] && l[2] == first[2] && l[3] == first[3] && l[4] == first[4];
    assert l[5] == first[5] && l[6] == first[6] && l[7] == first[7] && l[8] == first[8];
    assert l[9] == last[0] && l[10] == last[1] && l[11] == last[2];
  }

  predicate Refuses(lib: Libraries, t: Token, o: Options) {
    o.revoked.Some? && AnyRevoked(o.revoked.value, TextOf(Said(t), "jti"), Chained(lib, t), IssuedAt(lib, Said(t)))
  }

  /** What an enforcement point may rely on: its chain is the subject, then the actors, and the record holds it. */
  predicate Says(lib: Libraries, t: Token, v: Verified) {
    var c := Said(t);
    && v.chain == [v.subject] + v.actors && Passport.ValidChain(v.chain) && v.chain == Chained(lib, t)
    && v.subject == TextOf(c, "sub") && v.jti == TextOf(c, "jti") && v.jkt == ConfirmationKey(c)
    && v.issuedAt == IssuedAt(lib, c) && AsUnix(lib, Claim(c, "exp")) == Some(v.expiresAt)
    && v.scope == TextOf(c, "scope")
  }

  lemma ClaimsInOrder(lib: Libraries, t: Token, o: Options)
    requires AllPass(BeforeMemory(lib, t, o))
    ensures t.claims.Ok? && TextOf(Said(t), "sub") != "" && AsUnix(lib, Claim(Said(t), "exp")).Some?
            && Proved(lib, o).Ok?
    ensures !IsAgentToken(t)
  {
    var l := BeforeMemory(lib, t, o);
    assert l[0].ok && l[1].ok && l[4].ok && l[5].ok && l[8].ok;
  }

  /** A token is called revoked by the revocation list and by no other check. */
  lemma NoCheckSaysRevoked(lib: Libraries, t: Token, o: Options, seen: Replay.Seen)
    ensures !RefusedBy(Checks(lib, t, o, seen), Revoked)
  {
    var l, first, last := Checks(lib, t, o, seen), BeforeMemory(lib, t, o), AfterMemory(lib, t, o, seen);
    forall k | 0 <= k < |l|
      ensures l[k].refusal != Revoked
    {
      assert l[k] == if k < 9 then first[k] else last[k - 9];
    }
  }

  // ---------------------------------------------------------------- the steps

  /** The checks on the claims and the proof. */
  method Claimed(lib: Libraries, t: Token, o: Options, v: Replay.Verifier) returns (r: Result<string, Refusal>)
    modifies v
    ensures v.seen == Remembered(lib, t, o, old(v.seen))
    ensures r.Ok? <==> AllPass(BeforeMemory(lib, t, o)) && AfterMemory(lib, t, o, old(v.seen))[0].ok
    ensures r.Ok? ==> Proved(lib, o).Ok? && r.value == Proved(lib, o).value.thumb
    ensures r.Err? ==> RefusedBy(Checks(lib, t, o, old(v.seen)), r.error)
  {
    hide PassedTo, RefusedBy, AllPass, ConfirmationKey, Names, TextOf, Replay.Pruned, Replay.SeenAfter, AfterMemory;
    ghost var l, last := BeforeMemory(lib, t, o), AfterMemory(lib, t, o, v.seen);
    StartChecks(l);
    Look(l, 0);
    if IsAgentToken(t) {
      RefusedEarly(l, last, Malformed);
      return Err(Malformed);
    }
    Look(l, 1);
    if t.claims.Err? {
      RefusedEarly(l, last, NotSigned(t.claims.error));
      return Err(NotSigned(t.claims.error));
    }
    var claims := t.claims.value;
    Look(l, 2);
    if o.issuer == "" || TextOf(claims, "iss") != o.issuer {
      RefusedEarly(l, last, Issuer);
      return Err(Issuer);
    }
    if o.audience != "" {
      var here := AudienceHas(Claim(claims, "aud"), o.audience);
      Look(l, 3);
      if !here {
        RefusedEarly(l, last, Audience);
        return Err(Audience);
      }
    }
    Look(l, 3);
    var exp := AsUnix(lib, Claim(claims, "exp"));
    Look(l, 4);
    if exp.None? || Unix(o.now) >= exp.value {
      RefusedEarly(l, last, Expired);
      return Err(Expired);
    }
    Look(l, 5);
    if TextOf(claims, "sub") == "" || TextOf(claims, "jti") == "" {
      RefusedEarly(l, last, Malformed);
      return Err(Malformed);
    }
    Look(l, 6);
    if ConfirmationKey(claims) == "" {
      RefusedEarly(l, last, NotBound);
      return Err(NotBound);
    }
    Look(l, 7);
    if o.proof.None? || o.httpMethod == "" || o.url == "" {
      RefusedEarly(l, last, NoProof);
      return Err(NoProof);
    }
    Look(l, 8);
    r := CheckProof(lib, t, o, v);
  }

  /** The proof cache, asked once every claim is in order. */
  method CheckProof(lib: Libraries, t: Token, o: Options, v: Replay.Verifier) returns (r: Result<string, Refusal>)
    requires o.proof.Some? && (AllPass(BeforeMemory(lib, t, o)) <==> Proved(lib, o).Ok?)
    requires Proved(lib, o).Err? ==> RefusedBy(BeforeMemory(lib, t, o), WrongKey(Some(Proved(lib, o).error)))
    modifies v
    ensures v.seen == Remembered(lib, t, o, old(v.seen))
    ensures r.Ok? <==> AllPass(BeforeMemory(lib, t, o)) && AfterMemory(lib, t, o, old(v.seen))[0].ok
    ensures r.Ok? ==> Proved(lib, o).Ok? && r.value == Proved(lib, o).value.thumb
    ensures r.Err? ==> RefusedBy(Checks(lib, t, o, old(v.seen)), r.error)
  {
    hide PassedTo, RefusedBy, AllPass, BeforeMemory, Dpop.Holds, Replay.Pruned, Replay.SeenAfter;
    ghost var l, last := BeforeMemory(lib, t, o), AfterMemory(lib, t, o, v.seen);
    StartChecks(last);
    Look(last, 0);
    var thumb := Dpop.Check(lib, v, o.proof.value, o.httpMethod, o.url, o.now);
    if thumb.Err? {
      if Proved(lib, o).Err? {
        RefusedEarly(l, last, WrongKey(Some(Proved(lib, o).error)));
      } else {
        RefusedLate(l, last, WrongKey(Some(Refusal.Replay)));
      }
      return Err(WrongKey(Some(thumb.error)));
    }
    return Ok(thumb.value);
  }

  /** The chain, and the revocation of each of its parties, root first. */
  method Permitted(lib: Libraries, t: Token, o: Options, ghost seen: Replay.Seen) returns (r: Result<Verified, Refusal>)
    requires t.claims.Ok? && TextOf(Said(t), "sub") != "" && AllPass(BeforeMemory(lib, t, o))
             && AsUnix(lib, Claim(Said(t), "exp")).Some?
    requires var last := AfterMemory(lib, t, o, seen); last[0].ok && last[1].ok
    ensures r.Ok? <==> AllPass(AfterMemory(lib, t, o, seen)) && !Refuses(lib, t, o)
    ensures r == Err(Revoked) <==> AllPass(AfterMemory(lib, t, o, seen)) && Refuses(lib, t, o)
    ensures r.Err? && r != Err(Revoked) ==> RefusedBy(Checks(lib, t, o, seen), r.error)
    ensures r.Ok? ==> Says(lib, t, r.value)
  {
    hide PassedTo, RefusedBy, AllPass, BeforeMemory, Replay.Pruned, Act.Spells, Act.Reads, Delegation.Assembles,
      Passport.ValidChain, Claim, TextOf;
    ghost var l, last := BeforeMemory(lib, t, o), AfterMemory(lib, t, o, seen);
    StartChecks(last);
    Look(last, 0);
    Look(last, 1);
    Look(last, 2);
    var claims := t.claims.value;
    var sub, jti := TextOf(claims, "sub"), TextOf(claims, "jti");
    var n := ActOf(lib, claims);
    if n.None? {
      RefusedLate(l, last, Malformed);
      return Err(Malformed);
    }
    var act := Decode(n.value);
    var actors := Act.ReadAct(act);
    var chain := Delegation.Chain(sub, act);
    Delegation.DoorAndRecordAgree(sub, act, Subs(n.value), chain);
    Delegation.ChainNeedsActors(sub, act, actors, chain);
    Act.ReadsClosed(act, Subs(n.value), actors);
    if actors.Err? || chain.Err? {
      RefusedLate(l, last, Malformed);
      return Err(Malformed);
    }
    var iat := IssuedAt(lib, claims);
    if o.revoked.Some? {
      for i := 0 to |chain.value|
        invariant forall k | 0 <= k < i :: !o.revoked.value(jti, chain.value[k], iat)
      {
        if o.revoked.value(jti, chain.value[i], iat) {
          assert chain.value[i] in Chained(lib, t);
          return Err(Revoked);
        }
      }
    }
    return Ok(Verified(sub, actors.value, chain.value, ConfirmationKey(claims), jti, iat,
                       AsUnix(lib, Claim(claims, "exp")).value, TextOf(claims, "scope")));
  }

  /** Verify a delegation token, with the caller's proof cache or a throwaway one. */
  method Verify(lib: Libraries, t: Token, o: Options, proofs: Replay.Verifier?) returns (r: Result<Verified, Refusal>)
    modifies proofs
    ensures proofs != null ==> proofs.seen == Remembered(lib, t, o, old(proofs.seen))
    ensures var seen := if proofs == null then map[] else old(proofs.seen);
            && (r.Ok? <==> Grants(lib, t, o, seen) && !Refuses(lib, t, o))
            && (r == Err(Revoked) <==> Grants(lib, t, o, seen) && Refuses(lib, t, o))
            && (r.Err? && r != Err(Revoked) ==> RefusedBy(Checks(lib, t, o, seen), r.error))
    ensures r.Ok? ==> Says(lib, t, r.value)
  {
    hide BeforeMemory, RefusedBy, AllPass, PassedTo, Refuses, Says, Replay.Pruned, Passport.ValidChain, Grants;
    var v := proofs;
    if v == null {
      v := new Replay.Verifier();
    }
    ghost var seen := v.seen;
    ghost var first, last := BeforeMemory(lib, t, o), AfterMemory(lib, t, o, seen);
    AllPassTogether(first, last);
    GrantsExactly(lib, t, o, seen);
    NoCheckSaysRevoked(lib, t, o, seen);
    var thumb := Claimed(lib, t, o, v);
    if thumb.Err? {
      RefusedOnce(first + last, thumb.error, thumb.error);
      return Err(thumb.error);
    }
    ClaimsInOrder(lib, t, o);
    StartChecks(last);
    Look(last, 0);
    Look(last, 1);
    if thumb.value != ConfirmationKey(t.claims.value) {
      RefusedLate(first, last, WrongKey(None));
      RefusedOnce(first + last, WrongKey(None), WrongKey(None));
      return Err(WrongKey(None));
    }
    r := Permitted(lib, t, o, seen);
    if r.Err? && r != Err(Revoked) {
      RefusedOnce(first + last, r.error, r.error);
    }
  }

  // ---------------------------------------------------------------- the held list behind the hook

  /** Hook: the list as held when the request is checked. */
  function HookOf(c: Revocations.Cache, now: Instant): Hook {
    (jti: string, party: string, iat: Int64) => Revocations.AnswerOf(c, jti, party, iat, now).revoked
  }

  lemma SubjectIsAParty(lib: Libraries, t: Token, o: Options, seen: Replay.Seen)
    requires AllPass(Checks(lib, t, o, seen))
    ensures TextOf(Said(t), "sub") in Chained(lib, t)
  {
    AllPassTogether(BeforeMemory(lib, t, o), AfterMemory(lib, t, o, seen));
    ClaimsInOrder(lib, t, o);
    assert AfterMemory(lib, t, o, seen)[2].ok;
  }

  /** Under a closed fail mode, a token that passed every other check is verified exactly when a list is held, young
      enough, and nothing live in it covers the token for any party of its chain; else it is refused as revoked. */
  lemma VerifiedExactlyWhenNobodyIsRevoked(lib: Libraries, t: Token, o: Options, seen: Replay.Seen,
                                           c: Revocations.Cache)
    requires o.revoked == Some(HookOf(c, o.now)) && c.failMode.FailClosed?
    requires AllPass(Checks(lib, t, o, seen))
    ensures !Refuses(lib, t, o)
            <==> && c.held.Some? && Revocations.Age(c, o.now) <= c.maxAge
                 && forall p | p in Chained(lib, t) ::
                      !Revocations.Hits(c.held.value, TextOf(Said(t), "jti"), p, IssuedAt(lib, Said(t)), o.now)
  {
    hide Revocations.Hits, Revocations.AnswerOf, Revocations.Age, IssuedAt, Chained, Checks;
    SubjectIsAParty(lib, t, o, seen);
    var jti, iat, h := TextOf(Said(t), "jti"), IssuedAt(lib, Said(t)), o.revoked.value;
    forall p
      ensures h(jti, p, iat) <==> !(c.held.Some? && Revocations.Age(c, o.now) <= c.maxAge
                                    && !Revocations.Hits(c.held.value, jti, p, iat, o.now))
    {
      Revocations.ClosedMeansKnown(c, jti, p, iat, o.now);
    }
  }

  /** A live entry naming any party of the chain revokes a token issued by then, however old the list is, and a live
      entry naming the token revokes it for all of them, under either fail mode. */
  lemma ALiveEntryRevokes(lib: Libraries, t: Token, o: Options, seen: Replay.Seen, c: Revocations.Cache,
                          e: Revocations.Revocation)
    requires o.revoked == Some(HookOf(c, o.now)) && c.held.Some? && e in c.held.value.revocations
    requires Revocations.LiveAt(e, o.now) && AllPass(Checks(lib, t, o, seen))
    requires (e.jti != "" && e.jti == TextOf(Said(t), "jti"))
             || (e.subject != "" && e.subject in Chained(lib, t) && IssuedAt(lib, Said(t)) <= e.issuedBefore)
    ensures Refuses(lib, t, o)
  {
    hide IssuedAt, Chained, Checks;
    SubjectIsAParty(lib, t, o, seen);
    var p := if e.subject in Chained(lib, t) then e.subject else TextOf(Said(t), "sub");
    assert Revocations.Covers(e, TextOf(Said(t), "jti"), p, IssuedAt(lib, Said(t)));
    assert o.revoked.value(TextOf(Said(t), "jti"), p, IssuedAt(lib, Said(t)));
  }

  /** An act that names nobody, or none at all, is no chain: such a token is malformed even with a subject. */
  lemma NoActIsNoChain(lib: Libraries, t: Token, o: Options, seen: Replay.Seen)
    requires Claim(Said(t), "act") == Null
    ensures !AllPass(Checks(lib, t, o, seen))
  {
    var sub := TextOf(Said(t), "sub");
    var n := Nested("", None);
    assert Subs(n) == [""];
    assert Act.Reverse([""]) == [""];
    Delegation.EmptyIsNoEntry();
    assert "" in Party(sub, n);
    AllPassTogether(BeforeMemory(lib, t, o), AfterMemory(lib, t, o, seen));
    assert !AfterMemory(lib, t, o, seen)[2].ok;
  }

  /** An entry the memory did not hold before. */
  predicate NewEntry(seen: Replay.Seen, after: Replay.Seen, id: string) {
    id in after && (id !in seen || seen[id] != after[id])
  }

  /** Unlike a door's, this memory is spent before the key is compared and before the chain and the list are asked. A
      presentation, refused or not, leaves a new entry exactly when every check before the memory passes and the id was
      not held; the entry is the proof's own. */
  lemma ProofSpentExactly(lib: Libraries, t: Token, o: Options, seen: Replay.Seen)
    ensures var after := Remembered(lib, t, o, seen);
            && ((exists id :: NewEntry(seen, after, id)) <==>
                  AllPass(BeforeMemory(lib, t, o)) && AfterMemory(lib, t, o, seen)[0].ok)
            && forall id | NewEntry(seen, after, id) :: Proved(lib, o).Ok? && id == Proved(lib, o).value.jti
  {
    hide BeforeMemory, Dpop.VerifyProof;
    var after, p := Remembered(lib, t, o, seen), Proved(lib, o);
    if AllPass(BeforeMemory(lib, t, o)) && AfterMemory(lib, t, o, seen)[0].ok {
      ProvedIsFresh(lib, o);
      assert NewEntry(seen, after, p.value.jti);
    }
  }

  lemma ProvedIsFresh(lib: Libraries, o: Options)
    ensures Proved(lib, o).Ok? ==> !Replay.TooOld(Proved(lib, o).value.iat, o.now)
  {
    hide TextOf;
  }

  /** A proof so spent is refused as a replay when it is presented again at that moment, whatever the first presentation
      was refused for: a wrong key, a malformed chain or a revoked party. */
  lemma SpentIsReplayed(lib: Libraries, t: Token, o: Options, seen: Replay.Seen)
    requires AllPass(BeforeMemory(lib, t, o)) && AfterMemory(lib, t, o, seen)[0].ok
    ensures RefusedBy(Checks(lib, t, o, Remembered(lib, t, o, seen)), WrongKey(Some(Refusal.Replay)))
  {
    hide BeforeMemory, Dpop.VerifyProof;
    var after := Remembered(lib, t, o, seen);
    ProvedIsFresh(lib, o);
    assert FailsFirst(AfterMemory(lib, t, o, after), 0);
    RefusedLate(BeforeMemory(lib, t, o), AfterMemory(lib, t, o, after), WrongKey(Some(Refusal.Replay)));
  }

  /** So a token refused as revoked, which passed every other check, has spent its proof. */
  lemma ARevokedTokenSpendsItsProof(lib: Libraries, t: Token, o: Options, seen: Replay.Seen)
    requires AllPass(Checks(lib, t, o, seen)) && Refuses(lib, t, o)
    ensures Proved(lib, o).Ok? && Proved(lib, o).value.jti !in Replay.Pruned(seen, o.now)
    ensures NewEntry(seen, Remembered(lib, t, o, seen), Proved(lib, o).value.jti)
    ensures RefusedBy(Checks(lib, t, o, Remembered(lib, t, o, seen)), WrongKey(Some(Refusal.Replay)))
  {
    hide BeforeMemory, Dpop.VerifyProof, Remembered, NewEntry;
    AllPassTogether(BeforeMemory(lib, t, o), AfterMemory(lib, t, o, seen));
    assert AfterMemory(lib, t, o, seen)[0].ok;
    ProofSpentExactly(lib, t, o, seen);
    SpentIsReplayed(lib, t, o, seen);
  }
}
