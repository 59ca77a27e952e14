/** The proof of section 4.3 of RFC 9449, up to remembering it. */
module Dpop {
  import opened Wrappers
  import opened Clock
  import opened Claims
  import Replay

  /** A proof as its libraries read it: the thumbprint of the key that signed it, or why there is none, and claims. */
  datatype Proof = Proof(key: Result<string, Refusal>, claims: ClaimSet)

  /** What a proof establishes before anything remembers it. */
  datatype Presented = Presented(thumb: string, jti: string, ath: string, iat: Int64)

  /** A proof is for one request, at one moment, and can be told from any other. */
  predicate Holds(lib: Libraries, p: Proof, httpMethod: string, url: string, now: Instant) {
    && p.key.Ok?
    && TextOf(p.claims, "htm") == httpMethod
    && lib.sameUrl(TextOf(p.claims, "htu"), url)
    && Claim(p.claims, "iat").Number?
    && Replay.Fresh(AsUnix(lib, Claim(p.claims, "iat")).value, now)
    && TextOf(p.claims, "jti") != ""
  }

  function Establishes(lib: Libraries, p: Proof): Presented
    requires p.key.Ok? && Claim(p.claims, "iat").Number?
  {
    Presented(p.key.value, TextOf(p.claims, "jti"), TextOf(p.claims, "ath"), AsUnix(lib, Claim(p.claims, "iat")).value)
  }

  /** The same, in the order a refusal is chosen in. */
  function HeldTo(lib: Libraries, p: Proof, httpMethod: string, url: string, now: Instant): seq<Check> {
    var iat := AsUnix(lib, Claim(p.claims, "iat"));
    [ Claims.Check(p.key.Ok?, if p.key.Err? then p.key.error else Signature),
      Claims.Check(TextOf(p.claims, "htm") == httpMethod, Binding),
      Claims.Check(lib.sameUrl(TextOf(p.claims, "htu"), url), Binding),
      Claims.Check(iat.Some?, Stale),
      Claims.Check(iat.Some? && Replay.Fresh(iat.value, now), Stale),
      Claims.Check(TextOf(p.claims, "jti") != "", Refusal.Replay) ]
  }

  /** Which refusal, and when, for a proof whose signature holds; one whose signature does not is refused for that. */
  lemma RefusalMeans(lib: Libraries, p: Proof, httpMethod: string, url: string, now: Instant)
    ensures var l := HeldTo(lib, p, httpMethod, url, now);
            var here := TextOf(p.claims, "htm") == httpMethod && lib.sameUrl(TextOf(p.claims, "htu"), url);
            var iat := Claim(p.claims, "iat");
            var timely := iat.Number? && Replay.Fresh(AsUnix(lib, iat).value, now);
            && (p.key.Err? ==> forall e :: RefusedBy(l, e) <==> e == p.key.error)
            && (p.key.Ok? ==>
                  && (RefusedBy(l, Binding) <==> !here)
                  && (RefusedBy(l, Stale) <==> here && !timely)
                  && (RefusedBy(l, Refusal.Replay) <==> here && timely && TextOf(p.claims, "jti") == ""))
  {
    hide TextOf, RefusedBy, AllPass, Replay.Fresh;
    var l := HeldTo(lib, p, httpMethod, url, now);
    assert l[0].ok <==> p.key.Ok?;
    assert l[1].ok <==> TextOf(p.claims, "htm") == httpMethod;
    assert l[2].ok <==> lib.sameUrl(TextOf(p.claims, "htu"), url);
    assert l[3].ok <==> Claim(p.claims, "iat").Number?;
    assert l[3].ok ==> (l[4].ok <==> Replay.Fresh(AsUnix(lib, Claim(p.claims, "iat")).value, now));
    assert l[5].ok <==> TextOf(p.claims, "jti") != "";
    if AllPass(l) {
      NeverRefused(l);
      EachPasses(l);
    } else {
      var k := FirstFailing(l);
      RefusedOnly(l, k);
    }
  }

  function VerifyProof(lib: Libraries, p: Proof, httpMethod: string, url: string, now: Instant):
    (r: Result<Presented, Refusal>)
    ensures r.Ok? <==> Holds(lib, p, httpMethod, url, now)
    ensures r.Ok? ==> r.value == Establishes(lib, p)
    ensures r.Err? ==> RefusedBy(HeldTo(lib, p, httpMethod, url, now), r.error)
  {
    StartChecks(HeldTo(lib, p, httpMethod, url, now));
    Look(HeldTo(lib, p, httpMethod, url, now), 0);
    if p.key.Err? then Err(p.key.error)
    else
      Look(HeldTo(lib, p, httpMethod, url, now), 1);
      if TextOf(p.claims, "htm") != httpMethod then Err(Binding)
      else
        Look(HeldTo(lib, p, httpMethod, url, now), 2);
        if !lib.sameUrl(TextOf(p.claims, "htu"), url) then Err(Binding)
        else
          Look(HeldTo(lib, p, httpMethod, url, now), 3);
          var iat := AsUnix(lib, Claim(p.claims, "iat"));
          if iat.None? then Err(Stale)
          else
            Look(HeldTo(lib, p, httpMethod, url, now), 4);
            var drift := now - iat.value * SECOND;
            if drift < -Replay.WINDOW * SECOND || drift > Replay.WINDOW * SECOND then Err(Stale)
            else
              Look(HeldTo(lib, p, httpMethod, url, now), 5);
              var jti := TextOf(p.claims, "jti");
              if jti == "" then Err(Refusal.Replay)
              else Ok(Presented(p.key.value, jti, TextOf(p.claims, "ath"), iat.value))
  }

  /** Verify a proof for one request and remember it: a proof that does not hold leaves the memory as it was. */
  method Check(lib: Libraries, v: Replay.Verifier, p: Proof, httpMethod: string, url: string, now: Instant)
    returns (r: Result<string, Refusal>)
    modifies v
    ensures v.seen == if Holds(lib, p, httpMethod, url, now)
                      then var e := Establishes(lib, p); Replay.SeenAfter(old(v.seen), e.jti, e.iat, now)
                      else old(v.seen)
    ensures var e := VerifyProof(lib, p, httpMethod, url, now);
            r == if e.Err? then Err(e.error)
                 else if e.value.jti in Replay.Pruned(old(v.seen), now) then Err(Refusal.Replay)
                 else Ok(e.value.thumb)
  {
    var e := VerifyProof(lib, p, httpMethod, url, now);
    if e.Err? {
      return Err(e.error);
    }
    var replayed := v.Remember(e.value.jti, e.value.iat, now);
    if replayed {
      return Err(Refusal.Replay);
    }
    return Ok(e.value.thumb);
  }
}
