/** One delegation token with a proof, that an enforcement point refuses as revoked and for nothing else. */
module SmallToken {
  import opened Wrappers
  import opened Clock
  import opened Claims
  import Act
  import Delegation
  import Dpop
  import Passport
  import Replay
  import Verify

  const USER: string := "user://a"
  const AGENT: string := "agent://b"

  function SmallLibraries(): Libraries {
    Libraries((a: string, b: string) => a == b, (j: Json) => Some(Nested(AGENT, None)), (x: real) => 0)
  }

  function SmallClaims(): ClaimSet {
    map["iss" := Text("i"), "exp" := Number(100 as real), "sub" := Text(USER), "jti" := Text("t"),
        "cnf" := Object(map["jkt" := Text("k")]), "act" := Object(map[])]
  }

  function SmallProof(): Dpop.Proof {
    Dpop.Proof(Ok("k"), map["htm" := Text("GET"), "htu" := Text("u"), "iat" := Number(0 as real), "jti" := Text("p")])
  }

  function SmallDelegation(): Token { Token(None, Ok(SmallClaims()), "") }

  function SmallOptions(): Verify.Options {
    Verify.Options("i", "", 0, Some(SmallProof()), "GET", "u",
                   Some((jti: string, party: string, iat: Int64) => party == AGENT))
  }

  lemma SmallChain()
    ensures Verify.Party(USER, Nested(AGENT, None)) == [USER, AGENT] && Passport.ValidChain([USER, AGENT])
  {
    assert Subs(Nested(AGENT, None)) == [AGENT];
    assert Act.Reverse([AGENT]) == [AGENT];
    Delegation.SchemeIsPattern(USER);
    Delegation.SchemeIsPattern(AGENT);
  }

  lemma SmallProved()
    ensures Verify.Proved(SmallLibraries(), SmallOptions()) == Ok(Dpop.Presented("k", "p", "", 0))
  {
    assert AsUnix(SmallLibraries(), Number(0 as real)) == Some(0);
  }

  lemma EarlyChecksPass()
    ensures AllPass(Verify.BeforeMemory(SmallLibraries(), SmallDelegation(), SmallOptions()))
  {
    SmallProved();
    assert AsUnix(SmallLibraries(), Number(100 as real)) == Some(100);
  }

  lemma LateChecksPass()
    ensures AllPass(Verify.AfterMemory(SmallLibraries(), SmallDelegation(), SmallOptions(), map[]))
  {
    hide Passport.ValidChain, Verify.Party;
    SmallProved();
    SmallChain();
  }

  /** It passes every check but revocation, and some party of it is revoked: its proof is spent, and the next
      presentation is refused as a replay. */
  lemma ARevokedTokenExists()
    ensures var lib, t, o := SmallLibraries(), SmallDelegation(), SmallOptions();
            && AllPass(Verify.Checks(lib, t, o, map[])) && Verify.Refuses(lib, t, o)
            && "p" in Verify.Remembered(lib, t, o, map[])
  {
    hide Passport.ValidChain, Verify.Party, AllPass, Verify.BeforeMemory, Verify.AfterMemory, Dpop.VerifyProof;
    var lib, t, o := SmallLibraries(), SmallDelegation(), SmallOptions();
    SmallChain();
    SmallProved();
    EarlyChecksPass();
    LateChecksPass();
    AllPassTogether(Verify.BeforeMemory(lib, t, o), Verify.AfterMemory(lib, t, o, map[]));
    assert Verify.Chained(lib, t) == [USER, AGENT];
    assert AGENT in [USER, AGENT];
    assert o.revoked.value("t", AGENT, Verify.IssuedAt(lib, Verify.Said(t)));
  }
}
