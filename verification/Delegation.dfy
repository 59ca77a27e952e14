/** The door's chain: extend a root-first list, and assemble the list a token stands for. */
module Delegation {
  import opened Wrappers
  import opened Act
  import Passport

  const MAX_ACTORS_WITH_SUBJECT: nat := MAX_DEPTH - 1

  /** What the door and the record each say of the same fault. */
  function Mapped(f: Passport.Fault): Refusal {
    match f
    case Cycle => Cycle
    case TooDeep => TooDeep
    case InvalidEntry => InvalidEntry
  }

  /** The scheme only, by prefix. */
  predicate HasScheme(p: string) { "agent://" <= p || "user://" <= p }

  lemma SchemeIsPattern(p: string)
    ensures HasScheme(p) <==> Passport.IsEntry(p)
  {
    assert "agent" + "://" == "agent://" && "user" + "://" == "user://";
    assert "agent" in Passport.SCHEMES && "user" in Passport.SCHEMES;
  }

  // ---------------------------------------------------------------- extending

  function ExtendFault(chain: seq<string>, actor: string): Option<Refusal> {
    if actor == "" then Some(NoSubject)
    else if |chain| + 1 > MAX_DEPTH then Some(TooDeep)
    else if actor in chain then Some(Self)
    else None
  }

  /** A new chain with one more actor, in memory of its own. */
  method Extend(chain: array<string>, actor: string) returns (out: array?<string>, fault: Option<Refusal>)
    ensures fault == ExtendFault(chain[..], actor)
    ensures fault.None? <==> out != null
    ensures out != null ==> fresh(out) && out[..] == chain[..] + [actor]
  {
    if actor == "" {
      return null, Some(NoSubject);
    }
    if chain.Length + 1 > MAX_DEPTH {
      return null, Some(TooDeep);
    }
    for i := 0 to chain.Length
      invariant actor !in chain[..i]
    {
      if chain[i] == actor {
        assert chain[..][i] == actor;
        return null, Some(Self);
      }
      assert chain[..i + 1] == chain[..i] + [chain[i]];
    }
    assert chain[..chain.Length] == chain[..];
    out := new string[chain.Length + 1](i requires 0 <= i <= chain.Length reads chain =>
      if i < chain.Length then chain[i] else actor);
    assert out[..] == chain[..] + [actor];
    fault := None;
  }

  /** A valid chain takes one more URI from either package exactly when the longer chain is valid. */
  lemma OneMoreIsValid(chain: seq<string>, p: string)
    requires Passport.ValidChain(chain) && Passport.IsEntry(p)
    ensures Passport.AppendFault(chain, p).None? <==> Passport.ValidChain(chain + [p])
    ensures ExtendFault(chain, p).None? <==> Passport.ValidChain(chain + [p])
  {
    Passport.SnocInOrder(chain, p);
    SchemeIsPattern(p);
  }

  /** The two packages name the same fault, except twice: on a full chain that names the principal too, one says cycle
      and the other says too deep; and an empty principal, which one refuses always, the other takes like any other. */
  lemma FaultsAgree(chain: seq<string>, p: string)
    ensures ExtendFault(chain, p).None? <==> p != "" && Passport.AppendFault(chain, p).None?
    ensures p == "" ==> ExtendFault(chain, p) == Some(NoSubject)
    ensures p == "" && |chain| < MAX_DEPTH && p !in chain ==> Passport.AppendFault(chain, p).None?
    ensures (ExtendFault(chain, p), Passport.AppendFault(chain, p)) in
            {(None, None), (Some(Self), Some(Passport.Cycle)), (Some(TooDeep), Some(Passport.TooDeep))}
            <==> p != "" && !(p in chain && |chain| >= MAX_DEPTH)
  {
  }

  /** One step of growth: by which package, and which principal. */
  datatype Growth = Append(p: string) | Extend(p: string)

  /** The chain grown from nothing, while no step is refused. */
  function Grown(steps: seq<Growth>): Option<seq<string>> {
    if steps == [] then Some([])
    else
      var before, last := Grown(steps[..|steps| - 1]), steps[|steps| - 1];
      if before.None? then None
      else if last.Append? && Passport.AppendFault(before.value, last.p).Some? then None
      else if last.Extend? && ExtendFault(before.value, last.p).Some? then None
      else Some(before.value + [last.p])
  }

  function Principals(steps: seq<Growth>): seq<string> { seq(|steps|, i requires 0 <= i < |steps| => steps[i].p) }

  /** Growing by URI principals, whichever package does each step, gives exactly the valid chains. */
  lemma {:induction false} GrownExactlyWhenValid(steps: seq<Growth>)
    requires Passport.AllEntries(Principals(steps))
    ensures Grown(steps) == if Passport.ValidChain(Principals(steps)) then Some(Principals(steps)) else None
  {
    if steps != [] {
      var before, last := steps[..|steps| - 1], steps[|steps| - 1];
      assert Principals(steps) == Principals(before) + [last.p];
      Passport.SnocInOrder(Principals(before), last.p);
      GrownExactlyWhenValid(before);
      if Passport.ValidChain(Principals(before)) {
        OneMoreIsValid(Principals(before), last.p);
      }
    }
  }

  // ---------------------------------------------------------------- the chain of a token

  /** The subject, if any, then the actors, root first. */
  function Entries(sub: string, actors: seq<string>): seq<string> {
    if sub == "" then actors else [sub] + actors
  }

  /** What Chain makes of a subject and an act. */
  ghost predicate Assembles(sub: string, act: ActNode?, r: Result<seq<string>, Refusal>)
    reads *
  {
    exists q: Result<seq<string>, Refusal> :: Reads(act, q) && AssembledFrom(sub, q, r)
  }

  ghost predicate AssembledFrom(sub: string, q: Result<seq<string>, Refusal>, r: Result<seq<string>, Refusal>) {
    match q
    case Err(e) => r == Err(e)
    case Ok(actors) =>
      var chain := Entries(sub, actors);
      if Passport.ValidChain(chain) then r == Ok(chain)
      else exists f :: r == Err(Mapped(f)) && Passport.Faulty(chain, f)
  }

  /** The on_behalf_of of a token: the subject, then the actors of its act, refused as the record would. */
  method Chain(sub: string, act: ActNode?) returns (r: Result<seq<string>, Refusal>)
    ensures Assembles(sub, act, r)
  {
    var q := ReadAct(act);
    if q.Err? {
      assert AssembledFrom(sub, q, Err(q.error));
      return Err(q.error);
    }
    var actors := q.value;
    var out := actors;
    assert Entries(sub, actors) == if sub == "" then actors else [sub] + actors;
    if sub != "" {
      if |actors| > MAX_ACTORS_WITH_SUBJECT {
        assert Passport.Faulty([sub] + actors, Passport.TooDeep);
        assert AssembledFrom(sub, q, Err(Mapped(Passport.TooDeep)));
        return Err(TooDeep);
      }
      out := [sub] + actors;
    }
    var seen: set<string> := {};
    for i := 0 to |out|
      invariant seen == (set p | p in out[..i])
      invariant Passport.Distinct(out[..i]) && Passport.AllEntries(out[..i])
      invariant Reads(act, q)
    {
      var p := out[i];
      SchemeIsPattern(p);
      if p in seen {
        assert Passport.FaultAt(out, i, Passport.Cycle);
        FaultIsAssembled(sub, q, i, Passport.Cycle);
        return Err(Cycle);
      }
      seen := seen + {p};
      if !("agent://" <= p) && !("user://" <= p) {
        assert Passport.FaultAt(out, i, Passport.InvalidEntry);
        FaultIsAssembled(sub, q, i, Passport.InvalidEntry);
        return Err(InvalidEntry);
      }
      assert out[..i + 1] == out[..i] + [p];
      Passport.SnocInOrder(out[..i], p);
    }
    assert out[..|out|] == out;
    assert AssembledFrom(sub, q, Ok(out));
    return Ok(out);
  }

  lemma FaultIsAssembled(sub: string, q: Result<seq<string>, Refusal>, i: nat, f: Passport.Fault)
    requires q.Ok? && |Entries(sub, q.value)| <= MAX_DEPTH && Passport.FaultAt(Entries(sub, q.value), i, f)
    ensures AssembledFrom(sub, q, Err(Mapped(f)))
  {
    Passport.OneFault(Entries(sub, q.value), f, f);
  }

  /** The door's chain and the record's Validate agree. On an act that closes, Chain accepts exactly when the list
      made of the subject and the root-first actors is valid, returns that list, and otherwise names the fault the
      record names, as long as no actor is empty. */
  lemma DoorAndRecordAgree(sub: string, act: ActNode?, subs: seq<string>, r: Result<seq<string>, Refusal>)
    requires Spells(act, subs) && Assembles(sub, act, r)
    ensures var chain := Entries(sub, Reverse(subs));
            && (r.Ok? <==> Passport.ValidChain(chain))
            && (r.Ok? ==> r.value == chain)
            && (r.Err? && NonEmpty(subs) ==> exists f :: r == Err(Mapped(f)) && Passport.Faulty(chain, f))
  {
    hide Spells, Reads, Passport.Distinct;
    var q :| Reads(act, q) && AssembledFrom(sub, q, r);
    ReadsClosed(act, subs, q);
    var chain := Entries(sub, Reverse(subs));
    if q.Err? {
      NamedBothWays(subs);
      if |subs| > MAX_DEPTH {
        LongIsTooDeep(act, subs, q);
        assert Passport.Faulty(chain, Passport.TooDeep);
        if NonEmpty(subs) {
          assert r == Err(Mapped(Passport.TooDeep));
        }
      } else {
        EmptyIsNoEntry();
        assert "" in chain;
      }
    }
  }

  /** A chain stands only on actors that can be read. */
  lemma ChainNeedsActors(sub: string, act: ActNode?, q: Result<seq<string>, Refusal>, r: Result<seq<string>, Refusal>)
    requires Reads(act, q) && Assembles(sub, act, r)
    ensures AssembledFrom(sub, q, r)
  {
    hide Reads;
    var p :| Reads(act, p) && AssembledFrom(sub, p, r);
    ReadsOnce(act, p, q);
  }

  lemma EmptyIsNoEntry()
    ensures !Passport.IsEntry("")
  {
    SchemeIsPattern("");
  }

  /** A chain cut into a token and read back: the subject is its root, the act is built from the rest. */
  lemma TokenKeepsItsChain(chain: seq<string>, act: ActNode?, r: Result<seq<string>, Refusal>)
    requires chain != [] && Passport.ValidChain(chain)
    requires Spells(act, Reverse(chain[1..])) && Assembles(chain[0], act, r)
    ensures r == Ok(chain)
  {
    EmptyIsNoEntry();
    ReverseTwice(chain[1..]);
    assert chain[0] in chain;
    assert Entries(chain[0], chain[1..]) == chain;
    DoorAndRecordAgree(chain[0], act, Reverse(chain[1..]), r);
  }

  /** An act built from the whole chain, root included, names the root twice. */
  lemma {:induction false} RootInsideActIsRefused(chain: seq<string>, act: ActNode?, r: Result<seq<string>, Refusal>)
    requires chain != [] && Passport.ValidChain(chain)
    requires Spells(act, Reverse(chain)) && Assembles(chain[0], act, r)
    ensures r == Err(if |chain| == MAX_DEPTH then TooDeep else Cycle)
  {
    EmptyIsNoEntry();
    ReverseTwice(chain);
    assert chain[0] in chain;
    NamedBothWays(chain);
    var list := [chain[0]] + chain;
    assert list[0] == list[1];
    DoorAndRecordAgree(chain[0], act, Reverse(chain), r);
    if |chain| < MAX_DEPTH {
      assert list[..1] == [chain[0]];
      assert Passport.FaultAt(list, 1, Passport.Cycle);
      var f :| r == Err(Mapped(f)) && Passport.Faulty(list, f);
      Passport.OneFault(list, f, Passport.Cycle);
    }
  }
}
