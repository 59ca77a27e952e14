/** The record's own rules for a delegation chain: append one entry, validate a list. */
module Passport {
  import opened Wrappers

  const MAX_DEPTH: nat := 32

  datatype Fault = Cycle | TooDeep | InvalidEntry

  const SCHEMES: set<string> := {"agent", "user"}

  /** The pattern ^(agent|user):// */
  predicate IsEntry(p: string) {
    exists scheme | scheme in SCHEMES :: scheme + "://" <= p
  }

  predicate Distinct(chain: seq<string>) {
    forall i, j | 0 <= i < j < |chain| :: chain[i] != chain[j]
  }

  predicate AllEntries(chain: seq<string>) { forall p | p in chain :: IsEntry(p) }

  /** Section 5.1 of the agent-passport specification. The empty chain is valid. */
  predicate ValidChain(chain: seq<string>) {
    |chain| <= MAX_DEPTH && Distinct(chain) && AllEntries(chain)
  }

  /** The first entry at fault, and how: everything before it is in order. */
  predicate FaultAt(chain: seq<string>, i: nat, f: Fault) {
    && i < |chain| && Distinct(chain[..i]) && AllEntries(chain[..i])
    && f == (if chain[i] in chain[..i] then Cycle else InvalidEntry)
    && (chain[i] in chain[..i] || !IsEntry(chain[i]))
  }

  ghost predicate Faulty(chain: seq<string>, f: Fault) {
    if |chain| > MAX_DEPTH then f == TooDeep else exists i: nat :: FaultAt(chain, i, f)
  }

  /** A chain has one fault or is valid, never both. */
  lemma OneFault(chain: seq<string>, f: Fault, g: Fault)
    requires Faulty(chain, f)
    ensures !ValidChain(chain)
    ensures Faulty(chain, g) ==> f == g
  {
    if |chain| <= MAX_DEPTH {
      var i: nat :| FaultAt(chain, i, f);
      FaultyIsInvalid(chain, i, f);
      if Faulty(chain, g) {
        var j: nat :| FaultAt(chain, j, g);
        FirstFaultIsFirst(chain, i, f, j, g);
        FirstFaultIsFirst(chain, j, g, i, f);
      }
    }
  }

  lemma FirstFaultIsFirst(chain: seq<string>, i: nat, f: Fault, j: nat, g: Fault)
    requires FaultAt(chain, i, f) && FaultAt(chain, j, g)
    ensures i <= j
  {
  }

  lemma FaultyIsInvalid(chain: seq<string>, i: nat, f: Fault)
    requires i < |chain| && (chain[i] in chain[..i] || !IsEntry(chain[i]))
    ensures !Distinct(chain) || !AllEntries(chain)
  {
    if chain[i] in chain[..i] {
      var k :| 0 <= k < i && chain[..i][k] == chain[i];
      assert chain[k] == chain[i];
    }
  }

  lemma SnocInOrder(chain: seq<string>, p: string)
    ensures Distinct(chain + [p]) <==> Distinct(chain) && p !in chain
    ensures AllEntries(chain + [p]) <==> AllEntries(chain) && IsEntry(p)
  {
    var l := chain + [p];
    forall i | 0 <= i < |chain|
      ensures l[i] == chain[i]
    {
    }
    if Distinct(l) {
      assert forall i | 0 <= i < |chain| :: l[i] != l[|chain|];
    }
    assert l[|chain|] == p && p in l;
    assert forall q :: q in l <==> q in chain || q == p;
  }

  /** Acyclic, at most 32 entries, each an agent:// or user:// URI; the first fault otherwise. */
  method Validate(chain: seq<string>) returns (fault: Option<Fault>)
    ensures fault.None? <==> ValidChain(chain)
    ensures fault.Some? ==> Faulty(chain, fault.value)
  {
    if |chain| > MAX_DEPTH {
      return Some(TooDeep);
    }
    var seen: set<string> := {};
    for i := 0 to |chain|
      invariant seen == (set p | p in chain[..i])
      invariant Distinct(chain[..i]) && AllEntries(chain[..i])
    {
      var p := chain[i];
      if p in seen {
        assert FaultAt(chain, i, Cycle);
        FaultyIsInvalid(chain, i, Cycle);
        return Some(Cycle);
      }
      seen := seen + {p};
      if !IsEntry(p) {
        assert FaultAt(chain, i, InvalidEntry);
        FaultyIsInvalid(chain, i, InvalidEntry);
        return Some(InvalidEntry);
      }
      assert chain[..i + 1] == chain[..i] + [p];
      SnocInOrder(chain[..i], p);
    }
    assert chain[..|chain|] == chain;
    return None;
  }

  /** Why a principal may not be appended. */
  function AppendFault(chain: seq<string>, p: string): Option<Fault> {
    if p in chain then Some(Cycle)
    else if |chain| >= MAX_DEPTH then Some(TooDeep)
    else None
  }

  /** A new chain with the principal at its end, in memory of its own. */
  method Append(chain: array<string>, principal: string) returns (out: array?<string>, fault: Option<Fault>)
    ensures fault == AppendFault(chain[..], principal)
    ensures fault.None? <==> out != null
    ensures out != null ==> fresh(out) && out[..] == chain[..] + [principal]
  {
    for i := 0 to chain.Length
      invariant principal !in chain[..i]
    {
      if chain[i] == principal {
        assert chain[..][i] == principal;
        return null, Some(Cycle);
      }
      assert chain[..i + 1] == chain[..i] + [chain[i]];
    }
    assert chain[..chain.Length] == chain[..];
    if chain.Length >= MAX_DEPTH {
      return null, Some(TooDeep);
    }
    out := new string[chain.Length + 1](i requires 0 <= i <= chain.Length reads chain =>
      if i < chain.Length then chain[i] else principal);
    assert out[..] == chain[..] + [principal];
    fault := None;
  }
}
