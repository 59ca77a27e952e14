/** The nested act claim and the root-first list it stands for. */
module Act {
  import opened Wrappers

  const MAX_DEPTH: nat := 32

  /** One actor of RFC 8693 section 4.1: the outermost is the current one, nesting goes back in time. */
  class ActNode {
    var sub: string
    var act: ActNode?

    constructor (sub: string, act: ActNode?)
      ensures this.sub == sub && this.act == act
    {
      this.sub, this.act := sub, act;
    }
  }

  datatype Refusal = NoSubject | TooDeep | Self | Cycle | InvalidEntry

  function Reverse<T>(s: seq<T>): (r: seq<T>)
    ensures |r| == |s|
  {
    if s == [] then [] else Reverse(s[1..]) + [s[0]]
  }

  lemma {:induction false} ReverseAt<T>(s: seq<T>, k: nat)
    requires k < |s|
    ensures Reverse(s)[k] == s[|s| - 1 - k]
  {
    if k < |s| - 1 {
      ReverseAt(s[1..], k);
    }
  }

  lemma ReverseTwice<T>(s: seq<T>)
    ensures Reverse(Reverse(s)) == s
  {
    forall k | 0 <= k < |s|
      ensures Reverse(Reverse(s))[k] == s[k]
    {
      ReverseAt(Reverse(s), k);
      ReverseAt(s, |s| - 1 - k);
    }
  }

  lemma ReverseSnoc<T>(s: seq<T>, x: T)
    ensures Reverse(s + [x]) == [x] + Reverse(s)
  {
    forall k | 0 <= k <= |s|
      ensures Reverse(s + [x])[k] == ([x] + Reverse(s))[k]
    {
      ReverseAt(s + [x], k);
      if k > 0 {
        ReverseAt(s, k - 1);
      }
    }
  }

  // ---------------------------------------------------------------- walking the heap

  /** From a, |subs| steps inward read subs and arrive at end. A null end closes the nesting. */
  ghost predicate Path(a: ActNode?, subs: seq<string>, end: ActNode?)
    reads *
    decreases |subs|
  {
    if subs == [] then a == end
    else a != null && a.sub == subs[0] && Path(a.act, subs[1..], end)
  }

  /** The same subs, outermost first, closed. */
  ghost predicate Spells(a: ActNode?, subs: seq<string>)
    reads *
  {
    Path(a, subs, null)
  }

  lemma {:induction false} PathSnoc(a: ActNode?, subs: seq<string>, end: ActNode)
    requires Path(a, subs, end)
    ensures Path(a, subs + [end.sub], end.act)
  {
    if subs != [] {
      PathSnoc(a.act, subs[1..], end);
      assert (subs + [end.sub])[1..] == subs[1..] + [end.sub];
    }
  }

  /** The first |subs| subs on the way in. */
  ghost predicate Starts(a: ActNode?, subs: seq<string>)
    reads *
    decreases |subs|
  {
    subs != [] ==> a != null && a.sub == subs[0] && Starts(a.act, subs[1..])
  }

  lemma {:induction false} PathStarts(a: ActNode?, subs: seq<string>, end: ActNode)
    requires Path(a, subs, end)
    ensures Starts(a, subs + [end.sub])
  {
    if subs != [] {
      PathStarts(a.act, subs[1..], end);
      assert (subs + [end.sub])[1..] == subs[1..] + [end.sub];
    } else {
      assert Starts(a.act, []);
    }
  }

  lemma {:induction false} StartsAgree(a: ActNode?, s: seq<string>, t: seq<string>)
    requires Starts(a, s) && Starts(a, t) && |s| <= |t|
    ensures s == t[..|s|]
  {
    if s != [] {
      StartsAgree(a.act, s[1..], t[1..]);
      assert t[..|s|] == [t[0]] + t[1..][..|s| - 1];
    }
  }

  /** A closed nesting has no other subs than its own. */
  lemma {:induction false} SpellsStarts(a: ActNode?, s: seq<string>, t: seq<string>)
    requires Spells(a, s) && Starts(a, t)
    ensures Starts(a, s) && |t| <= |s| && t == s[..|t|]
  {
    if s != [] && t != [] {
      SpellsStarts(a.act, s[1..], t[1..]);
      assert s[..|t|] == [s[0]] + s[1..][..|t| - 1];
    } else if s != [] {
      assert Starts(a.act, []);
      SpellsStarts(a.act, s[1..], []);
    }
  }

  lemma SpellsOnce(a: ActNode?, s: seq<string>, t: seq<string>)
    requires Spells(a, s) && Spells(a, t)
    ensures s == t
  {
    assert Starts(a, []);
    SpellsStarts(a, s, []);
    SpellsStarts(a, t, []);
    SpellsStarts(a, s, t);
    SpellsStarts(a, t, s);
    assert s[..|t|] == s;
  }

  /** The node n steps in, null beyond the end. */
  ghost function At(a: ActNode?, n: nat): ActNode?
    reads *
    decreases n
  {
    if a == null || n == 0 then a else At(a.act, n - 1)
  }

  /** An act that comes back to one of its own nodes. */
  ghost predicate Cyclic(a: ActNode?)
    reads *
  {
    exists i: nat, j: nat :: i < j && At(a, i) != null && At(a, i) == At(a, j)
  }

  lemma {:induction false} SpellsFrom(a: ActNode?, s: seq<string>, n: nat)
    requires Spells(a, s) && At(a, n) != null
    ensures n < |s| && Spells(At(a, n), s[n..])
  {
    if n > 0 {
      SpellsFrom(a.act, s[1..], n - 1);
      assert s[1..][n - 1..] == s[n..];
    } else {
      assert s[0..] == s;
    }
  }

  /** No list closes a cycle. */
  lemma CycleNeverCloses(a: ActNode?, s: seq<string>)
    requires Cyclic(a)
    ensures !Spells(a, s)
  {
    if Spells(a, s) {
      var i: nat, j: nat :| i < j && At(a, i) != null && At(a, i) == At(a, j);
      SpellsFrom(a, s, i);
      SpellsFrom(a, s, j);
      SpellsOnce(At(a, i), s[i..], s[j..]);
    }
  }

  predicate NonEmpty(subs: seq<string>) { "" !in subs }

  // ---------------------------------------------------------------- reading

  lemma NamedBothWays(s: seq<string>)
    ensures NonEmpty(Reverse(s)) <==> NonEmpty(s)
  {
    forall k | 0 <= k < |s|
      ensures Reverse(s)[k] == s[|s| - 1 - k]
    {
      ReverseAt(s, k);
    }
    if "" in s {
      var k :| 0 <= k < |s| && s[k] == "";
      assert Reverse(s)[|s| - 1 - k] == s[k];
    }
  }

  /** An empty sub after fewer than 32 named ones. */
  ghost predicate EmptyAfter(a: ActNode?, subs: seq<string>)
    reads *
  {
    |subs| < MAX_DEPTH && NonEmpty(subs) && Starts(a, subs + [""])
  }

  /** A 33rd entry after 32 named ones. */
  ghost predicate GoesOn(a: ActNode?, subs: seq<string>)
    reads *
  {
    |subs| == MAX_DEPTH + 1 && NonEmpty(subs[..MAX_DEPTH]) && Starts(a, subs)
  }

  /** What ReadAct makes of a heap: a closed nesting of at most 32 named actors, root first, or the first fault on
      the way in. */
  ghost predicate Reads(a: ActNode?, r: Result<seq<string>, Refusal>)
    reads *
  {
    match r
    case Ok(chain) => |chain| <= MAX_DEPTH && NonEmpty(chain) && Spells(a, Reverse(chain))
    case Err(NoSubject) => exists subs: seq<string> :: EmptyAfter(a, subs)
    case Err(TooDeep) => exists subs: seq<string> :: GoesOn(a, subs)
    case _ => false
  }

  lemma ReadsTooDeep(a: ActNode?, subs: seq<string>)
    requires GoesOn(a, subs)
    ensures Reads(a, Err(TooDeep))
  {
  }

  /** Read the actors out of an act, current first, and turn the list round. */
  method ReadAct(act: ActNode?) returns (r: Result<seq<string>, Refusal>)
    ensures Reads(act, r)
  {
    var reversed: seq<string> := [];
    var a := act;
    while a != null
      invariant |reversed| <= MAX_DEPTH && NonEmpty(reversed)
      invariant Path(act, reversed, a)
      decreases MAX_DEPTH - |reversed|
    {
      PathStarts(act, reversed, a);
      if |reversed| >= MAX_DEPTH {
        var subs := reversed + [a.sub];
        assert subs[..MAX_DEPTH] == reversed;
        ReadsTooDeep(act, subs);
        return Err(TooDeep);
      }
      if a.sub == "" {
        assert EmptyAfter(act, reversed);
        return Err(NoSubject);
      }
      PathSnoc(act, reversed, a);
      reversed := reversed + [a.sub];
      a := a.act;
    }
    var chain := new string[|reversed|];
    for i := 0 to |reversed|
      invariant forall k | 0 <= k < i :: chain[|reversed| - 1 - k] == reversed[k]
      invariant Path(act, reversed, null)
    {
      chain[|reversed| - 1 - i] := reversed[i];
    }
    r := Ok(chain[..]);
    assert |chain[..]| == |reversed|;
    forall k | 0 <= k < |reversed|
      ensures Reverse(chain[..])[k] == reversed[k]
    {
      ReverseAt(chain[..], k);
    }
    assert Reverse(chain[..]) == reversed;
    NamedBothWays(chain[..]);
  }

  lemma FirstEmpty(s: seq<string>, t: seq<string>)
    requires |s| < |t| && s + [""] == t[..|s| + 1]
    ensures t[|s|] == ""
  {
    assert t[..|s| + 1][|s|] == (s + [""])[|s|];
  }

  /** One heap, one answer. */
  lemma ReadsOnce(a: ActNode?, r: Result<seq<string>, Refusal>, q: Result<seq<string>, Refusal>)
    requires Reads(a, r) && Reads(a, q)
    ensures r == q
  {
    hide Path, Starts, Reverse;
    if r.Ok? && q.Ok? {
      ReadsClosed(a, Reverse(r.value), q);
      NamedBothWays(r.value);
      ReverseTwice(r.value);
    } else if r.Ok? {
      NamedBothWays(r.value);
      ReadsClosed(a, Reverse(r.value), q);
    } else if q.Ok? {
      NamedBothWays(q.value);
      ReadsClosed(a, Reverse(q.value), r);
    } else if r != q {
      var e, d := if r == Err(NoSubject) then r else q, if r == Err(NoSubject) then q else r;
      var subs: seq<string> :| EmptyAfter(a, subs);
      var long: seq<string> :| GoesOn(a, long);
      StartsAgree(a, subs + [""], long);
      FirstEmpty(subs, long);
    }
  }

  /** A closed nesting is read exactly when it has at most 32 entries and none is empty, and then reads as its subs,
      root first. */
  lemma ReadsClosed(a: ActNode?, subs: seq<string>, r: Result<seq<string>, Refusal>)
    requires Spells(a, subs) && Reads(a, r)
    ensures r.Ok? <==> |subs| <= MAX_DEPTH && NonEmpty(subs)
    ensures r.Ok? ==> r.value == Reverse(subs)
  {
    hide Path, Starts, Reverse;
    match r
    case Ok(chain) =>
      SpellsOnce(a, subs, Reverse(chain));
      ReverseTwice(chain);
      NamedBothWays(chain);
    case Err(NoSubject) =>
      var s: seq<string> :| EmptyAfter(a, s);
      SpellsStarts(a, subs, s + [""]);
      FirstEmpty(s, subs);
    case Err(TooDeep) =>
      var s: seq<string> :| GoesOn(a, s);
      SpellsStarts(a, subs, s);
    case _ =>
  }

  /** More than 32 named actors are too deep. */
  lemma LongIsTooDeep(a: ActNode?, subs: seq<string>, r: Result<seq<string>, Refusal>)
    requires Spells(a, subs) && Reads(a, r) && |subs| > MAX_DEPTH
    ensures r.Err? && (NonEmpty(subs) ==> r.error == TooDeep)
  {
    hide Path, Starts, Reverse;
    ReadsClosed(a, subs, r);
    if r == Err(NoSubject) {
      var s: seq<string> :| EmptyAfter(a, s);
      SpellsStarts(a, subs, s + [""]);
      FirstEmpty(s, subs);
    }
  }

  /** A cyclic act is refused. */
  lemma CyclicIsRefused(a: ActNode?, r: Result<seq<string>, Refusal>)
    requires Cyclic(a) && Reads(a, r)
    ensures r.Err?
  {
    if r.Ok? {
      CycleNeverCloses(a, Reverse(r.value));
    }
  }

  // ---------------------------------------------------------------- building

  /** Wrap each actor of a root-first chain around what came before it. */
  method BuildAct(chain: seq<string>) returns (r: Result<ActNode?, Refusal>)
    ensures r == Err(TooDeep) <==> |chain| > MAX_DEPTH
    ensures r == Err(NoSubject) <==> |chain| <= MAX_DEPTH && !NonEmpty(chain)
    ensures r.Ok? <==> |chain| <= MAX_DEPTH && NonEmpty(chain)
    ensures r.Ok? ==> Spells(r.value, Reverse(chain)) && (r.value != null ==> fresh(r.value))
  {
    if |chain| == 0 {
      return Ok(null);
    }
    if |chain| > MAX_DEPTH {
      return Err(TooDeep);
    }
    var act: ActNode? := null;
    for i := 0 to |chain|
      invariant NonEmpty(chain[..i])
      invariant Spells(act, Reverse(chain[..i]))
      invariant act != null ==> fresh(act)
    {
      if chain[i] == "" {
        return Err(NoSubject);
      }
      ReverseSnoc(chain[..i], chain[i]);
      assert chain[..i + 1] == chain[..i] + [chain[i]];
      var outer := new ActNode(chain[i], act);
      act := outer;
    }
    assert chain[..|chain|] == chain;
    return Ok(act);
  }

  /** ReadAct undoes BuildAct: an act that spells a chain of at most 32 names, built or not, reads as that chain and
      as nothing else. */
  lemma {:induction false} BuiltReadsBack(chain: seq<string>, a: ActNode?, r: Result<seq<string>, Refusal>)
    requires |chain| <= MAX_DEPTH && NonEmpty(chain) && Spells(a, Reverse(chain))
    ensures Reads(a, r) <==> r == Ok(chain)
  {
    if Reads(a, r) {
      ReadsOnce(a, r, Ok(chain));
    }
  }

  /** BuildAct undoes ReadAct: what was read can be built, and what is built spells the same act. */
  lemma ReadBuildsBack(a: ActNode?, chain: seq<string>, b: ActNode?, subs: seq<string>)
    requires Reads(a, Ok(chain)) && Spells(b, Reverse(chain))
    ensures |chain| <= MAX_DEPTH && NonEmpty(chain)
    ensures Spells(a, subs) <==> Spells(b, subs)
  {
    if Spells(a, subs) {
      SpellsOnce(a, subs, Reverse(chain));
    }
    if Spells(b, subs) {
      SpellsOnce(b, subs, Reverse(chain));
    }
  }
}
