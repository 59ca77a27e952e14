/** Bytes, lines and white space: what the event package takes from `bytes` and `unicode`. */
module Bytes {

  newtype byte = b: int | 0 <= b < 0x100

  type Bytes = seq<byte>

  const LF: byte := 0x0A

  // ---------------------------------------------------------------- lines

  ghost predicate NoLF(s: Bytes) { LF !in s }

  ghost predicate AllNoLF(lines: seq<Bytes>) {
    forall i | 0 <= i < |lines| :: NoLF(lines[i])
  }

  /** The index of the first LF, or the length when there is none. */
  function FirstLF(s: Bytes): (i: nat)
    ensures i <= |s|
    ensures i < |s| ==> s[i] == LF
    ensures LF !in s[..i]
  {
    if s == [] || s[0] == LF then 0
    else
      var i := FirstLF(s[1..]) + 1;
      assert s[..i] == [s[0]] + s[1..][..i - 1];
      i
  }

  /** The newline-terminated lines of a stream, without their LFs. */
  function Lines(s: Bytes): seq<Bytes>
    decreases |s|
  {
    var i := FirstLF(s);
    if i == |s| then [] else [s[..i]] + Lines(s[i + 1..])
  }

  /** What follows the last LF. */
  function Fragment(s: Bytes): Bytes
    decreases |s|
  {
    var i := FirstLF(s);
    if i == |s| then s else Fragment(s[i + 1..])
  }

  /** The bytes of a list of lines, each with its LF. */
  function Join(lines: seq<Bytes>): Bytes {
    if lines == [] then [] else lines[0] + [LF] + Join(lines[1..])
  }

  /** The bytes of s through its n-th LF. */
  function Through(s: Bytes, n: nat): Bytes
    requires n <= |Lines(s)|
  {
    Join(Lines(s)[..n])
  }

  lemma {:induction false} SplitJoin(s: Bytes)
    ensures Join(Lines(s)) + Fragment(s) == s
    decreases |s|
  {
    hide FirstLF, Lines, Fragment, Join;
    var i := FirstLF(s);
    LinesFirst(s);
    FragmentFirst(s);
    if i == |s| {
      JoinCons([], []);
      assert [] + s == s;
    } else {
      var l, t := s[..i], s[i + 1..];
      SplitJoin(t);
      JoinCons(l, Lines(t));
      Assoc(l + [LF], Join(Lines(t)), Fragment(t));
      assert s == l + [LF] + t;
    }
  }

  lemma LinesFirst(s: Bytes)
    ensures FirstLF(s) == |s| ==> Lines(s) == []
    ensures FirstLF(s) < |s| ==> Lines(s) == [s[..FirstLF(s)]] + Lines(s[FirstLF(s) + 1..])
  {
    hide FirstLF;
  }

  lemma FragmentFirst(s: Bytes)
    ensures FirstLF(s) == |s| ==> Fragment(s) == s
    ensures FirstLF(s) < |s| ==> Fragment(s) == Fragment(s[FirstLF(s) + 1..])
  {
    hide FirstLF;
  }

  lemma JoinCons(l: Bytes, ls: seq<Bytes>)
    ensures Join([l] + ls) == l + [LF] + Join(ls) && Join([]) == []
  {
    assert ([l] + ls)[1..] == ls;
  }

  lemma Assoc(a: Bytes, b: Bytes, c: Bytes)
    ensures (a + b) + c == a + (b + c)
  {
  }

  lemma {:induction false} SplitNoLF(s: Bytes)
    ensures AllNoLF(Lines(s)) && NoLF(Fragment(s))
    decreases |s|
  {
    hide FirstLF, Lines, Fragment;
    var i := FirstLF(s);
    LinesFirst(s);
    FragmentFirst(s);
    if i == |s| {
      assert s[..i] == s;
    } else {
      SplitNoLF(s[i + 1..]);
    }
  }

  /** A split into lines is the only one there is. */
  lemma {:induction false} SplitUnique(lines: seq<Bytes>, rest: Bytes)
    requires AllNoLF(lines) && NoLF(rest)
    ensures Lines(Join(lines) + rest) == lines
    ensures Fragment(Join(lines) + rest) == rest
  {
    var s := Join(lines) + rest;
    if lines == [] {
      assert s == rest;
      assert FirstLF(rest) == |rest|;
    } else {
      var l, t := lines[0], Join(lines[1..]) + rest;
      assert s == l + [LF] + t by {
        Assoc(l + [LF], Join(lines[1..]), rest);
      }
      FirstAt(l, t);
      assert AllNoLF(lines[1..]);
      SplitUnique(lines[1..], rest);
      assert lines == [l] + lines[1..];
    }
  }

  lemma InPrefix(s: Bytes, k: nat, i: nat)
    requires i <= |s|
    ensures k < i ==> s[k] in s[..i]
  {
    if k < i { assert s[..i][k] == s[k]; }
  }

  lemma InSuffix(s: Bytes, k: nat, n: nat)
    requires k < |s| && n <= |s|
    ensures k + n >= |s| ==> s[k] in s[|s| - n..]
  {
    if k + n >= |s| { assert s[|s| - n..][k + n - |s|] == s[k]; }
  }

  lemma FirstAt(l: Bytes, t: Bytes)
    requires NoLF(l)
    ensures var s := l + [LF] + t; FirstLF(s) == |l| && s[..|l|] == l && s[|l| + 1..] == t
  {
    hide FirstLF;
    var s := l + [LF] + t;
    var i := FirstLF(s);
    assert s[|l|] == LF;
    assert s[..|l|] == l;
    InPrefix(s, |l|, i);
    InPrefix(s, i, |l|);
  }

  lemma {:induction false} JoinConcat(a: seq<Bytes>, b: seq<Bytes>)
    ensures Join(a + b) == Join(a) + Join(b)
  {
    if a == [] {
      assert a + b == b;
    } else {
      assert (a + b)[1..] == a[1..] + b;
      JoinConcat(a[1..], b);
    }
  }

  lemma JoinOne(l: Bytes)
    ensures Join([l]) == l + [LF]
  {
    assert Join([l]) == l + [LF] + Join([]);
  }

  /** Splitting a longer stream starts by splitting the shorter one. */
  lemma SplitConcat(a: Bytes, b: Bytes)
    ensures Lines(a + b) == Lines(a) + Lines(Fragment(a) + b)
    ensures Fragment(a + b) == Fragment(Fragment(a) + b)
  {
    hide Lines, Fragment, Join;
    var la, fa, t := Lines(a), Fragment(a), Fragment(a) + b;
    var lt, ft := Lines(t), Fragment(t);
    calc {
      a + b;
      { SplitJoin(a); }
      (Join(la) + fa) + b;
      { Assoc(Join(la), fa, b); }
      Join(la) + t;
      { SplitJoin(t); }
      Join(la) + (Join(lt) + ft);
      { Assoc(Join(la), Join(lt), ft); }
      (Join(la) + Join(lt)) + ft;
      { JoinConcat(la, lt); }
      Join(la + lt) + ft;
    }
    SplitNoLF(a);
    SplitNoLF(t);
    SplitUnique(la + lt, ft);
  }

  /** Bytes without an LF only grow the fragment. */
  lemma SplitGrow(a: Bytes, p: Bytes)
    requires NoLF(p)
    ensures Lines(a + p) == Lines(a)
    ensures Fragment(a + p) == Fragment(a) + p
  {
    hide Lines, Fragment, Join;
    SplitJoin(a);
    SplitNoLF(a);
    Assoc(Join(Lines(a)), Fragment(a), p);
    SplitUnique(Lines(a), Fragment(a) + p);
  }

  /** An LF closes the fragment into a line. */
  lemma SplitClose(a: Bytes, p: Bytes)
    requires NoLF(p)
    ensures Lines(a + (p + [LF])) == Lines(a) + [Fragment(a) + p]
    ensures Fragment(a + (p + [LF])) == []
  {
    hide Lines, Fragment, Join;
    var l := Fragment(a) + p;
    SplitConcat(a, p + [LF]);
    Assoc(Fragment(a), p, [LF]);
    JoinOne(l);
    SplitNoLF(a);
    SplitUnique([l], []);
    assert Join([l]) + [] == l + [LF];
  }

  /** The bytes through line n are a prefix, and no extension changes them. */
  lemma ThroughStable(a: Bytes, b: Bytes, n: nat)
    requires n <= |Lines(a)|
    ensures n <= |Lines(a + b)| && Lines(a + b)[..n] == Lines(a)[..n]
    ensures Through(a + b, n) == Through(a, n)
    ensures Through(a, n) <= a
  {
    hide Lines, Fragment, Join;
    SplitConcat(a, b);
    ThroughPrefix(a, n);
  }

  lemma ThroughPrefix(a: Bytes, n: nat)
    requires n <= |Lines(a)|
    ensures Through(a, n) <= a
  {
    hide Lines, Fragment, Join;
    var l := Lines(a);
    SplitJoin(a);
    assert l == l[..n] + l[n..];
    JoinConcat(l[..n], l[n..]);
    Assoc(Join(l[..n]), Join(l[n..]), Fragment(a));
  }

  /** Two streams that agree through line n have the same first n lines. */
  lemma ThroughDetermines(a: Bytes, b: Bytes, n: nat)
    requires n <= |Lines(a)| && n <= |Lines(b)|
    requires Through(a, n) == Through(b, n)
    ensures Lines(a)[..n] == Lines(b)[..n]
  {
    SplitNoLF(a);
    SplitNoLF(b);
    SplitUnique(Lines(a)[..n], []);
    SplitUnique(Lines(b)[..n], []);
  }

  /** What bufio.Scanner hands out: the lines, then what follows the last LF if anything does. */
  function Tokens(s: Bytes): seq<Bytes> {
    Lines(s) + if Fragment(s) == [] then [] else [Fragment(s)]
  }

  lemma TokensNoLF(s: Bytes)
    ensures AllNoLF(Tokens(s))
  {
    SplitNoLF(s);
  }

  predicate EndsLine(s: Bytes) { s == [] || s[|s| - 1] == LF }

  lemma EndsLineMeaning(s: Bytes)
    ensures EndsLine(s) <==> Fragment(s) == []
  {
    var f, ls := Fragment(s), Lines(s);
    SplitJoin(s);
    SplitNoLF(s);
    if f != [] {
      assert s[|s| - 1] == f[|f| - 1];
    } else if ls != [] {
      JoinEndsLF(ls);
      assert s == Join(ls);
    }
  }

  lemma {:induction false} JoinEndsLF(ls: seq<Bytes>)
    ensures EndsLine(Join(ls)) && |Join(ls)| >= |ls|
  {
    if ls != [] {
      JoinEndsLF(ls[1..]);
    }
  }

  /** A stream that ends at a line boundary concatenates token-wise. */
  lemma TokensConcat(a: Bytes, b: Bytes)
    requires EndsLine(a)
    ensures Tokens(a + b) == Tokens(a) + Tokens(b)
  {
    hide Lines, Fragment;
    EndsLineMeaning(a);
    SplitConcat(a, b);
    assert Fragment(a) + b == b;
  }

  // ---------------------------------------------------------------- white space

  /** Whether the n bytes of s from i are the UTF-8 encoding of a rune unicode.IsSpace accepts. */
  predicate SpaceRuneAt(s: Bytes, i: nat, n: nat)
    requires i + n <= |s|
  {
    || (n == 1 && (0x09 <= s[i] <= 0x0D || s[i] == 0x20))
    || (n == 2 && s[i] == 0xC2 && (s[i + 1] == 0x85 || s[i + 1] == 0xA0))
    || (n == 3 && s[i] == 0xE1 && s[i + 1] == 0x9A && s[i + 2] == 0x80)
    || (n == 3 && s[i] == 0xE2 && s[i + 1] == 0x80 &&
        (0x80 <= s[i + 2] <= 0x8A || s[i + 2] == 0xA8 || s[i + 2] == 0xA9 || s[i + 2] == 0xAF))
    || (n == 3 && s[i] == 0xE2 && s[i + 1] == 0x81 && s[i + 2] == 0x9F)
    || (n == 3 && s[i] == 0xE3 && s[i + 1] == 0x80 && s[i + 2] == 0x80)
  }

  /** The width of the white-space rune at the end of s, or 0. */
  function SpaceTail(s: Bytes): (n: nat)
    ensures n <= |s| && n <= 3
  {
    if |s| >= 1 && SpaceRuneAt(s, |s| - 1, 1) then 1
    else if |s| >= 2 && SpaceRuneAt(s, |s| - 2, 2) then 2
    else if |s| >= 3 && SpaceRuneAt(s, |s| - 3, 3) then 3
    else 0
  }

  /** The width of the white-space rune at the start of s, or 0. */
  function SpaceHead(s: Bytes): (n: nat)
    ensures n <= |s| && n <= 3
  {
    if |s| >= 1 && SpaceRuneAt(s, 0, 1) then 1
    else if |s| >= 2 && SpaceRuneAt(s, 0, 2) then 2
    else if |s| >= 3 && SpaceRuneAt(s, 0, 3) then 3
    else 0
  }

  function TrimRight(s: Bytes): (r: Bytes)
    ensures r <= s
    ensures SpaceTail(r) == 0
    decreases |s|
  {
    hide SpaceTail;
    var n := SpaceTail(s);
    if n == 0 then s else TrimRight(s[..|s| - n])
  }

  function TrimLeft(s: Bytes): (r: Bytes)
    ensures |r| <= |s|
    decreases |s|
  {
    hide SpaceHead;
    var n := SpaceHead(s);
    if n == 0 then s else TrimLeft(s[n..])
  }

  function TrimSpace(s: Bytes): Bytes { TrimLeft(TrimRight(s)) }

  predicate Blank(s: Bytes) { TrimSpace(s) == [] }

  lemma TrimRightIdempotent(s: Bytes)
    ensures TrimRight(TrimRight(s)) == TrimRight(s)
  {
    hide SpaceTail;
  }

  /** A line is blank exactly when trimming its end alone leaves nothing. */
  lemma BlankMeaning(s: Bytes)
    ensures Blank(s) <==> TrimRight(s) == []
  {
    hide SpaceTail, SpaceHead;
    var r := TrimRight(s);
    if r != [] && TrimLeft(r) == [] {
      AllSpaceEndsInSpace(r);
    }
  }

  lemma {:induction false} AllSpaceEndsInSpace(s: Bytes)
    requires s != [] && TrimLeft(s) == []
    ensures SpaceTail(s) > 0
    decreases |s|
  {
    hide SpaceHead, SpaceTail;
    var n := SpaceHead(s);
    if n == |s| {
      WholeIsSpace(s);
    } else {
      AllSpaceEndsInSpace(s[n..]);
      assert s == s[..n] + s[n..];
      SpaceTailOfSuffix(s[..n], s[n..]);
    }
  }

  lemma WholeIsSpace(s: Bytes)
    requires s != [] && SpaceHead(s) == |s|
    ensures SpaceTail(s) > 0
  {
    hide SpaceRuneAt;
  }

  /** No rune of white space but the LF itself holds an LF, and none holds a brace. */
  lemma SpaceRuneShape(s: Bytes, i: nat, n: nat, k: nat)
    requires i <= k < i + n <= |s| && SpaceRuneAt(s, i, n)
    ensures s[k] != OPEN && s[k] != CLOSE && (s[k] == LF ==> n == 1)
  {
  }

  lemma SpaceAtEnds(s: Bytes)
    ensures SpaceTail(s) > 0 ==> SpaceRuneAt(s, |s| - SpaceTail(s), SpaceTail(s))
    ensures SpaceHead(s) > 0 ==> SpaceRuneAt(s, 0, SpaceHead(s))
  {
    hide SpaceRuneAt;
  }

  lemma RuneInSuffix(p: Bytes, b: Bytes, n: nat)
    requires n <= |b|
    ensures SpaceRuneAt(p + b, |p + b| - n, n) == SpaceRuneAt(b, |b| - n, n)
  {
  }

  /** Only the last bytes decide how much white space ends a string. */
  lemma SpaceTailOfSuffix(p: Bytes, b: Bytes)
    ensures SpaceTail(b) > 0 ==> SpaceTail(p + b) == SpaceTail(b)
    ensures 0 < SpaceTail(p + b) <= |b| ==> SpaceTail(b) == SpaceTail(p + b)
  {
    hide SpaceRuneAt;
    if |b| >= 1 { RuneInSuffix(p, b, 1); }
    if |b| >= 2 { RuneInSuffix(p, b, 2); }
    if |b| >= 3 { RuneInSuffix(p, b, 3); }
  }

  /** White space is never found across an LF that is not itself trimmed. */
  lemma SpaceTailStopsAtLF(p: Bytes, b: Bytes)
    requires LF in b && SpaceTail(b) == 0
    ensures SpaceTail(p + b) == 0
  {
    hide SpaceRuneAt, SpaceTail;
    SpaceTailOfSuffix(p, b);
    var s, n := p + b, SpaceTail(p + b);
    if n > |b| {
      var i :| 0 <= i < |b| && b[i] == LF;
      assert s[|p| + i] == LF;
      SpaceAtEnds(s);
      SpaceRuneShape(s, |s| - n, n, |p| + i);
    }
  }

  /** Trimming a suffix is trimming the whole, as long as the whole is not trimmed past it. */
  lemma {:induction false} TrimRightOfSuffix(p: Bytes, b: Bytes)
    requires |TrimRight(p + b)| >= |p|
    ensures TrimRight(p + b) == p + TrimRight(b)
    decreases |b|
  {
    hide SpaceTail;
    SpaceTailOfSuffix(p, b);
    var n := SpaceTail(p + b);
    if n > 0 {
      DropTail(p, b, n);
      TrimRightOfSuffix(p, b[..|b| - n]);
    }
  }

  lemma DropTail(p: Bytes, b: Bytes, n: nat)
    requires n <= |b|
    ensures (p + b)[..|p + b| - n] == p + b[..|b| - n]
  {
  }

  /** A suffix whose trimmed form holds an LF is trimmed as the whole is. */
  lemma {:induction false} TrimRightKeepsLine(p: Bytes, b: Bytes)
    requires LF in TrimRight(b)
    ensures TrimRight(p + b) == p + TrimRight(b)
    decreases |b|
  {
    hide SpaceTail;
    SpaceTailOfSuffix(p, b);
    var n := SpaceTail(b);
    if n > 0 {
      DropTail(p, b, n);
      TrimRightKeepsLine(p, b[..|b| - n]);
    } else {
      SpaceTailStopsAtLF(p, b);
    }
  }

  /** A non-blank last line is trimmed on its own, whatever lines precede it. */
  lemma {:induction false} TrimRightOfLastLine(p: Bytes, f: Bytes)
    requires EndsLine(p)
    ensures TrimRight(f) != [] ==> TrimRight(p + f) == p + TrimRight(f)
    ensures TrimRight(f) == [] ==> TrimRight(p + f) == TrimRight(p)
    decreases |f|
  {
    hide SpaceTail;
    if p == [] {
      assert p + f == f;
    } else if f == [] {
      assert p + f == p;
    } else {
      SpaceTailOfSuffix(p, f);
      var n := SpaceTail(f);
      if n > 0 {
        DropTail(p, f, n);
        TrimRightOfLastLine(p, f[..|f| - n]);
      } else {
        var q, g := p[..|p| - 1], [LF] + f;
        assert p == q + [LF];
        Assoc(q, [LF], f);
        LineKeepsLF(f);
        SpaceTailStopsAtLF(q, g);
      }
    }
  }

  lemma LineKeepsLF(f: Bytes)
    requires f != [] && SpaceTail(f) == 0
    ensures SpaceTail([LF] + f) == 0
  {
    hide SpaceRuneAt, SpaceTail;
    SpaceTailOfSuffix([LF], f);
    var g := [LF] + f;
    var n := SpaceTail(g);
    if n > |f| {
      SpaceAtEnds(g);
      SpaceRuneShape(g, |g| - n, n, 0);
    }
  }

  // ---------------------------------------------------------------- JSON objects

  const OPEN: byte := 0x7B
  const CLOSE: byte := 0x7D

  /** What json.Marshal makes of an object: braces at both ends and no LF. */
  predicate Framed(d: Bytes) {
    |d| >= 2 && d[0] == OPEN && d[|d| - 1] == CLOSE && LF !in d
  }

  lemma {:induction false} TrimOpen(s: Bytes)
    requires s != [] && s[0] == OPEN
    ensures TrimRight(s) != [] && TrimSpace(s) == TrimRight(s)
    decreases |s|
  {
    hide SpaceRuneAt, SpaceHead, SpaceTail;
    var n := SpaceTail(s);
    SpaceAtEnds(s);
    if n == 0 {
      if SpaceHead(s) > 0 {
        SpaceRuneShape(s, 0, SpaceHead(s), 0);
      }
    } else {
      if n == |s| {
        SpaceRuneShape(s, 0, n, 0);
      }
      TrimOpen(s[..|s| - n]);
    }
  }

  lemma TrimFramed(d: Bytes)
    requires Framed(d)
    ensures TrimSpace(d) == d
  {
    hide SpaceRuneAt, SpaceHead, SpaceTail;
    TrimOpen(d);
    var n := SpaceTail(d);
    SpaceAtEnds(d);
    if n > 0 {
      SpaceRuneShape(d, |d| - n, n, |d| - 1);
    }
  }
}
