/** What the reports of verifyChain promise across streams: concatenation and locality. */
module ChainLaws {
  import opened Bytes
  import opened Wrappers
  import opened Wire
  import opened Tail
  import opened Chain

  // ---------------------------------------------------------------- concatenation

  lemma {:induction false} PrevLineConcat(a: seq<Bytes>, b: seq<Bytes>)
    ensures PrevLine(a + b) == if PrevLine(b).Some? then PrevLine(b) else PrevLine(a)
  {
    hide TrimSpace;
    if b == [] {
      assert a + b == a;
    } else {
      var c, t := b[..|b| - 1], b[|b| - 1];
      assert b == c + [t] && a + b == (a + c) + [t];
      PrevLineConcat(a, c);
      PrevLineGrows(a + c, t);
      PrevLineGrows(c, t);
    }
  }

  /** The first line that is not blank; the number of lines when there is none. */
  function FirstSolid(tokens: seq<Bytes>): (f: nat)
    ensures f <= |tokens|
  {
    if tokens == [] then 0
    else if !Blank(tokens[0]) then 0
    else 1 + FirstSolid(tokens[1..])
  }

  lemma {:induction false} FirstSolidMeaning(tokens: seq<Bytes>)
    ensures var f := FirstSolid(tokens);
            (forall i | 0 <= i < f :: Blank(tokens[i])) && (f < |tokens| ==> !Blank(tokens[f]))
  {
    hide Blank;
    if tokens != [] && Blank(tokens[0]) {
      FirstSolidMeaning(tokens[1..]);
    }
  }

  lemma {:induction false} AllBlankHasNoPrev(tokens: seq<Bytes>)
    requires forall i | 0 <= i < |tokens| :: Blank(tokens[i])
    ensures PrevLine(tokens).None?
  {
    hide TrimSpace;
    LastNonBlankMeaning(tokens);
  }

  lemma SolidHasPrev(tokens: seq<Bytes>, i: nat)
    requires i < |tokens| && !Blank(tokens[i])
    ensures PrevLine(tokens).Some?
  {
    hide Blank;
    LastNonBlankMeaning(tokens);
  }

  /** Behind another stream, only the first non-blank line of a stream is judged anew. */
  lemma ClassBehind(w: Wire, a: seq<Bytes>, b: seq<Bytes>, j: nat)
    requires j < |b|
    ensures ClassAt(w, a + b, |a| + j) ==
            if j == FirstSolid(b) then Judge(w, PrevLine(a), TrimSpace(b[j])) else ClassAt(w, b, j)
    ensures j == FirstSolid(b) ==> PrevLine(b[..j]).None?
  {
    hide TrimSpace, PrevLine, Hashable;
    var f := FirstSolid(b);
    FirstSolidMeaning(b);
    assert (a + b)[..|a| + j] == a + b[..j];
    assert (a + b)[|a| + j] == b[j];
    PrevLineConcat(a, b[..j]);
    if j < f {
      assert TrimSpace(b[j]) == [];
    } else if j == f {
      AllBlankHasNoPrev(b[..j]);
    } else {
      assert b[..j][f] == b[f];
      SolidHasPrev(b[..j], f);
    }
  }

  function Shift(ps: seq<nat>, n: nat): seq<nat> {
    seq(|ps|, i requires 0 <= i < |ps| => ps[i] + n)
  }

  function ShiftRestarts(rs: seq<Restart>, n: nat): seq<Restart> {
    seq(|rs|, i requires 0 <= i < |rs| => Restart(rs[i].line + n, rs[i].after + n))
  }

  lemma {:induction false} PositionsConcat(x: seq<Class>, y: seq<Class>, c: Class)
    ensures Positions(x + y, c) == Positions(x, c) + Shift(Positions(y, c), |x|)
  {
    if y == [] {
      assert x + y == x;
    } else {
      var n := |y| - 1;
      assert (x + y)[..|x| + n] == x + y[..n];
      PositionsConcat(x, y[..n], c);
    }
  }

  lemma {:induction false} LastEventConcat(x: seq<Class>, y: seq<Class>)
    ensures LastEvent(x + y) == if LastEvent(y) > 0 then |x| + LastEvent(y) else LastEvent(x)
  {
    if y == [] {
      assert x + y == x;
    } else {
      var n := |y| - 1;
      assert (x + y)[..|x| + n] == x + y[..n];
      LastEventConcat(x, y[..n]);
    }
  }

  /** Same heads and same events, whatever else differs. */
  ghost predicate SameShape(y: seq<Class>, z: seq<Class>) {
    |y| == |z| && forall i | 0 <= i < |y| :: (y[i] == Head <==> z[i] == Head) && (IsEvent(y[i]) <==> IsEvent(z[i]))
  }

  lemma {:induction false} ShapeDecides(y: seq<Class>, z: seq<Class>)
    requires SameShape(y, z)
    ensures LastEvent(y) == LastEvent(z) && Positions(y, Head) == Positions(z, Head) && RestartsOf(y) == RestartsOf(z)
  {
    if y != [] {
      ShapeDecides(y[..|y| - 1], z[..|z| - 1]);
    }
  }

  /** The restarts of a stream behind another: its own, shifted, and its first head when the other had one. */
  function RestartsBehind(x: seq<Class>, y: seq<Class>): seq<Restart> {
    var own := ShiftRestarts(RestartsOf(y), |x|);
    var hx, hy := Positions(x, Head), Positions(y, Head);
    if hx == [] || hy == [] then own else [Restart(|x| + hy[0], EventBefore(x, y, hy[0]))] + own
  }

  /** The last event line before line n of y, where y stands behind x. */
  function EventBefore(x: seq<Class>, y: seq<Class>, n: nat): nat {
    var before := if 1 <= n <= |y| then LastEvent(y[..n - 1]) else 0;
    if before > 0 then |x| + before else LastEvent(x)
  }

  lemma FirstHead(y: seq<Class>)
    requires Positions(y, Head) != []
    ensures 1 <= Positions(y, Head)[0] <= |y|
  {
    PositionsExact(y, Head);
    assert Positions(y, Head)[0] in Positions(y, Head);
  }

  lemma ShiftRestartsSnoc(a: seq<Restart>, r: Restart, n: nat)
    ensures ShiftRestarts(a + [r], n) == ShiftRestarts(a, n) + [Restart(r.line + n, r.after + n)]
  {
  }

  lemma ShiftNone(n: nat)
    ensures ShiftRestarts([], n) == []
  {
  }

  lemma NoHeadNoRestart(z: seq<Class>)
    requires Positions(z, Head) == []
    ensures RestartsOf(z) == []
  {
    RestartsAreLaterHeads(z);
  }

  lemma EventBeforeGrows(x: seq<Class>, z: seq<Class>, c: Class, n: nat)
    requires 1 <= n <= |z| + 1
    ensures EventBefore(x, z + [c], n) == if n <= |z| then EventBefore(x, z, n) else LastEvent(x + z)
  {
    hide LastEvent;
    LastEventConcat(x, z);
    if n <= |z| {
      assert (z + [c])[..n - 1] == z[..n - 1];
    } else {
      assert (z + [c])[..n - 1] == z;
    }
  }

  /** The restart a line of class c makes at the end of z, where z stands behind x. */
  function RestartAtEnd(x: seq<Class>, z: seq<Class>, c: Class): seq<Restart> {
    if c == Head && (Positions(x, Head) != [] || Positions(z, Head) != [])
    then [Restart(|x| + |z| + 1, LastEvent(x + z))] else []
  }

  lemma BehindGrows(x: seq<Class>, z: seq<Class>, c: Class)
    ensures RestartsBehind(x, z + [c]) == RestartsBehind(x, z) + RestartAtEnd(x, z, c)
  {
    if Positions(z, Head) == [] {
      FirstBehind(x, z, c);
    } else {
      LaterBehind(x, z, c);
    }
  }

  lemma FirstBehind(x: seq<Class>, z: seq<Class>, c: Class)
    requires Positions(z, Head) == []
    ensures RestartsBehind(x, z + [c]) == RestartAtEnd(x, z, c)
    ensures RestartsBehind(x, z) == []
  {
    hide Positions, RestartsOf, LastEvent, EventBefore, ShiftRestarts;
    Snoc(z, c);
    NoHeadNoRestart(z);
    ShiftNone(|x|);
    EventBeforeGrows(x, z, c, |z| + 1);
    assert RestartsOf(z + [c]) == [];
  }

  lemma LaterBehind(x: seq<Class>, z: seq<Class>, c: Class)
    requires Positions(z, Head) != []
    ensures RestartsBehind(x, z + [c]) == RestartsBehind(x, z) + RestartAtEnd(x, z, c)
  {
    hide Positions, RestartsOf, LastEvent, EventBefore, ShiftRestarts;
    var h := Positions(z, Head);
    Snoc(z, c);
    FirstHead(z);
    EventBeforeGrows(x, z, c, h[0]);
    OwnGrows(x, z, c);
    assert Positions(z + [c], Head)[0] == h[0];
  }

  lemma OwnGrows(x: seq<Class>, z: seq<Class>, c: Class)
    requires Positions(z, Head) != []
    ensures ShiftRestarts(RestartsOf(z + [c]), |x|) == ShiftRestarts(RestartsOf(z), |x|) + RestartAtEnd(x, z, c)
  {
    hide Positions, RestartsOf, LastEvent, ShiftRestarts;
    Snoc(z, c);
    if c == Head {
      HeadIsEvent(z);
      LastEventConcat(x, z);
      ShiftRestartsSnoc(RestartsOf(z), Restart(|z| + 1, LastEvent(z)), |x|);
    } else {
      assert RestartsOf(z + [c]) == RestartsOf(z);
    }
  }

  lemma {:induction false} RestartsConcat(x: seq<Class>, y: seq<Class>)
    ensures RestartsOf(x + y) == RestartsOf(x) + RestartsBehind(x, y)
  {
    hide Positions, RestartsOf, LastEvent, RestartsBehind;
    if y == [] {
      assert x + y == x;
      NothingBehind(x);
    } else {
      var z, c := y[..|y| - 1], y[|y| - 1];
      assert y == z + [c] && x + y == (x + z) + [c];
      RestartsConcat(x, z);
      PositionsConcat(x, z, Head);
      Snoc(x + z, c);
      BehindGrows(x, z, c);
    }
  }

  lemma NothingBehind(x: seq<Class>)
    ensures RestartsBehind(x, []) == []
  {
  }

  lemma HeadIsEvent(y: seq<Class>)
    requires Positions(y, Head) != []
    ensures LastEvent(y) > 0
  {
    hide Positions, LastEvent;
    LastEventMeaning(y);
    PositionsExact(y, Head);
    assert Positions(y, Head)[0] in Positions(y, Head);
  }

  /** How a line's class may change when another stream is put before its own. */
  ghost predicate Rejudged(alone: Class, behind: Class, first: bool) {
    && (!first || alone != Unverifiable ==> behind == alone)
    && (first ==> alone.Malformed? || alone.Head? || alone.Unverifiable?)
    && (first && alone == Unverifiable ==> behind.Unverifiable? || behind.Chained? || behind.Broken?)
  }

  /** The classes of one stream behind another: only the first non-blank line may be rejudged. */
  ghost predicate ClassesMerge(ca: seq<Class>, cb: seq<Class>, c: seq<Class>, first: nat) {
    && |c| == |ca| + |cb|
    && c[..|ca|] == ca
    && forall j | 0 <= j < |cb| :: Rejudged(cb[j], c[|ca| + j], j == first)
  }

  /** The report of one stream followed by another is the merge of both reports, up to the class of
      the second one's first event and whether its first head is a restart. */
  lemma ReportsMerge(w: Wire, a: Bytes, b: Bytes)
    requires EndsLine(a)
    ensures ClassesMerge(Classes(w, Tokens(a)), Classes(w, Tokens(b)), Classes(w, Tokens(a + b)), FirstSolid(Tokens(b)))
    ensures RestartsOf(Classes(w, Tokens(a + b))) ==
            RestartsOf(Classes(w, Tokens(a))) + RestartsBehind(Classes(w, Tokens(a)), Classes(w, Tokens(b)))
    ensures var ra, rb, r := ReportOf(w, Tokens(a)), ReportOf(w, Tokens(b)), ReportOf(w, Tokens(a + b));
            && r.lines == ra.lines + rb.lines
            && r.malformed == ra.malformed + rb.malformed
            && r.headLines == ra.headLines + Shift(rb.headLines, |Tokens(a)|)
            && r.chained + |r.unverifiable| + |r.breaks| ==
                 ra.chained + |ra.unverifiable| + |ra.breaks| + rb.chained + |rb.unverifiable| + |rb.breaks|
  {
    hide Tokens, Classes, RestartsOf, RestartsBehind, Shift, FirstSolid, ClassesMerge, Positions, BreaksOf;
    TokensConcat(a, b);
    MergeTokens(w, Tokens(a), Tokens(b));
    ReportPartitions(w, Tokens(a));
    ReportPartitions(w, Tokens(b));
    ReportPartitions(w, Tokens(a + b));
    var x, y := Positions(Classes(w, Tokens(a)), Head), Positions(Classes(w, Tokens(b)), Head);
    ShiftLength(y, |Tokens(a)|);
  }

  lemma ShiftLength(ps: seq<nat>, n: nat)
    ensures |Shift(ps, n)| == |ps|
  {
  }

  lemma MergeTokens(w: Wire, ta: seq<Bytes>, tb: seq<Bytes>)
    ensures var ca, cb, c := Classes(w, ta), Classes(w, tb), Classes(w, ta + tb);
            && ClassesMerge(ca, cb, c, FirstSolid(tb))
            && RestartsOf(c) == RestartsOf(ca) + RestartsBehind(ca, cb)
            && Positions(c, Head) == Positions(ca, Head) + Shift(Positions(cb, Head), |ca|)
            && |Positions(c, Malformed)| == |Positions(ca, Malformed)| + |Positions(cb, Malformed)|
            && |Positions(c, Skipped)| == |Positions(ca, Skipped)| + |Positions(cb, Skipped)|
  {
    hide TrimSpace, PrevLine, RestartsOf, RestartsBehind, Positions, Hashable, Judge, FirstSolid, ClassAt;
    var ca, cb, c := Classes(w, ta), Classes(w, tb), Classes(w, ta + tb);
    ClassesOfPrefix(w, ta + tb, |ta|);
    assert (ta + tb)[..|ta|] == ta;
    forall j | 0 <= j < |cb|
      ensures Rejudged(cb[j], c[|ca| + j], j == FirstSolid(tb))
    {
      JudgedBehind(w, ta, tb, j);
    }
    MergeClasses(ca, cb, c, FirstSolid(tb));
  }

  lemma MergeClasses(ca: seq<Class>, cb: seq<Class>, c: seq<Class>, first: nat)
    requires ClassesMerge(ca, cb, c, first)
    ensures RestartsOf(c) == RestartsOf(ca) + RestartsBehind(ca, cb)
    ensures Positions(c, Head) == Positions(ca, Head) + Shift(Positions(cb, Head), |ca|)
    ensures |Positions(c, Malformed)| == |Positions(ca, Malformed)| + |Positions(cb, Malformed)|
    ensures |Positions(c, Skipped)| == |Positions(ca, Skipped)| + |Positions(cb, Skipped)|
  {
    hide RestartsOf, RestartsBehind, Positions;
    var d := c[|ca|..];
    assert c == ca + d;
    assert forall j | 0 <= j < |cb| :: d[j] == c[|ca| + j];
    ShapeDecides(d, cb);
    RestartsConcat(ca, d);
    BehindOfShape(ca, d, cb);
    PositionsConcat(ca, d, Head);
    PositionsConcat(ca, d, Malformed);
    PositionsConcat(ca, d, Skipped);
    PositionsAgree(d, cb, Malformed);
    PositionsAgree(d, cb, Skipped);
  }

  lemma JudgedBehind(w: Wire, ta: seq<Bytes>, tb: seq<Bytes>, j: nat)
    requires j < |tb|
    ensures Rejudged(ClassAt(w, tb, j), ClassAt(w, ta + tb, |ta| + j), j == FirstSolid(tb))
  {
    hide TrimSpace, PrevLine, Hashable, FirstSolid;
    ClassBehind(w, ta, tb, j);
    FirstSolidMeaning(tb);
  }

  lemma BehindOfShape(x: seq<Class>, y: seq<Class>, z: seq<Class>)
    requires SameShape(y, z)
    ensures RestartsBehind(x, y) == RestartsBehind(x, z)
  {
    hide Positions, RestartsOf, LastEvent;
    ShapeDecides(y, z);
    if Positions(y, Head) != [] {
      FirstHead(y);
      ShapeDecides(y[..Positions(y, Head)[0] - 1], z[..Positions(y, Head)[0] - 1]);
    }
  }

  lemma {:induction false} PositionsAgree(y: seq<Class>, z: seq<Class>, c: Class)
    requires |y| == |z| && forall i | 0 <= i < |y| :: y[i] == c <==> z[i] == c
    ensures Positions(y, c) == Positions(z, c)
  {
    if y != [] {
      PositionsAgree(y[..|y| - 1], z[..|z| - 1], c);
    }
  }

  // ---------------------------------------------------------------- locality of tamper evidence

  /** Line j is chained to line i: i is the non-blank line before it, and its hash is what j carries. */
  ghost predicate ChainedTo(w: Wire, tokens: seq<Bytes>, i: nat, j: nat) {
    && i < j < |tokens|
    && !Blank(tokens[i])
    && (forall k | i < k < j :: Blank(tokens[k]))
    && ClassAt(w, tokens, j) == Chained
  }

  /** Two lines whose different canonical forms SHA-256 does not tell apart. */
  ghost predicate SameDigest(w: Wire, a: Bytes, b: Bytes) {
    var ca, cb := CanonicalizeRaw(w, a), CanonicalizeRaw(w, b);
    ca.Some? && cb.Some? && Collision(w, ca.value, cb.value)
  }

  lemma PrevLineAfter(tokens: seq<Bytes>, i: nat, j: nat)
    requires i < j <= |tokens| && !Blank(tokens[i]) && forall k | i < k < j :: Blank(tokens[k])
    ensures PrevLine(tokens[..j]) == Some(TrimSpace(tokens[i]))
  {
    hide TrimSpace;
    var t := tokens[..j];
    assert t == (tokens[..i] + [tokens[i]]) + tokens[i + 1..j];
    AllBlankHasNoPrev(tokens[i + 1..j]);
    PrevLineConcat(tokens[..i] + [tokens[i]], tokens[i + 1..j]);
    PrevLineGrows(tokens[..i], tokens[i]);
  }

  /** Past a non-blank line, what came before it no longer matters. */
  lemma PrevLineFrom(tokens: seq<Bytes>, j: nat, k: nat)
    requires j < k <= |tokens| && !Blank(tokens[j])
    ensures PrevLine(tokens[..k]) == PrevLine(tokens[j..k])
  {
    hide TrimSpace;
    assert tokens[..k] == tokens[..j] + tokens[j..k];
    assert tokens[j..k][0] == tokens[j];
    SolidHasPrev(tokens[j..k], 0);
    PrevLineConcat(tokens[..j], tokens[j..k]);
  }

  /** Replacing a chained-to line by another event of a different canonical form breaks exactly the
      link to the next line; no other line but the two is classed differently. */
  lemma ReplacedLineBreaksTheNext(w: Wire, tokens: seq<Bytes>, i: nat, j: nat, other: Bytes)
    requires ChainedTo(w, tokens, i, j)
    requires !Blank(other) && Hashable(w, TrimSpace(other))
    requires CanonicalizeRaw(w, TrimSpace(other)) != CanonicalizeRaw(w, TrimSpace(tokens[i]))
    ensures var now := tokens[i := other];
            && (|| ClassAt(w, now, j) == Broken
                || SameDigest(w, TrimSpace(other), TrimSpace(tokens[i])))
            && forall k | 0 <= k < |tokens| && k != i && k != j :: ClassAt(w, now, k) == ClassAt(w, tokens, k)
  {
    hide TrimSpace, PrevLine, Judge, Hashable, Blank, ClassAt, SameDigest;
    NextIsBroken(w, tokens, i, j, other);
    forall k | 0 <= k < |tokens| && k != i && k != j
      ensures ClassAt(w, tokens[i := other], k) == ClassAt(w, tokens, k)
    {
      ElsewhereTheSame(w, tokens, i, j, other, k);
    }
  }

  lemma NextIsBroken(w: Wire, tokens: seq<Bytes>, i: nat, j: nat, other: Bytes)
    requires ChainedTo(w, tokens, i, j)
    requires !Blank(other) && Hashable(w, TrimSpace(other))
    requires CanonicalizeRaw(w, TrimSpace(other)) != CanonicalizeRaw(w, TrimSpace(tokens[i]))
    ensures || ClassAt(w, tokens[i := other], j) == Broken
            || SameDigest(w, TrimSpace(other), TrimSpace(tokens[i]))
  {
    hide TrimSpace, PrevLine, Judge, Hashable, Blank, SameDigest;
    PrevLineAfter(tokens, i, j);
    PrevLineAfter(tokens[i := other], i, j);
    OtherHashBreaks(w, TrimSpace(tokens[i]), TrimSpace(other), TrimSpace(tokens[j]));
  }

  lemma ElsewhereTheSame(w: Wire, tokens: seq<Bytes>, i: nat, j: nat, other: Bytes, k: nat)
    requires ChainedTo(w, tokens, i, j) && k < |tokens| && k != i && k != j
    ensures ClassAt(w, tokens[i := other], k) == ClassAt(w, tokens, k)
  {
    hide TrimSpace, PrevLine, Judge, Blank;
    var now := tokens[i := other];
    if k < i {
      assert now[..k] == tokens[..k];
    } else if k < j {
      BlankIsSkipped(w, PrevLine(now[..k]), tokens[k]);
      BlankIsSkipped(w, PrevLine(tokens[..k]), tokens[k]);
    } else {
      ChainedIsSolid(w, PrevLine(tokens[..j]), tokens[j]);
      PrevLineFrom(tokens, j, k);
      PrevLineFrom(now, j, k);
      assert now[j..k] == tokens[j..k];
    }
  }

  lemma BlankIsSkipped(w: Wire, prev: Option<Bytes>, t: Bytes)
    requires Blank(t)
    ensures Judge(w, prev, TrimSpace(t)) == Skipped
  {
  }

  lemma ChainedIsSolid(w: Wire, prev: Option<Bytes>, t: Bytes)
    requires Judge(w, prev, TrimSpace(t)) == Chained
    ensures !Blank(t)
  {
  }

  lemma OtherHashBreaks(w: Wire, was: Bytes, now: Bytes, line: Bytes)
    requires Judge(w, Some(was), line) == Chained && Hashable(w, now)
    requires CanonicalizeRaw(w, now) != CanonicalizeRaw(w, was)
    ensures || Judge(w, Some(now), line) == Broken
            || SameDigest(w, now, was)
  {
    hide HashText;
    HashTextTellsApart(w, CanonicalizeRaw(w, now).value, CanonicalizeRaw(w, was).value);
  }

  /** Deleting a chained-to line breaks the next link exactly when the non-blank line before it is an
      event whose hash differs; no other line is classed differently. */
  lemma DeletedLineBreaksTheNext(w: Wire, tokens: seq<Bytes>, i: nat, j: nat)
    requires ChainedTo(w, tokens, i, j)
    ensures var now, prev := tokens[..i] + tokens[i + 1..], PrevLine(tokens[..i]);
            && (ClassAt(w, now, j - 1) == Broken <==>
                  prev.Some? && Hashable(w, prev.value)
                  && ChainHashRaw(w, prev.value) != ChainHashRaw(w, TrimSpace(tokens[i])))
            && (prev.Some? && Hashable(w, prev.value)
                && CanonicalizeRaw(w, prev.value) != CanonicalizeRaw(w, TrimSpace(tokens[i])) ==>
                  || ClassAt(w, now, j - 1) == Broken
                  || SameDigest(w, prev.value, TrimSpace(tokens[i])))
            && (forall k | 0 <= k < i :: ClassAt(w, now, k) == ClassAt(w, tokens, k))
            && forall k | i <= k < |now| && k != j - 1 :: ClassAt(w, now, k) == ClassAt(w, tokens, k + 1)
  {
    hide TrimSpace, PrevLine, LastNonBlank, HashText;
    var now, prev := tokens[..i] + tokens[i + 1..], PrevLine(tokens[..i]);
    assert forall k | i <= k < |now| :: now[k] == tokens[k + 1];
    PrevLineAfter(tokens, i, j);
    assert TrimSpace(tokens[j]) != [];
    assert now[..j - 1] == tokens[..i] + tokens[i + 1..j];
    AllBlankHasNoPrev(tokens[i + 1..j]);
    PrevLineConcat(tokens[..i], tokens[i + 1..j]);
    if prev.Some? && Hashable(w, prev.value) {
      HashTextTellsApart(w, CanonicalizeRaw(w, prev.value).value, CanonicalizeRaw(w, TrimSpace(tokens[i])).value);
    }
    forall k | 0 <= k < i
      ensures ClassAt(w, now, k) == ClassAt(w, tokens, k)
    {
      assert now[..k] == tokens[..k];
    }
    forall k | i <= k < |now| && k != j - 1
      ensures ClassAt(w, now, k) == ClassAt(w, tokens, k + 1)
    {
      if k < j - 1 {
        assert TrimSpace(tokens[k + 1]) == [];
      } else {
        PrevLineFrom(tokens, j, k + 1);
        PrevLineFrom(now, j - 1, k);
        assert now[j - 1..k] == tokens[j..k + 1];
      }
    }
  }
}
