/** verifyChain: the SPEC 6.5 prev_hash chain over one NDJSON stream. */
module Chain {
  import opened Bytes
  import opened Wrappers
  import opened Wire
  import opened Tail

  /** The scanner gives up on a line that fills its buffer: this many bytes before an LF, or more. */
  const SCAN_LIMIT: nat := 0x40_0000

  /** What one physical line turns out to be. */
  datatype Class = Skipped | Malformed | Head | Unverifiable | Chained | Broken

  datatype ChainBreak = ChainBreak(line: nat, expected: string, found: string)

  datatype ChainReport = ChainReport(
    lines: nat, malformed: nat, chained: nat,
    headLines: seq<nat>, unverifiable: seq<nat>, breaks: seq<ChainBreak>)

  datatype Restart = Restart(line: nat, after: nat)

  // ---------------------------------------------------------------- the reference: a line and the one before it

  /** The class of a trimmed line, given the trimmed non-blank line before it and nothing else. */
  function Judge(w: Wire, prev: Option<Bytes>, line: Bytes): Class {
    if line == [] then Skipped
    else if Unmarshal(w, line).None? then Malformed
    else if Unmarshal(w, line).value.prevHash == "" then Head
    else if prev.None? || !Hashable(w, prev.value) then Unverifiable
    else if Unmarshal(w, line).value.prevHash == ChainHashRaw(w, prev.value).value then Chained
    else Broken
  }

  /** A well-formed event whose hash can be taken. */
  predicate Hashable(w: Wire, line: Bytes) {
    Unmarshal(w, line).Some? && ChainHashRaw(w, line).Some?
  }

  function PrevLine(tokens: seq<Bytes>): Option<Bytes> {
    match LastNonBlank(tokens)
    case None => None
    case Some(i) => Some(TrimSpace(tokens[i]))
  }

  function ClassAt(w: Wire, tokens: seq<Bytes>, i: nat): Class
    requires i < |tokens|
  {
    Judge(w, PrevLine(tokens[..i]), TrimSpace(tokens[i]))
  }

  function Classes(w: Wire, tokens: seq<Bytes>): (cls: seq<Class>)
    ensures |cls| == |tokens|
  {
    seq(|tokens|, i requires 0 <= i < |tokens| => ClassAt(w, tokens, i))
  }

  predicate IsEvent(c: Class) { c.Head? || c.Unverifiable? || c.Chained? || c.Broken? }

  /** The 1-based line numbers of one class. */
  function Positions(cls: seq<Class>, c: Class): seq<nat> {
    if cls == [] then []
    else
      var n := |cls|;
      Positions(cls[..n - 1], c) + if cls[n - 1] == c then [n] else []
  }

  /** The number of the last event line, 0 when there is none. */
  function LastEvent(cls: seq<Class>): (n: nat)
    ensures n <= |cls|
  {
    if cls == [] then 0
    else if IsEvent(cls[|cls| - 1]) then |cls|
    else LastEvent(cls[..|cls| - 1])
  }

  lemma {:induction false} LastEventMeaning(cls: seq<Class>)
    ensures var n := LastEvent(cls);
            (n > 0 ==> IsEvent(cls[n - 1])) && forall i | n <= i < |cls| :: !IsEvent(cls[i])
  {
    if cls != [] && !IsEvent(cls[|cls| - 1]) {
      LastEventMeaning(cls[..|cls| - 1]);
    }
  }

  /** Every head that is not the first, with the last event line before it. */
  function RestartsOf(cls: seq<Class>): seq<Restart> {
    if cls == [] then []
    else
      var n := |cls|;
      var before := cls[..n - 1];
      RestartsOf(before) +
      if cls[n - 1] == Head && Positions(before, Head) != [] then [Restart(n, LastEvent(before))] else []
  }

  function Expected(w: Wire, prev: Option<Bytes>): string {
    if prev.Some? && ChainHashRaw(w, prev.value).Some? then ChainHashRaw(w, prev.value).value else ""
  }

  function Found(w: Wire, line: Bytes): string {
    if Unmarshal(w, line).Some? then Unmarshal(w, line).value.prevHash else ""
  }

  /** The breaks among the first n lines: what each should have carried and what it did. */
  function BreaksOf(w: Wire, tokens: seq<Bytes>, n: nat): seq<ChainBreak>
    requires n <= |tokens|
  {
    if n == 0 then []
    else
      BreaksOf(w, tokens, n - 1) +
      if ClassAt(w, tokens, n - 1) != Broken then []
      else [ChainBreak(n, Expected(w, PrevLine(tokens[..n - 1])), Found(w, TrimSpace(tokens[n - 1])))]
  }

  function ReportOf(w: Wire, tokens: seq<Bytes>): ChainReport {
    var cls := Classes(w, tokens);
    CountSum(cls);
    ChainReport(
      |cls| - |Positions(cls, Skipped)|,
      |Positions(cls, Malformed)|,
      |Positions(cls, Chained)|,
      Positions(cls, Head),
      Positions(cls, Unverifiable),
      BreaksOf(w, tokens, |tokens|))
  }

  /** The tokens before the first one the scanner cannot hold. */
  function Scanned(tokens: seq<Bytes>): (r: seq<Bytes>)
    ensures r <= tokens
    ensures forall i | 0 <= i < |r| :: |r[i]| < SCAN_LIMIT
    ensures |r| < |tokens| ==> |tokens[|r|]| >= SCAN_LIMIT
  {
    if tokens == [] then []
    else
      var n := |tokens| - 1;
      var r := Scanned(tokens[..n]);
      if |r| == n && |tokens[n]| < SCAN_LIMIT then tokens else r
  }

  // ---------------------------------------------------------------- facts about the reference

  lemma {:induction false} CountSum(cls: seq<Class>)
    ensures |cls| == |Positions(cls, Skipped)| + |Positions(cls, Malformed)| + |Positions(cls, Head)|
                   + |Positions(cls, Unverifiable)| + |Positions(cls, Chained)| + |Positions(cls, Broken)|
  {
    if cls != [] {
      CountSum(cls[..|cls| - 1]);
    }
  }

  /** Positions lists exactly the lines of its class, in increasing order. */
  lemma {:induction false} PositionsExact(cls: seq<Class>, c: Class)
    ensures forall x :: x in Positions(cls, c) <==> 1 <= x <= |cls| && cls[x - 1] == c
    ensures forall i, j | 0 <= i < j < |Positions(cls, c)| :: Positions(cls, c)[i] < Positions(cls, c)[j]
  {
    if cls != [] {
      var before := Positions(cls[..|cls| - 1], c);
      PositionsExact(cls[..|cls| - 1], c);
      assert forall i | 0 <= i < |before| :: before[i] in before;
    }
  }

  lemma {:induction false} BreaksAreBroken(w: Wire, tokens: seq<Bytes>, n: nat)
    requires n <= |tokens|
    ensures var ps := Positions(Classes(w, tokens)[..n], Broken);
            var bs := BreaksOf(w, tokens, n);
            |bs| == |ps| && forall i | 0 <= i < |bs| :: bs[i].line == ps[i]
  {
    hide Judge, TrimSpace, PrevLine, Expected, Found;
    if n > 0 {
      BreaksAreBroken(w, tokens, n - 1);
      assert Classes(w, tokens)[..n][..n - 1] == Classes(w, tokens)[..n - 1];
    }
  }

  /** Restarts are exactly the heads after the first, each paired with the event line before it. */
  lemma {:induction false} RestartsAreLaterHeads(cls: seq<Class>)
    ensures Paired(cls, RestartsOf(cls), Positions(cls, Head))
  {
    hide LastEvent, Positions, RestartsOf;
    if cls == [] {
      NoRestarts();
    } else {
      var n := |cls|;
      var before, c := cls[..n - 1], cls[n - 1];
      RestartsAreLaterHeads(before);
      assert cls == before + [c];
      Snoc(before, c);
      var rs := RestartsOf(before);
      forall i | 0 <= i < |rs|
        ensures cls[..rs[i].line - 1] == before[..rs[i].line - 1]
      {
      }
    }
  }

  ghost predicate Paired(cls: seq<Class>, rs: seq<Restart>, hs: seq<nat>) {
    && |rs| == (if hs == [] then 0 else |hs| - 1)
    && forall i | 0 <= i < |rs| ::
         rs[i].line == hs[i + 1] && 1 <= rs[i].line <= |cls| && rs[i].after == LastEvent(cls[..rs[i].line - 1])
  }

  lemma NoRestarts()
    ensures RestartsOf([]) == [] && Positions([], Head) == []
  {
  }

  lemma Snoc(z: seq<Class>, c: Class)
    ensures Positions(z + [c], Head) == Positions(z, Head) + if c == Head then [|z| + 1] else []
    ensures RestartsOf(z + [c]) ==
            RestartsOf(z) + if c == Head && Positions(z, Head) != [] then [Restart(|z| + 1, LastEvent(z))] else []
  {
    assert (z + [c])[..|z|] == z;
  }

  /** verifyChain's report partitions the non-blank lines into disjoint, increasing lists. */
  lemma ReportPartitions(w: Wire, tokens: seq<Bytes>)
    ensures var r := ReportOf(w, tokens);
            && r.lines == r.malformed + r.chained + |r.headLines| + |r.unverifiable| + |r.breaks|
            && Increasing(r.headLines) && Increasing(r.unverifiable) && Increasing(BreakLines(r.breaks))
            && Disjoint(r.headLines, r.unverifiable)
            && Disjoint(r.headLines, BreakLines(r.breaks))
            && Disjoint(r.unverifiable, BreakLines(r.breaks))
  {
    hide Classes;
    var cls := Classes(w, tokens);
    CountSum(cls);
    PositionsExact(cls, Head);
    PositionsExact(cls, Unverifiable);
    PositionsExact(cls, Broken);
    BreaksAreBroken(w, tokens, |tokens|);
    assert cls[..|tokens|] == cls;
    assert BreakLines(BreaksOf(w, tokens, |tokens|)) == Positions(cls, Broken);
  }

  ghost predicate Increasing(s: seq<nat>) {
    forall i, j | 0 <= i < j < |s| :: s[i] < s[j]
  }

  ghost predicate Disjoint(a: seq<nat>, b: seq<nat>) {
    forall x | x in a :: x !in b
  }

  function BreakLines(bs: seq<ChainBreak>): seq<nat> {
    seq(|bs|, i requires 0 <= i < |bs| => bs[i].line)
  }

  // ---------------------------------------------------------------- what a class and a report say

  /** Line p is the last line before line i that is not blank. */
  ghost predicate LastBefore(tokens: seq<Bytes>, p: nat, i: nat) {
    p < i <= |tokens| && !Blank(tokens[p]) && forall k | p < k < i :: Blank(tokens[k])
  }

  /** That line is an event, and h is the hash SPEC 6.5 asks the next one to carry. */
  ghost predicate HashedBefore(w: Wire, tokens: seq<Bytes>, p: nat, i: nat, h: string) {
    && LastBefore(tokens, p, i)
    && Unmarshal(w, TrimSpace(tokens[p])).Some? && ChainHashRaw(w, TrimSpace(tokens[p])) == Some(h)
  }

  /** There is something to check the prev_hash of line i against, and it is h. */
  ghost predicate Owes(w: Wire, tokens: seq<Bytes>, i: nat, h: string) {
    exists p: nat :: HashedBefore(w, tokens, p, i, h)
  }

  lemma OwesOne(w: Wire, tokens: seq<Bytes>, i: nat, h: string, g: string)
    requires Owes(w, tokens, i, h) && Owes(w, tokens, i, g)
    ensures h == g
  {
    hide TrimSpace;
  }

  /** What the line before has to say, read off the line itself. */
  lemma OwesWhat(w: Wire, tokens: seq<Bytes>, i: nat)
    requires i <= |tokens|
    ensures var prev := PrevLine(tokens[..i]);
            forall h :: Owes(w, tokens, i, h) <==>
              prev.Some? && Unmarshal(w, prev.value).Some? && ChainHashRaw(w, prev.value) == Some(h)
  {
    hide TrimSpace, LastNonBlank;
    var front := tokens[..i];
    LastNonBlankMeaning(front);
    var r := LastNonBlank(front);
    forall h
      ensures var prev := PrevLine(front);
              Owes(w, tokens, i, h) <==>
                prev.Some? && Unmarshal(w, prev.value).Some? && ChainHashRaw(w, prev.value) == Some(h)
    {
      if Owes(w, tokens, i, h) {
        var p: nat :| HashedBefore(w, tokens, p, i, h);
        assert front[p] == tokens[p] && r.Some?;
        assert front[r.value] == tokens[r.value];
        assert p == r.value;
      }
      if r.Some? {
        assert front[r.value] == tokens[r.value];
        assert LastBefore(tokens, r.value, i);
        if Unmarshal(w, TrimSpace(tokens[r.value])).Some? && ChainHashRaw(w, TrimSpace(tokens[r.value])) == Some(h) {
          assert HashedBefore(w, tokens, r.value, i, h);
        }
      }
    }
  }

  /** The class of a line, from the line, the last line before it that is not blank, and nothing else. An event that
      carries a prev_hash is chained or broken exactly when that line is itself an event that can be hashed: behind a
      malformed line, or none, it is unverifiable and never a break. */
  lemma ClassMeaning(w: Wire, tokens: seq<Bytes>, i: nat)
    requires i < |tokens|
    ensures var c, e := ClassAt(w, tokens, i), Unmarshal(w, TrimSpace(tokens[i]));
            && (c.Skipped? <==> Blank(tokens[i]))
            && (c.Malformed? <==> !Blank(tokens[i]) && e.None?)
            && (c.Head? <==> !Blank(tokens[i]) && e.Some? && e.value.prevHash == "")
            && (c.Chained? <==>
                  !Blank(tokens[i]) && e.Some? && e.value.prevHash != "" && Owes(w, tokens, i, e.value.prevHash))
            && (c.Broken? <==>
                  && !Blank(tokens[i]) && e.Some? && e.value.prevHash != ""
                  && exists h :: Owes(w, tokens, i, h) && h != e.value.prevHash)
            && (c.Unverifiable? <==>
                  !Blank(tokens[i]) && e.Some? && e.value.prevHash != "" && forall h :: !Owes(w, tokens, i, h))
  {
    hide TrimSpace, PrevLine, Owes;
    OwesWhat(w, tokens, i);
    var prev := PrevLine(tokens[..i]);
    if prev.Some? && Hashable(w, prev.value) {
      assert Owes(w, tokens, i, ChainHashRaw(w, prev.value).value);
    }
  }

  /** A break names its line, the prev_hash found there and the one owed. */
  lemma {:induction false} BreakMeaning(w: Wire, tokens: seq<Bytes>, n: nat)
    requires n <= |tokens|
    ensures forall b | b in BreaksOf(w, tokens, n) ::
              && 1 <= b.line <= n && ClassAt(w, tokens, b.line - 1).Broken?
              && Unmarshal(w, TrimSpace(tokens[b.line - 1])).Some?
              && b.found == Unmarshal(w, TrimSpace(tokens[b.line - 1])).value.prevHash
              && Owes(w, tokens, b.line - 1, b.expected) && b.expected != b.found
  {
    hide TrimSpace, PrevLine, Owes, Judge;
    if n > 0 {
      BreakMeaning(w, tokens, n - 1);
      if ClassAt(w, tokens, n - 1) == Broken {
        OwesWhat(w, tokens, n - 1);
        BrokenSays(w, PrevLine(tokens[..n - 1]), TrimSpace(tokens[n - 1]));
      }
    }
  }

  lemma BrokenSays(w: Wire, prev: Option<Bytes>, line: Bytes)
    requires Judge(w, prev, line).Broken?
    ensures Unmarshal(w, line).Some? && Found(w, line) == Unmarshal(w, line).value.prevHash
    ensures prev.Some? && Unmarshal(w, prev.value).Some? && ChainHashRaw(w, prev.value) == Some(Expected(w, prev))
    ensures Expected(w, prev) != Found(w, line)
  {
  }

  /** The lines of one class, counted from 0. */
  ghost function Of(w: Wire, tokens: seq<Bytes>, c: Class): set<nat> {
    set i: nat | i < |tokens| && ClassAt(w, tokens, i) == c
  }

  lemma {:induction false} PositionsCount(cls: seq<Class>, c: Class, s: set<nat>)
    requires forall i: nat :: i in s <==> i < |cls| && cls[i] == c
    ensures |Positions(cls, c)| == |s|
  {
    if cls == [] {
      assert s == {};
    } else {
      var n := |cls| - 1;
      PositionsCount(cls[..n], c, s - {n});
    }
  }

  /** The report says of every line what its class is, and nothing else. */
  lemma ReportMeaning(w: Wire, tokens: seq<Bytes>)
    ensures var r := ReportOf(w, tokens);
            && r.lines == |tokens| - |Of(w, tokens, Skipped)|
            && r.malformed == |Of(w, tokens, Malformed)| && r.chained == |Of(w, tokens, Chained)|
            && (forall x: nat :: x in r.headLines <==> x > 0 && x - 1 in Of(w, tokens, Head))
            && (forall x: nat :: x in r.unverifiable <==> x > 0 && x - 1 in Of(w, tokens, Unverifiable))
            && (forall x: nat :: x in BreakLines(r.breaks) <==> x > 0 && x - 1 in Of(w, tokens, Broken))
  {
    hide ClassAt, Positions, BreaksOf;
    var cls := Classes(w, tokens);
    PositionsCount(cls, Skipped, Of(w, tokens, Skipped));
    PositionsCount(cls, Malformed, Of(w, tokens, Malformed));
    PositionsCount(cls, Chained, Of(w, tokens, Chained));
    PositionsExact(cls, Head);
    PositionsExact(cls, Unverifiable);
    PositionsExact(cls, Broken);
    BreaksAreBroken(w, tokens, |tokens|);
    assert cls[..|tokens|] == cls;
    assert BreakLines(BreaksOf(w, tokens, |tokens|)) == Positions(cls, Broken);
  }

  // ---------------------------------------------------------------- the scan

  /** verifyChain. complete is false when a line was too long for the scanner, which stops there. */
  method VerifyChain(w: Wire, stream: Bytes)
    returns (report: ChainReport, restarts: seq<Restart>, complete: bool)
    ensures report == ReportOf(w, Scanned(Tokens(stream)))
    ensures restarts == RestartsOf(Classes(w, Scanned(Tokens(stream))))
    ensures complete <==> Scanned(Tokens(stream)) == Tokens(stream)
  {
    hide TrimSpace, Tokens, ChainHashRaw, Classes, ReportOf, RestartsOf, LastEvent, PrevLine;
    var tokens := Tokens(stream);
    report := ChainReport(0, 0, 0, [], [], []);
    restarts := [];
    var lineNo, lastEvent := 0, 0;
    var prevHash, prevSeen, prevKnown := "", false, true;
    NothingScanned(w, tokens);
    while lineNo < |tokens| && |tokens[lineNo]| < SCAN_LIMIT
      invariant lineNo <= |tokens|
      invariant forall i | 0 <= i < lineNo :: |tokens[i]| < SCAN_LIMIT
      invariant report == ReportOf(w, tokens[..lineNo])
      invariant restarts == RestartsOf(Classes(w, tokens[..lineNo]))
      invariant lastEvent == LastEvent(Classes(w, tokens[..lineNo]))
      invariant Remembers(w, PrevLine(tokens[..lineNo]), prevHash, prevSeen, prevKnown)
    {
      LineAdds(w, tokens, lineNo);
      lineNo := lineNo + 1;
      var line := TrimSpace(tokens[lineNo - 1]);
      if line == [] {
        continue;
      }
      report := report.(lines := report.lines + 1);
      var e := Unmarshal(w, line);
      if e.None? {
        report := report.(malformed := report.malformed + 1);
        prevKnown := false;
        continue;
      }
      var lastBefore := lastEvent;
      lastEvent := lineNo;
      if e.value.prevHash == "" {
        if |report.headLines| > 0 {
          restarts := restarts + [Restart(lineNo, lastBefore)];
        }
        report := report.(headLines := report.headLines + [lineNo]);
      } else if !prevSeen || !prevKnown {
        report := report.(unverifiable := report.unverifiable + [lineNo]);
      } else if e.value.prevHash == prevHash {
        report := report.(chained := report.chained + 1);
      } else {
        report := report.(breaks := report.breaks + [ChainBreak(lineNo, prevHash, e.value.prevHash)]);
      }
      prevSeen := true;
      var h := ChainHashRaw(w, line);
      if h.None? {
        prevKnown := false;
        continue;
      }
      prevHash := h.value;
      prevKnown := true;
    }
    ScannedIs(tokens, lineNo);
    complete := lineNo == |tokens|;
  }

  /** A report with one more line of class c in it. */
  function AddLine(r: ChainReport, c: Class, n: nat, expected: string, found: string): ChainReport {
    ChainReport(
      r.lines + if c == Skipped then 0 else 1,
      r.malformed + if c == Malformed then 1 else 0,
      r.chained + if c == Chained then 1 else 0,
      r.headLines + if c == Head then [n] else [],
      r.unverifiable + if c == Unverifiable then [n] else [],
      r.breaks + if c == Broken then [ChainBreak(n, expected, found)] else [])
  }

  lemma NothingScanned(w: Wire, tokens: seq<Bytes>)
    ensures ReportOf(w, tokens[..0]) == ChainReport(0, 0, 0, [], [], [])
    ensures RestartsOf(Classes(w, tokens[..0])) == [] && LastEvent(Classes(w, tokens[..0])) == 0
    ensures PrevLine(tokens[..0]).None?
  {
    assert tokens[..0] == [];
  }

  /** One step of the scan, seen from the reference. */
  lemma LineAdds(w: Wire, tokens: seq<Bytes>, i: nat)
    requires i < |tokens|
    ensures var prev, line := PrevLine(tokens[..i]), TrimSpace(tokens[i]);
            var c, r := Judge(w, prev, line), ReportOf(w, tokens[..i]);
            var cls := Classes(w, tokens[..i]);
            && ReportOf(w, tokens[..i + 1]) == AddLine(r, c, i + 1, Expected(w, prev), Found(w, line))
            && LastEvent(Classes(w, tokens[..i + 1])) == (if IsEvent(c) then i + 1 else LastEvent(cls))
            && RestartsOf(Classes(w, tokens[..i + 1])) == RestartsOf(cls) +
                 (if c == Head && r.headLines != [] then [Restart(i + 1, LastEvent(cls))] else [])
            && PrevLine(tokens[..i + 1]) == if line == [] then prev else Some(line)
  {
    hide TrimSpace, Judge, PrevLine, Expected, Found, LastEvent, RestartsOf;
    var t := tokens[..i + 1];
    assert t[..i] == tokens[..i];
    assert t == tokens[..i] + [tokens[i]];
    ReportGrows(w, t);
    CountSum(Classes(w, t[..i]));
    PrevLineGrows(tokens[..i], tokens[i]);
  }

  /** What the scan's four variables say about the last non-blank line. */
  ghost predicate Remembers(w: Wire, prev: Option<Bytes>, prevHash: string, prevSeen: bool, prevKnown: bool) {
    match prev
    case None => !prevSeen && prevKnown
    case Some(p) =>
      if Hashable(w, p) then prevSeen && prevKnown && prevHash == ChainHashRaw(w, p).value else !prevKnown
  }

  lemma PrevLineGrows(tokens: seq<Bytes>, t: Bytes)
    ensures PrevLine(tokens + [t]) == if Blank(t) then PrevLine(tokens) else Some(TrimSpace(t))
  {
    hide TrimSpace;
    assert (tokens + [t])[..|tokens|] == tokens;
  }

  /** One more line adds its own class and changes no other. */
  lemma ReportGrows(w: Wire, tokens: seq<Bytes>)
    requires tokens != []
    ensures var n := |tokens|;
            var c, before := ClassAt(w, tokens, n - 1), Classes(w, tokens[..n - 1]);
            && Classes(w, tokens) == before + [c]
            && (forall k: Class ::
                  Positions(Classes(w, tokens), k) == Positions(before, k) + if c == k then [n] else [])
            && LastEvent(Classes(w, tokens)) == (if IsEvent(c) then n else LastEvent(before))
            && RestartsOf(Classes(w, tokens)) == RestartsOf(before) +
                 (if c == Head && Positions(before, Head) != [] then [Restart(n, LastEvent(before))] else [])
            && BreaksOf(w, tokens, n) == BreaksOf(w, tokens[..n - 1], n - 1) +
                 if c != Broken then []
                 else [ChainBreak(n, Expected(w, PrevLine(tokens[..n - 1])), Found(w, TrimSpace(tokens[n - 1])))]
  {
    hide TrimSpace, Judge, PrevLine;
    var n := |tokens|;
    ClassesOfPrefix(w, tokens, n - 1);
    var cls := Classes(w, tokens);
    assert cls == cls[..n - 1] + [cls[n - 1]];
    BreaksOfPrefix(w, tokens, n - 1);
  }

  lemma ClassesOfPrefix(w: Wire, tokens: seq<Bytes>, n: nat)
    requires n <= |tokens|
    ensures Classes(w, tokens[..n]) == Classes(w, tokens)[..n]
  {
    hide TrimSpace, Judge, PrevLine;
    forall i | 0 <= i < n
      ensures Classes(w, tokens[..n])[i] == Classes(w, tokens)[i]
    {
      assert tokens[..n][..i] == tokens[..i];
    }
  }

  lemma {:induction false} BreaksOfPrefix(w: Wire, tokens: seq<Bytes>, n: nat)
    requires n <= |tokens|
    ensures BreaksOf(w, tokens[..n], n) == BreaksOf(w, tokens, n)
  {
    hide TrimSpace, Judge, PrevLine, Expected, Found;
    BreaksOfShorter(w, tokens[..n], tokens, n);
  }

  lemma {:induction false} BreaksOfShorter(w: Wire, a: seq<Bytes>, b: seq<Bytes>, n: nat)
    requires n <= |a| && a <= b
    ensures BreaksOf(w, a, n) == BreaksOf(w, b, n)
  {
    hide TrimSpace, Judge, PrevLine, Expected, Found;
    if n > 0 {
      BreaksOfShorter(w, a, b, n - 1);
      assert a[..n - 1] == b[..n - 1];
    }
  }

  /** The scan stops once, at the first line it cannot hold. */
  lemma ScannedIs(tokens: seq<Bytes>, n: nat)
    requires n <= |tokens| && (n < |tokens| ==> |tokens[n]| >= SCAN_LIMIT)
    requires forall i | 0 <= i < n :: |tokens[i]| < SCAN_LIMIT
    ensures Scanned(tokens) == tokens[..n]
  {
    hide Scanned;
    var r := Scanned(tokens);
    assert r == tokens[..|r|];
  }
}
