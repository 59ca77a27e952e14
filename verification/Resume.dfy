/** The resume record and the restart it explains: the writer's open, the verifier's restart, watch-dir's test. */
module Resume {
  import opened Bytes
  import opened Wrappers
  import opened Wire
  import opened Tail
  import opened Chain
  import opened Scan
  import opened Record
  import opened Checkpoints
  import opened CheckpointState
  import opened CheckpointRuns
  import Writer

  /** The report of VerifyCheckpoints on a stream and a sidecar. */
  function Results(w: Wire, n: Notary, stream: Bytes, recs: seq<RecordLine>, name: string, keys: map<string, Key>)
    : (r: seq<CheckpointResult>)
    ensures |r| == |recs|
  {
    seq(|recs|, i requires 0 <= i < |recs| => ResultAlone(w, n, stream, recs, i, name, keys))
  }

  /** CheckpointReport.ResumeCounts: the count of every valid resume record. */
  method ResumeCounts(records: seq<CheckpointResult>) returns (counts: seq<int>)
    ensures forall c :: c in counts <==> IsResumeCount(records, c)
  {
    counts := [];
    for i := 0 to |records|
      invariant forall c :: c in counts <==> IsResumeCount(records[..i], c)
    {
      assert records[..i + 1] == records[..i] + [records[i]];
      if records[i].kind == RESUME && records[i].verdict == Valid {
        counts := counts + [records[i].count];
      }
    }
    assert records[..|records|] == records;
  }

  ghost predicate IsResumeCount(records: seq<CheckpointResult>, c: int) {
    exists r :: r in records && r.kind == RESUME && r.verdict == Valid && r.count == c
  }

  /** explainedBy: a valid resume record names the last event line before the restart. */
  method ExplainedBy(resumes: seq<int>, after: int) returns (explained: bool)
    ensures explained <==> after > 0 && after in resumes
  {
    if after <= 0 {
      return false;
    }
    for i := 0 to |resumes|
      invariant after !in resumes[..i]
    {
      if resumes[i] == after {
        return true;
      }
    }
    return false;
  }

  // ---------------------------------------------------------------- one notion of event line

  /** The writer's head of a line and the verifier's class of it agree on which lines are events. */
  lemma EventIffHead(w: Wire, prev: Option<Bytes>, line: Bytes)
    requires Lawful(w) && |line| < SCAN_LIMIT && !Unhashable(w, line)
    ensures IsEvent(Judge(w, prev, TrimSpace(line))) <==> HeadOf(w, line) != ""
  {
    hide TrimSpace;
  }

  /** The stream's lines are all within the scanner's and the hash's reach. */
  ghost predicate Readable(w: Wire, tokens: seq<Bytes>) {
    forall i | 0 <= i < |tokens| :: |tokens[i]| < SCAN_LIMIT && !Unhashable(w, tokens[i])
  }

  lemma {:induction false} LastEventIsLastGood(w: Wire, tokens: seq<Bytes>)
    requires Lawful(w) && Readable(w, tokens)
    ensures LastEvent(Classes(w, tokens)) == LastGood(w, tokens)
  {
    hide TrimSpace, Judge, HeadOf, Unhashable, PrevLine, Lawful;
    if tokens != [] {
      var n := |tokens| - 1;
      LastEventIsLastGood(w, tokens[..n]);
      ClassesOfPrefix(w, tokens, n);
      EventIffHead(w, PrevLine(tokens[..n]), tokens[n]);
    }
  }

  /** A last line that is neither blank nor an event is not chained from. */
  lemma NoTail(w: Wire, file: Bytes)
    requires Tokens(file) != []
    requires var last := Tokens(file)[|Tokens(file)| - 1]; !Blank(last) && Unmarshal(w, TrimSpace(last)).None?
    ensures TailLine(w, file).None? && Writer.NextHash(w, file) == ""
  {
    hide TrimSpace, Tokens;
  }

  lemma NotAnEvent(w: Wire, line: Bytes)
    requires |line| < SCAN_LIMIT && !Unhashable(w, line) && HeadOf(w, line) == ""
    ensures Unmarshal(w, TrimSpace(line)).None?
  {
    hide TrimSpace;
  }

  /** The next chained write, whatever the stream ends in: a head exactly when there is nothing to chain from, and
      then a restart exactly when the stream already holds a head. It comes after the last event line before it. */
  lemma NextWriteRestarts(w: Wire, stream: Bytes, e: Event)
    requires Lawful(w) && Complete(e) && Writer.Encoded(w, stream, e).Some? && Readable(w, Tokens(stream))
    ensures var tokens, unchained := Tokens(stream), Writer.NextHash(w, stream) == "";
            var now := Tokens(Rewritten(w, stream, e));
            && |now| == |tokens| + 1
            && Classes(w, now) == Classes(w, tokens) + [if unchained then Head else Chained]
            && RestartsOf(Classes(w, now)) ==
               RestartsOf(Classes(w, tokens)) +
               if unchained && Positions(Classes(w, tokens), Head) != []
                   then [Restart(|tokens| + 1, LastGood(w, tokens))]
               else []
  {
    hide TrimSpace, Tokens, Judge, HeadOf, Unhashable, PrevLine, Lawful, LastGood, LastEvent, RestartsOf, Positions,
      Classes, Writer.NextHash;
    var tokens, d := Tokens(stream), Writer.Encoded(w, stream, e).value;
    var line := Writer.LineFor(stream, d);
    EncodedSolid(w, stream, e);
    Writer.PartialTokens(stream, d, |line|);
    assert Writer.Partial(line, |line|) == line && d[..|d|] == d;
    Writer.AppendedIsChained(w, stream, e);
    ClassAdded(w, tokens, d);
    LastEventIsLastGood(w, tokens);
    SnocOf(Classes(w, tokens), Judge(w, PrevLine(tokens), TrimSpace(d)));
    ClassesLength(w, tokens);
  }

  lemma SnocOf(z: seq<Class>, c: Class)
    ensures RestartsOf(z + [c]) ==
            RestartsOf(z) + if c == Head && Positions(z, Head) != [] then [Restart(|z| + 1, LastEvent(z))] else []
  {
    hide RestartsOf, Positions;
    Snoc(z, c);
  }

  /** The write that follows, and what it makes of the stream. */
  function Rewritten(w: Wire, stream: Bytes, e: Event): Bytes
    requires Writer.Encoded(w, stream, e).Some?
  {
    stream + Writer.LineFor(stream, Writer.Encoded(w, stream, e).value)
  }

  lemma ClassesLength(w: Wire, tokens: seq<Bytes>)
    ensures |Classes(w, tokens)| == |tokens|
  {
  }

  lemma EncodedSolid(w: Wire, stream: Bytes, e: Event)
    requires Lawful(w) && Writer.Encoded(w, stream, e).Some?
    ensures Framed(Writer.Encoded(w, stream, e).value)
  {
    hide TailLine;
  }

  lemma ClassAdded(w: Wire, tokens: seq<Bytes>, d: Bytes)
    ensures Classes(w, tokens + [d]) == Classes(w, tokens) + [Judge(w, PrevLine(tokens), TrimSpace(d))]
  {
    hide TrimSpace, Judge, PrevLine;
    var t := tokens + [d];
    ClassesOfPrefix(w, t, |tokens|);
    assert t[..|tokens|] == tokens;
    var cls := Classes(w, t);
    assert cls == cls[..|tokens|] + [cls[|tokens|]];
  }

  // ---------------------------------------------------------------- when a resume record is due

  /** A stream a writer cannot chain from, though it holds an event: its last line that is not blank, LF or none, is no
      event or out of reach. Every line is within the scanner's reach. */
  ghost predicate Broken(w: Wire, stream: Bytes) {
    Readable(w, Tokens(stream)) && Writer.NextHash(w, stream) == "" && LastGood(w, Tokens(stream)) > 0
  }

  lemma LinesAreTokens(stream: Bytes)
    ensures Lines(stream) <= Tokens(stream)
    ensures EndsLine(stream) ==> Tokens(stream) == Lines(stream)
    ensures Tokens(stream) == Lines(stream) || Tokens(stream) == Lines(stream) + [Fragment(stream)]
  {
    hide Lines, Fragment;
    EndsLineMeaning(stream);
  }

  /** Neither the last complete line nor what follows it is an event. */
  predicate EndsInNoEvent(w: Wire, stream: Bytes) { LastHead(w, stream) == "" && HeadOf(w, Fragment(stream)) == "" }

  /** The writer that opens over a broken stream owes a resume record that names line k, the one the next write restarts
      after, exactly when neither the last complete line nor the fragment behind it is an event. Otherwise line k is the
      last complete line, or the fragment, and no complete line follows it. */
  lemma ResumeDueExactly(w: Wire, stream: Bytes)
    requires Lawful(w) && Broken(w, stream)
    ensures var k := LastGood(w, Tokens(stream));
            && (ResumeDue(w, stream) && LastGood(w, Lines(stream)) == k <==> EndsInNoEvent(w, stream))
            && (EndsInNoEvent(w, stream) <==> k < |Lines(stream)|)
  {
    hide Fragment, Lines, HeadOf, Unhashable, TrimSpace, Readable, Writer.NextHash;
    LinesAreTokens(stream);
    NoHeadOfNothing(w);
    var lines, tokens := Lines(stream), Tokens(stream);
    if tokens != lines {
      assert tokens[..|tokens| - 1] == lines;
    }
  }

  lemma NoHeadOfNothing(w: Wire)
    requires Lawful(w)
    ensures HeadOf(w, []) == ""
  {
    hide SpaceTail, SpaceHead;
    assert TrimRight([]) <= [];
    assert TrimSpace([]) == [];
  }

  /** In plainer cases: a tail of complete lines whose last one, blank or not, is no event always gets its record, and a
      fragment that is no event, behind a line that is one, never does. */
  lemma TailsThatDecide(w: Wire, stream: Bytes)
    requires Lawful(w) && Broken(w, stream)
    ensures EndsLine(stream) ==> (EndsInNoEvent(w, stream) <==> LastHead(w, stream) == "")
    ensures !EndsLine(stream) && LastHead(w, stream) != "" ==> !EndsInNoEvent(w, stream)
  {
    hide Lines, HeadOf, Unhashable, TrimSpace, Readable, Writer.NextHash;
    EndsLineMeaning(stream);
    NoHeadOfNothing(w);
  }

  lemma ReadableLines(w: Wire, stream: Bytes)
    requires Readable(w, Tokens(stream))
    ensures AllHashable(w, stream)
  {
    hide Lines, Fragment, Unhashable;
    forall i | 0 <= i < |Lines(stream)|
      ensures !Unhashable(w, Lines(stream)[i])
    {
      assert Tokens(stream)[i] == Lines(stream)[i];
    }
  }

  // ---------------------------------------------------------------- which records name a line

  /** A signed resume record in the history names line k. */
  ghost predicate ResumesTo(log: seq<Entry>, k: int) {
    exists i | 0 <= i < |log| :: NamesAsResume(log[i], k)
  }

  predicate NamesAsResume(e: Entry, k: int) {
    e.record.fields.kind == RESUME && e.record.fields.count == k && e.record.Signed?
  }

  /** What VerifyCheckpoints reports as resumed is what the history holds. */
  lemma ReportedIsLogged(w: Wire, n: Notary, cfg: Config, keys: map<string, Key>, s: CheckpointRuns.Sys, k: int)
    requires |s.log| == |RecordLines(s.side)| && forall i | 0 <= i < |s.log| :: Accounted(w, n, cfg, keys, s, i)
    ensures IsResumeCount(Results(w, n, s.stream, RecordLines(s.side), cfg.name, keys), k) <==> ResumesTo(s.log, k)
  {
    hide ResultAlone, RecordLines, Lines, Through, Holding, ResumesAt, CountsUnhashable;
    var results := Results(w, n, s.stream, RecordLines(s.side), cfg.name, keys);
    assert forall i | 0 <= i < |s.log| ::
           results[i] == ResultAlone(w, n, s.stream, RecordLines(s.side), i, cfg.name, keys);
    if IsResumeCount(results, k) {
      var r :| r in results && r.kind == RESUME && r.verdict == Valid && r.count == k;
      var i :| 0 <= i < |results| && results[i] == r;
      assert Accounted(w, n, cfg, keys, s, i);
      assert NamesAsResume(s.log[i], k);
    }
    if ResumesTo(s.log, k) {
      var i :| 0 <= i < |s.log| && NamesAsResume(s.log[i], k);
      assert Accounted(w, n, cfg, keys, s, i);
      assert results[i] in results;
    }
  }

  lemma {:induction false} LastGoodGrows(w: Wire, lines: seq<Bytes>, more: seq<Bytes>)
    ensures LastGood(w, lines + more) >= LastGood(w, lines)
  {
    hide HeadOf;
    if more == [] {
      assert lines + more == lines;
    } else {
      var n := |more| - 1;
      LastGoodGrows(w, lines, more[..n]);
      assert (lines + more)[..|lines| + n] == lines + more[..n];
    }
  }

  /** Once a later line is an event, no step of any writer adds a resume record that names line k. */
  lemma NothingNamesItAnew(w: Wire, n: Notary, cfg: Config, s: CheckpointRuns.Sys, a: Act, k: int)
    requires LastGood(w, Lines(s.stream)) > k
    ensures var t := Next(w, n, cfg, s, a);
            && LastGood(w, Lines(t.stream)) > k
            && s.log <= t.log && (ResumesTo(t.log, k) <==> ResumesTo(s.log, k))
  {
    hide Lines, AfterAppended, Closed, Opened, AllHashable, Kept, ScanReach, LastGood, Through, Drifted, Rest,
      RecordOf, FullRead, HeadAt, Rescanned, ResumesTo;
    match a
    case Grow(more) =>
      SplitConcat(s.stream, more);
      LastGoodGrows(w, Lines(s.stream), Lines(Fragment(s.stream) + more));
    case Open(m) =>
      var l := LastGood(w, Lines(s.stream));
      if l > 0 {
        RecordOfSays(w, n, cfg, FullRead(w, s.side, s.stream, m), RESUME, l, HeadAt(w, s.stream, l),
            Through(s.stream, l), m);
      }
      OneEntryMore(s.log, Next(w, n, cfg, s, a).log, k);
    case After(m) =>
      if s.ck.Some? {
        var o := AfterAppended(w, n, cfg, s.ck.value, s.side, s.stream, m).ck;
        RecordOfSays(w, n, cfg, s.ck.value, CHECKPOINT, o.count, o.head, o.sum, m);
      }
      OneEntryMore(s.log, Next(w, n, cfg, s, a).log, k);
    case Close(m) =>
      if s.ck.Some? {
        var o := Closed(w, n, cfg, s.ck.value, s.side, s.stream, m).ck;
        RecordOfSays(w, n, cfg, s.ck.value, CLOSE_KIND, o.count, o.head, o.sum, m);
      }
      OneEntryMore(s.log, Next(w, n, cfg, s, a).log, k);
    case DieIn(op, _) =>
      if !op.DieIn? && !op.Grow? {
        NothingNamesItAnew(w, n, cfg, s, op, k);
      }
    case _ =>
  }

  lemma OneEntryMore(log: seq<Entry>, now: seq<Entry>, k: int)
    requires now == log || (|now| == |log| + 1 && log <= now && !NamesAsResume(now[|log|], k))
    ensures log <= now && (ResumesTo(now, k) <==> ResumesTo(log, k))
  {
    if ResumesTo(log, k) {
      var i :| 0 <= i < |log| && NamesAsResume(log[i], k);
      assert now[i] == log[i];
    }
  }

  lemma {:induction false} NothingEverNamesItAnew(w: Wire, n: Notary, cfg: Config, s: CheckpointRuns.Sys,
                                                  acts: seq<Act>, k: int)
    requires LastGood(w, Lines(s.stream)) > k
    ensures var t := Run(w, n, cfg, s, acts);
            && LastGood(w, Lines(t.stream)) > k
            && (ResumesTo(t.log, k) <==> ResumesTo(s.log, k))
    decreases |acts|
  {
    hide Lines, Next, LastGood, ResumesTo;
    if acts != [] {
      var before := acts[..|acts| - 1];
      NothingEverNamesItAnew(w, n, cfg, s, before, k);
      NothingNamesItAnew(w, n, cfg, Run(w, n, cfg, s, before), acts[|acts| - 1], k);
    }
  }

  // ---------------------------------------------------------------- the agreement

  /** Opening over a broken stream: a signed resume record that names line k, exactly when neither the last complete
      line nor the fragment behind it is an event. */
  lemma OpenResumes(w: Wire, n: Notary, cfg: Config, keys: map<string, Key>, s: CheckpointRuns.Sys, m: Moment)
    requires Granted(w, n, cfg.name, keys) && GoodMoment(n, keys, m) && Signs(m) && |Lines(s.stream)| <= MAX_COUNT
    requires Inv(w, n, cfg, keys, s) && s.ck.None? && Broken(w, s.stream)
    ensures var k, o := LastGood(w, Tokens(s.stream)), Next(w, n, cfg, s, Open(m));
            && o.ck.Some? && o.stream == s.stream && s.log <= o.log
            && |o.log| == |s.log| + (if ResumeDue(w, s.stream) then 1 else 0)
            && (ResumesTo(o.log, k) <==> EndsInNoEvent(w, s.stream))
  {
    hide Lines, Tokens, Broken, LastHead, LastGood, Through, HeadAt, Whole, FullRead, SidecarFits, AllHashable, Lawful,
      NotaryLaws, RecordsFit, GoodMoment, RecordOf, Logged, Placed, InStep, Written, ResumeDue, EndsInNoEvent;
    var k := LastGood(w, Tokens(s.stream));
    LogFits(w, n, cfg.name, keys, s.stream, s.side, s.log);
    BrokenIsHashable(w, s.stream);
    ResumeDueExactly(w, s.stream);
    OlderResumes(w, n, cfg, keys, s);
    var o := Next(w, n, cfg, s, Open(m));
    if ResumeDue(w, s.stream) {
      ResumeRecordWritten(w, n, cfg, keys, s, m);
      LastEntryNames(s.log, o.log, LastGood(w, Lines(s.stream)), k);
    } else {
      assert o.log == s.log;
    }
  }

  lemma LastEntryNames(log: seq<Entry>, now: seq<Entry>, j: int, k: int)
    requires |now| == |log| + 1 && log <= now && NamesAsResume(now[|log|], j)
    ensures j == k ==> ResumesTo(now, k)
    ensures j != k ==> (ResumesTo(now, k) <==> ResumesTo(log, k))
  {
    if j == k {
      assert NamesAsResume(now[|log|], k);
    } else {
      OneEntryMore(log, now, k);
    }
  }

  lemma BrokenIsHashable(w: Wire, stream: Bytes)
    requires Broken(w, stream)
    ensures AllHashable(w, stream)
  {
    hide Tokens, HeadOf, Unhashable, Lines, Writer.NextHash;
    ReadableLines(w, stream);
  }

  /** Every resume record of the history names a line with a complete line after it. */
  lemma OlderResumes(w: Wire, n: Notary, cfg: Config, keys: map<string, Key>, s: CheckpointRuns.Sys)
    requires Inv(w, n, cfg, keys, s)
    ensures forall k | k >= |Lines(s.stream)| :: !ResumesTo(s.log, k)
  {
    hide Lines, Plain, Holding, HashText, HeadAt, Through, PrevAt, Placed, InStep;
  }

  lemma ResumeRecordWritten(w: Wire, n: Notary, cfg: Config, keys: map<string, Key>, s: CheckpointRuns.Sys, m: Moment)
    requires Granted(w, n, cfg.name, keys) && GoodMoment(n, keys, m) && Signs(m) && |Lines(s.stream)| <= MAX_COUNT
    requires Inv(w, n, cfg, keys, s) && s.ck.None? && ResumeDue(w, s.stream) && AllHashable(w, s.stream)
    ensures var o := Next(w, n, cfg, s, Open(m));
            && o.ck.Some? && |o.log| == |s.log| + 1 && s.log <= o.log
            && NamesAsResume(o.log[|s.log|], LastGood(w, Lines(s.stream)))
  {
    hide Lines, LastGood, Through, HeadAt, Whole, SidecarFits, AllHashable, Lawful, NotaryLaws, RecordsFit, GoodMoment,
      Logged, Placed, InStep, Names, HashText, LastHead, SidecarPrev, Right, Kept;
    var k, c := LastGood(w, Lines(s.stream)), FullRead(w, s.side, s.stream, m);
    var head, hashed := HeadAt(w, s.stream, k), Through(s.stream, k);
    LogFits(w, n, cfg.name, keys, s.stream, s.side, s.log);
    FullReadPlaced(w, s.side, s.stream, m);
    GoodNames(w, s.stream);
    PrevIsHashText(w, s.side);
    RecordIsRight(w, n, cfg, keys, s.stream, c, RESUME, k, head, hashed, 0, m);
    var rec := RecordOf(w, n, cfg, c, RESUME, k, head, hashed, m);
    assert rec.Some? && rec.value.Signed?;
    RightIsShort(w, n, cfg.name, keys, s.stream, Encode(n, rec.value), c.prev, Entry(rec.value, hashed, 0));
  }

  /** After it the last event is the write itself. */
  lemma WriteIsLastGood(w: Wire, stream: Bytes, e: Event)
    requires Lawful(w) && Complete(e) && Writer.Encoded(w, stream, e).Some?
    requires |Writer.Encoded(w, stream, e).value| <= RESUME_WINDOW
    ensures LastGood(w, Lines(Rewritten(w, stream, e))) == |Tokens(stream)| + 1
  {
    hide TrimSpace, Tokens, Lines, LastGood, Lawful, TailLine;
    var d := Writer.Encoded(w, stream, e).value;
    var line := Writer.LineFor(stream, d);
    EncodedSolid(w, stream, e);
    Writer.PartialTokens(stream, d, |line|);
    assert Writer.Partial(line, |line|) == line && d[..|d|] == d;
    LinesAreTokens(stream + line);
    assert (stream + line)[|stream + line| - 1] == LF;
    EncodedHead(w, stream, e);
    LastGoodSnoc(w, Tokens(stream), d);
  }

  lemma LastGoodSnoc(w: Wire, lines: seq<Bytes>, d: Bytes)
    requires HeadOf(w, d) != ""
    ensures LastGood(w, lines + [d]) == |lines| + 1
  {
    hide HeadOf;
  }

  lemma EncodedHead(w: Wire, stream: Bytes, e: Event)
    requires Lawful(w) && Complete(e) && Writer.Encoded(w, stream, e).Some?
    requires |Writer.Encoded(w, stream, e).value| <= RESUME_WINDOW
    ensures HeadOf(w, Writer.Encoded(w, stream, e).value) != ""
  {
    hide TailLine, TrimSpace;
    TrimFramed(Writer.Encoded(w, stream, e).value);
  }

  /** Whether the restart is explained: the run of a sidecar writer, an open over a stream it cannot chain from, the
      next chained write, and anything any writer does from then on. The write restarts after line k, the last event
      before it, when the stream already held a head. VerifyCheckpoints reports a valid resume record that names k, so
      watch-dir calls the restart explained, if and only if neither the last complete line nor the fragment behind it
      was an event as the writer opened. */
  lemma RestartExplainedExactly(w: Wire, n: Notary, cfg: Config, keys: map<string, Key>, acts: seq<Act>, m: Moment,
                                e: Event, later: seq<Act>)
    requires Granted(w, n, cfg.name, keys) && GoodActs(n, keys, acts) && GoodActs(n, keys, later)
             && GoodMoment(n, keys, m) && Signs(m)
    requires var s := Run(w, n, cfg, START, acts);
             s.ck.None? && Broken(w, s.stream) && Complete(e) && Writer.Encoded(w, s.stream, e).Some?
             && |Writer.Encoded(w, s.stream, e).value| <= RESUME_WINDOW
    requires |Lines(Run(w, n, cfg, Restarted(w, n, cfg, Run(w, n, cfg, START, acts), m, e), later).stream)| <= MAX_COUNT
    ensures var s := Run(w, n, cfg, START, acts);
            var k, cls := LastGood(w, Tokens(s.stream)), Classes(w, Tokens(s.stream));
            var now := Classes(w, Tokens(Rewritten(w, s.stream, e)));
            var u := Run(w, n, cfg, Restarted(w, n, cfg, s, m, e), later);
            && now == cls + [Head]
            && RestartsOf(now) == RestartsOf(cls)
                + (if Positions(cls, Head) == [] then [] else [Restart(|Tokens(s.stream)| + 1, k)])
            && (IsResumeCount(Results(w, n, u.stream, RecordLines(u.side), cfg.name, keys), k)
                <==> EndsInNoEvent(w, s.stream))
  {
    hide Lines, Tokens, Run, Next, Inv, Lawful, NotaryLaws, RecordsFit, GoodActs, GoodMoment, Signs, Broken, LastGood,
      EndsInNoEvent, Classes, Positions, RestartsOf, Accounted, Results, IsResumeCount, ResumesTo, RecordLines,
      Writer.Encoded, Writer.LineFor, Restarted;
    var s := Run(w, n, cfg, START, acts);
    var k, t := LastGood(w, Tokens(s.stream)), Restarted(w, n, cfg, s, m, e);
    var u := Run(w, n, cfg, t, later);
    StartsLogged(w, n, cfg, keys);
    RunGrows(w, n, cfg, t, later);
    RestartedInv(w, n, cfg, keys, acts, m, e);
    RunsKeepTheLog(w, n, cfg, keys, t, later);
    NothingEverNamesItAnew(w, n, cfg, t, later, k);
    AllAccounted(w, n, cfg, keys, u);
    ReportedIsLogged(w, n, cfg, keys, u, k);
    BrokenRestarts(w, s.stream, e);
  }

  /** The writer opens, and the next chained write lands. */
  function Restarted(w: Wire, n: Notary, cfg: Config, s: CheckpointRuns.Sys, m: Moment, e: Event): CheckpointRuns.Sys
    requires Writer.Encoded(w, s.stream, e).Some?
  {
    Next(w, n, cfg, Next(w, n, cfg, s, Open(m)), Grow(Writer.LineFor(s.stream, Writer.Encoded(w, s.stream, e).value)))
  }

  lemma RestartedInv(w: Wire, n: Notary, cfg: Config, keys: map<string, Key>, acts: seq<Act>, m: Moment, e: Event)
    requires Granted(w, n, cfg.name, keys) && GoodActs(n, keys, acts) && GoodMoment(n, keys, m) && Signs(m)
    requires var s := Run(w, n, cfg, START, acts);
             s.ck.None? && Broken(w, s.stream) && Complete(e) && Writer.Encoded(w, s.stream, e).Some?
             && |Writer.Encoded(w, s.stream, e).value| <= RESUME_WINDOW
             && |Lines(Restarted(w, n, cfg, s, m, e).stream)| <= MAX_COUNT
    ensures var s := Run(w, n, cfg, START, acts);
            var k, t := LastGood(w, Tokens(s.stream)), Restarted(w, n, cfg, s, m, e);
            && Inv(w, n, cfg, keys, t) && t.stream == Rewritten(w, s.stream, e)
            && LastGood(w, Lines(t.stream)) > k
            && (ResumesTo(t.log, k) <==> EndsInNoEvent(w, s.stream))
  {
    hide Lines, Tokens, Run, Inv, Lawful, NotaryLaws, RecordsFit, GoodActs, GoodMoment, Signs, Broken, LastGood,
      EndsInNoEvent, ResumesTo, Writer.Encoded, Writer.LineFor, Opened, ResumeOf, Noted, Through, Kept;
    var s := Run(w, n, cfg, START, acts);
    var o, line := Next(w, n, cfg, s, Open(m)), Writer.LineFor(s.stream, Writer.Encoded(w, s.stream, e).value);
    StartsLogged(w, n, cfg, keys);
    StreamOnlyGrows(w, n, cfg, o, Grow(line));
    RunsKeepTheLog(w, n, cfg, keys, START, acts);
    OpenResumes(w, n, cfg, keys, s, m);
    NextKeeps(w, n, cfg, keys, s, Open(m));
    NextKeeps(w, n, cfg, keys, o, Grow(line));
    WriteIsLastGood(w, s.stream, e);
  }

  lemma AllAccounted(w: Wire, n: Notary, cfg: Config, keys: map<string, Key>, s: CheckpointRuns.Sys)
    requires Granted(w, n, cfg.name, keys) && Inv(w, n, cfg, keys, s)
    ensures |s.log| == |RecordLines(s.side)| && forall i | 0 <= i < |s.log| :: Accounted(w, n, cfg, keys, s, i)
  {
    hide Lines, Granted, RecordLines, Accounted, Logged, Placed, InStep;
    SameNumber(w, n, cfg, keys, s);
    forall i | 0 <= i < |s.log|
      ensures Accounted(w, n, cfg, keys, s, i)
    {
      LoggedIsAccounted(w, n, cfg, keys, s, i);
    }
  }

  lemma BrokenRestarts(w: Wire, stream: Bytes, e: Event)
    requires Lawful(w) && Broken(w, stream) && Complete(e) && Writer.Encoded(w, stream, e).Some?
    ensures var k, cls := LastGood(w, Tokens(stream)), Classes(w, Tokens(stream));
            var now := Classes(w, Tokens(Rewritten(w, stream, e)));
            && now == cls + [Head]
            && RestartsOf(now) == RestartsOf(cls)
                + (if Positions(cls, Head) == [] then [] else [Restart(|Tokens(stream)| + 1, k)])
  {
    hide Tokens, Readable, HeadOf, TrimSpace, Classes, RestartsOf, Positions, LastGood, Writer.Encoded, Writer.LineFor,
      Lawful;
    NextWriteRestarts(w, stream, e);
  }
}
