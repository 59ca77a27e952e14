/** watch-dir: what one pass finds, what it puts on the bus, what it remembers, and what crashes can cost. */
module Watch {
  import opened Bytes
  import opened Wrappers
  import opened Wire
  import Chain
  import Checkpoints
  import Resume

  const OWN_OUTPUT: string := "agent-conform.ndjson"

  datatype Kind = ChainBroken | ChainUnchained | ChainRestarted | CheckpointRefused

  /** What is reported once: the file, the kind of finding and the line, 0 for none. */
  datatype Key = Key(file: string, kind: Kind, line: nat)

  datatype Severity = Low | Medium | High

  datatype Alert = Alert(key: Key, severity: Severity, after: nat)

  // ---------------------------------------------------------------- what verification found

  datatype Sidecar =
    | NotAsked
    | Absent
    | Unreadable
    | Checked(records: seq<Checkpoints.CheckpointResult>)

  /** One stream as verified. */
  datatype Verdict = Verdict(
    file: string, report: Chain.ChainReport, restarts: seq<Chain.Restart>, readToEnd: bool, sidecar: Sidecar)

  function Events(v: Verdict): int { v.report.lines - v.report.malformed }

  predicate IsUnchained(v: Verdict) { Events(v) >= 2 && |v.report.headLines| == Events(v) }

  /** The verdict is VerifyChain's on some stream, and its records are VerifyCheckpoints' on some sidecar. */
  ghost predicate Faithful(w: Wire, v: Verdict) {
    && (exists tokens :: ReportOn(w, v, tokens))
    && (v.sidecar.Checked? ==>
          forall i | 0 <= i < |v.sidecar.records| :: v.sidecar.records[i].index == i + 1)
  }

  ghost predicate ReportOn(w: Wire, v: Verdict, tokens: seq<Bytes>) {
    v.report == Chain.ReportOf(w, tokens) && v.restarts == Chain.RestartsOf(Chain.Classes(w, tokens))
  }

  /** A stream is unchained exactly when it has two events or more and not one of them carries a prev_hash. */
  lemma UnchainedMeaning(w: Wire, v: Verdict, tokens: seq<Bytes>)
    requires ReportOn(w, v, tokens)
    ensures var cls := Chain.Classes(w, tokens);
            IsUnchained(v) <==>
              && (exists i, j | 0 <= i < j < |cls| :: Chain.IsEvent(cls[i]) && Chain.IsEvent(cls[j]))
              && (forall i | 0 <= i < |cls| && Chain.IsEvent(cls[i]) :: cls[i].Head?)
  {
    hide Chain.Classes, Chain.BreaksOf, Chain.Positions, Chain.IsEvent;
    var cls := Chain.Classes(w, tokens);
    Chain.BreaksAreBroken(w, tokens, |tokens|);
    assert cls[..|tokens|] == cls;
    Chain.CountSum(cls);
    AllHeads(cls);
  }

  /** As many heads as events, and at least two of them. */
  lemma AllHeads(cls: seq<Chain.Class>)
    ensures |Chain.Positions(cls, Chain.Head)| >= 2 && Chain.Positions(cls, Chain.Chained) == []
            && Chain.Positions(cls, Chain.Unverifiable) == [] && Chain.Positions(cls, Chain.Broken) == []
            <==> && (exists i, j | 0 <= i < j < |cls| :: Chain.IsEvent(cls[i]) && Chain.IsEvent(cls[j]))
                 && (forall i | 0 <= i < |cls| && Chain.IsEvent(cls[i]) :: cls[i].Head?)
  {
    hide Chain.Positions;
    var heads := Chain.Positions(cls, Chain.Head);
    if |heads| >= 2 && Chain.Positions(cls, Chain.Chained) == [] && Chain.Positions(cls, Chain.Unverifiable) == []
       && Chain.Positions(cls, Chain.Broken) == [] {
      Chain.PositionsExact(cls, Chain.Head);
      assert heads[0] in heads && heads[1] in heads && heads[0] < heads[1];
      assert cls[heads[0] - 1].Head? && cls[heads[1] - 1].Head?;
      forall i | 0 <= i < |cls| && Chain.IsEvent(cls[i])
        ensures cls[i].Head?
      {
        NotIn(cls, i);
      }
    }
    if forall i | 0 <= i < |cls| && Chain.IsEvent(cls[i]) :: cls[i].Head? {
      OnlyHeads(cls);
      if exists i, j | 0 <= i < j < |cls| :: Chain.IsEvent(cls[i]) && Chain.IsEvent(cls[j]) {
        TwoEventsTwoHeads(cls);
      }
    }
  }

  lemma NotIn(cls: seq<Chain.Class>, i: nat)
    requires i < |cls| && Chain.IsEvent(cls[i])
    requires Chain.Positions(cls, Chain.Chained) == [] && Chain.Positions(cls, Chain.Unverifiable) == []
    requires Chain.Positions(cls, Chain.Broken) == []
    ensures cls[i].Head?
  {
    Chain.PositionsExact(cls, cls[i]);
    assert i + 1 in Chain.Positions(cls, cls[i]);
  }

  lemma OnlyHeads(cls: seq<Chain.Class>)
    requires forall i | 0 <= i < |cls| && Chain.IsEvent(cls[i]) :: cls[i].Head?
    ensures Chain.Positions(cls, Chain.Chained) == [] && Chain.Positions(cls, Chain.Unverifiable) == []
    ensures Chain.Positions(cls, Chain.Broken) == []
  {
    forall c | c in {Chain.Chained, Chain.Unverifiable, Chain.Broken}
      ensures Chain.Positions(cls, c) == []
    {
      Chain.PositionsExact(cls, c);
      Inhabited(Chain.Positions(cls, c));
    }
  }

  lemma Inhabited<T>(s: seq<T>)
    ensures s == [] || exists x :: x in s
  {
    if s != [] {
      assert s[0] in s;
    }
  }

  lemma TwoEventsTwoHeads(cls: seq<Chain.Class>)
    requires exists i, j | 0 <= i < j < |cls| :: Chain.IsEvent(cls[i]) && Chain.IsEvent(cls[j])
    requires forall i | 0 <= i < |cls| && Chain.IsEvent(cls[i]) :: cls[i].Head?
    ensures |Chain.Positions(cls, Chain.Head)| >= 2
  {
    var i, j :| 0 <= i < j < |cls| && Chain.IsEvent(cls[i]) && Chain.IsEvent(cls[j]);
    Chain.PositionsExact(cls, Chain.Head);
    assert i + 1 in Chain.Positions(cls, Chain.Head) && j + 1 in Chain.Positions(cls, Chain.Head);
  }

  // ---------------------------------------------------------------- what a pass finds

  function Records(v: Verdict): seq<Checkpoints.CheckpointResult> {
    if v.sidecar.Checked? then v.sidecar.records else []
  }

  /** The most one file has of breaks and of chaining: its first break, or that nothing in it is chained. */
  function ChainFinding(v: Verdict): seq<Alert> {
    if v.report.breaks != [] then [Alert(Key(v.file, ChainBroken, v.report.breaks[0].line), High, 0)]
    else if IsUnchained(v) then [Alert(Key(v.file, ChainUnchained, 0), Low, 0)]
    else []
  }

  ghost predicate Explained(v: Verdict, after: nat) { after > 0 && Resume.IsResumeCount(Records(v), after) }

  /** One finding per restart, medium when a valid resume record names the event line before it. */
  ghost function RestartFinding(v: Verdict, rs: Chain.Restart): Alert {
    Alert(Key(v.file, ChainRestarted, rs.line), if Explained(v, rs.after) then Medium else High, rs.after)
  }

  ghost function RestartFindings(v: Verdict): (r: seq<Alert>)
    ensures |r| == if IsUnchained(v) then 0 else |v.restarts|
  {
    seq(if IsUnchained(v) then 0 else |v.restarts|,
        i requires 0 <= i < (if IsUnchained(v) then 0 else |v.restarts|) => RestartFinding(v, v.restarts[i]))
  }

  ghost function FindingsIn(v: Verdict): seq<Alert> { ChainFinding(v) + RestartFindings(v) }

  /** The findings not reported before, in order. */
  function New(alerts: seq<Alert>, known: set<Key>): seq<Alert> {
    if alerts == [] then []
    else
      var n := |alerts| - 1;
      New(alerts[..n], known) + if alerts[n].key in known then [] else [alerts[n]]
  }

  ghost function FindingsOf(vs: seq<Verdict>, known: set<Key>): seq<Alert> {
    if vs == [] then []
    else FindingsOf(vs[..|vs| - 1], known) + New(FindingsIn(vs[|vs| - 1]), known)
  }

  function RefusalKey(v: Verdict, r: Checkpoints.CheckpointResult): Key { Key(v.file, CheckpointRefused, r.index) }

  function RefusalsIn(v: Verdict, known: set<Key>, n: nat): seq<Key>
    requires n <= |Records(v)|
  {
    if n == 0 then []
    else
      var r := Records(v)[n - 1];
      RefusalsIn(v, known, n - 1) + if r.verdict.Refused? && RefusalKey(v, r) !in known then [RefusalKey(v, r)] else []
  }

  function RefusalsOf(vs: seq<Verdict>, known: set<Key>): seq<Key> {
    if vs == [] then []
    else
      var v := vs[|vs| - 1];
      RefusalsOf(vs[..|vs| - 1], known) + RefusalsIn(v, known, |Records(v)|)
  }

  /** A file that could not be read to its end, or whose records could not be checked. */
  predicate Troubled(v: Verdict) { !v.readToEnd || v.sidecar.Unreadable? }

  /** Look at every stream. */
  method Gather(vs: seq<Verdict>, known: set<Key>) returns (findings: seq<Alert>, refusals: seq<Key>, trouble: bool)
    ensures findings == FindingsOf(vs, known)
    ensures refusals == RefusalsOf(vs, known)
    ensures trouble <==> exists v | v in vs :: Troubled(v)
  {
    hide FindingsIn, New, RefusalsIn, Troubled, Records;
    findings, refusals, trouble := [], [], false;
    for i := 0 to |vs|
      invariant findings == FindingsOf(vs[..i], known)
      invariant refusals == RefusalsOf(vs[..i], known)
      invariant trouble <==> exists v | v in vs[..i] :: Troubled(v)
    {
      var v := vs[i];
      assert vs[..i + 1][..i] == vs[..i];
      assert vs[..i + 1] == vs[..i] + [v];
      trouble := trouble || Troubled(v);
      var own, more := FindingsFor(v, known);
      findings := findings + own;
      refusals := refusals + more;
    }
    assert vs[..|vs|] == vs;
  }

  /** Look at one. */
  method FindingsFor(v: Verdict, known: set<Key>) returns (findings: seq<Alert>, refusals: seq<Key>)
    ensures findings == New(FindingsIn(v), known)
    ensures refusals == RefusalsIn(v, known, |Records(v)|)
  {
    hide New, Explained, IsUnchained, Resume.IsResumeCount;
    refusals := RefusalsFor(v, known);
    var resumes := Resume.ResumeCounts(Records(v));
    findings := [];
    ghost var own, rest := ChainFinding(v), RestartFindings(v);
    NewNone(known);
    if v.report.breaks != [] {
      findings := Add(findings, [], Alert(Key(v.file, ChainBroken, v.report.breaks[0].line), High, 0), known);
    } else if IsUnchained(v) {
      findings := Add(findings, [], Alert(Key(v.file, ChainUnchained, 0), Low, 0), known);
    }
    assert own == [] || own == [] + [own[0]];
    assert own + rest[..0] == own;
    if IsUnchained(v) {
      return;
    }
    for i := 0 to |v.restarts|
      invariant findings == New(own + rest[..i], known)
    {
      var rs := v.restarts[i];
      var explained := Resume.ExplainedBy(resumes, rs.after);
      var a := Alert(Key(v.file, ChainRestarted, rs.line), if explained then Medium else High, rs.after);
      ExplainedIs(v, rs.after);
      assert a == rest[i];
      assert own + rest[..i] + [a] == own + rest[..i + 1];
      findings := Add(findings, own + rest[..i], a, known);
    }
    assert rest[..|v.restarts|] == rest;
  }

  lemma ExplainedIs(v: Verdict, after: nat)
    ensures Explained(v, after) <==> after > 0 && Resume.IsResumeCount(Records(v), after)
  {
  }

  method RefusalsFor(v: Verdict, known: set<Key>) returns (refusals: seq<Key>)
    ensures refusals == RefusalsIn(v, known, |Records(v)|)
  {
    refusals := [];
    for i := 0 to |Records(v)|
      invariant refusals == RefusalsIn(v, known, i)
    {
      var r := Records(v)[i];
      if r.verdict.Refused? && RefusalKey(v, r) !in known {
        refusals := refusals + [RefusalKey(v, r)];
      }
    }
  }

  /** One more finding, unless it was reported before. */
  method Add(findings: seq<Alert>, ghost seen: seq<Alert>, a: Alert, known: set<Key>) returns (r: seq<Alert>)
    requires findings == New(seen, known)
    ensures r == New(seen + [a], known)
  {
    NewOne(seen, a, known);
    r := if a.key in known then findings else findings + [a];
  }

  lemma NewNone(known: set<Key>)
    ensures New([], known) == []
  {
  }

  lemma NewOne(alerts: seq<Alert>, a: Alert, known: set<Key>)
    ensures New(alerts + [a], known) == New(alerts, known) + if a.key in known then [] else [a]
  {
    assert (alerts + [a])[..|alerts|] == alerts;
  }

  // ---------------------------------------------------------------- what there is to find

  /** As many heads as events, two or more: nothing in the file is chained. */
  predicate NothingChained(r: Chain.ChainReport) {
    r.lines - r.malformed >= 2 && |r.headLines| == r.lines - r.malformed
  }

  /** A valid resume record names the line. */
  ghost predicate ResumeNames(v: Verdict, line: nat) {
    v.sidecar.Checked? && exists r | r in v.sidecar.records :: r.kind == "resume" && r.verdict.Valid? && r.count == line
  }

  /** What there is to say of one stream: its first break; else that nothing in it is chained; and, unless nothing is,
      each restart, less grave when a valid resume record names the line before it. */
  ghost predicate Tells(v: Verdict, a: Alert) {
    if a.key.kind.ChainRestarted? then
      && !NothingChained(v.report)
      && (exists rs | rs in v.restarts :: a.key == Key(v.file, ChainRestarted, rs.line) && a.after == rs.after)
      && a.severity == (if a.after > 0 && ResumeNames(v, a.after) then Medium else High)
    else if v.report.breaks != [] then a == Alert(Key(v.file, ChainBroken, v.report.breaks[0].line), High, 0)
    else NothingChained(v.report) && a == Alert(Key(v.file, ChainUnchained, 0), Low, 0)
  }

  /** The findings in one stream are exactly what its report, its restarts and its resume records have to say. */
  lemma FindingsMeaning(v: Verdict)
    ensures forall a :: a in FindingsIn(v) <==> Tells(v, a)
  {
    forall a
      ensures a in RestartFindings(v) <==> a.key.kind.ChainRestarted? && Tells(v, a)
    {
      RestartMeaning(v, a);
    }
  }

  lemma RestartMeaning(v: Verdict, a: Alert)
    ensures a in RestartFindings(v) <==> a.key.kind.ChainRestarted? && Tells(v, a)
  {
    hide Resume.IsResumeCount, ResumeNames, Explained;
    assert forall after: nat :: Explained(v, after) <==> after > 0 && ResumeNames(v, after) by {
      forall after: nat
        ensures Explained(v, after) <==> after > 0 && ResumeNames(v, after)
      {
        ExplainedMeans(v, after);
      }
    }
    var fs := RestartFindings(v);
    if a.key.kind.ChainRestarted? && Tells(v, a) {
      var rs :| rs in v.restarts && a.key == Key(v.file, ChainRestarted, rs.line) && a.after == rs.after;
      var i :| 0 <= i < |v.restarts| && v.restarts[i] == rs;
      assert fs[i] == RestartFinding(v, rs) == a;
    }
    if a in fs {
      var i :| 0 <= i < |fs| && fs[i] == a;
      assert a == RestartFinding(v, v.restarts[i]);
      assert v.restarts[i] in v.restarts;
    }
  }

  lemma ExplainedMeans(v: Verdict, after: nat)
    ensures Explained(v, after) <==> after > 0 && ResumeNames(v, after)
  {
  }

  lemma {:induction false} NewHas(alerts: seq<Alert>, known: set<Key>)
    ensures forall a :: a in New(alerts, known) <==> a in alerts && a.key !in known
  {
    if alerts != [] {
      var n := |alerts| - 1;
      NewHas(alerts[..n], known);
      assert alerts == alerts[..n] + [alerts[n]];
    }
  }

  /** The findings of a pass are exactly what any stream of the walk has to say and was not reported before. */
  lemma {:induction false} FindingsAre(vs: seq<Verdict>, known: set<Key>)
    ensures forall a :: a in FindingsOf(vs, known) <==> a.key !in known && exists v | v in vs :: Tells(v, a)
  {
    hide FindingsIn, New, Tells;
    if vs != [] {
      var front, v := vs[..|vs| - 1], vs[|vs| - 1];
      FindingsAre(front, known);
      NewHas(FindingsIn(v), known);
      FindingsMeaning(v);
      assert vs == front + [v];
    }
  }

  // ---------------------------------------------------------------- what is found is found once

  predicate DistinctKeys(alerts: seq<Alert>) {
    forall i, j | 0 <= i < j < |alerts| :: alerts[i].key != alerts[j].key
  }

  /** The walk lists each file once, and each verdict is of its own stream. */
  ghost predicate Walked(w: Wire, vs: seq<Verdict>) {
    && (forall v | v in vs :: Faithful(w, v))
    && (forall i, j | 0 <= i < j < |vs| :: vs[i].file != vs[j].file)
  }

  lemma {:induction false} NewIs(alerts: seq<Alert>, known: set<Key>)
    requires DistinctKeys(alerts)
    ensures DistinctKeys(New(alerts, known))
    ensures forall a :: a in New(alerts, known) <==> a in alerts && a.key !in known
  {
    hide New;
    NewHas(alerts, known);
    if alerts == [] {
      NewNone(known);
    } else {
      var front, a := alerts[..|alerts| - 1], alerts[|alerts| - 1];
      assert alerts == front + [a];
      NewIs(front, known);
      NewOne(front, a, known);
      assert forall b | b in front :: b.key != a.key;
      OneMoreKey(New(front, known), a);
    }
  }

  lemma OneMoreKey(alerts: seq<Alert>, a: Alert)
    requires DistinctKeys(alerts) && forall b | b in alerts :: b.key != a.key
    ensures DistinctKeys(alerts + [a]) && DistinctKeys(alerts + [])
  {
    assert alerts + [] == alerts;
  }

  lemma RestartsApart(w: Wire, v: Verdict)
    requires Faithful(w, v)
    ensures forall i, j | 0 <= i < j < |v.restarts| :: v.restarts[i].line != v.restarts[j].line
  {
    hide Chain.ReportOf, Chain.Classes, Chain.RestartsOf;
    var tokens :| ReportOn(w, v, tokens);
    Chain.RestartsAreLaterHeads(Chain.Classes(w, tokens));
    Chain.PositionsExact(Chain.Classes(w, tokens), Chain.Head);
  }

  /** One stream gives each key at most once. */
  lemma FindingsApart(w: Wire, v: Verdict)
    requires Faithful(w, v)
    ensures DistinctKeys(FindingsIn(v))
    ensures forall a | a in FindingsIn(v) :: a.key.file == v.file && !a.key.kind.CheckpointRefused?
  {
    hide Faithful, IsUnchained, Explained;
    RestartsApart(w, v);
    var c, r, f := ChainFinding(v), RestartFindings(v), FindingsIn(v);
    forall i, j | 0 <= i < j < |f|
      ensures f[i].key != f[j].key
    {
      assert f[j] == r[j - |c|];
      if i >= |c| {
        assert v.restarts[i - |c|].line != v.restarts[j - |c|].line;
      }
    }
  }

  /** The keys of one pass are distinct, none was reported before, and nothing found is left out. */
  lemma {:induction false} FindingsOnce(w: Wire, vs: seq<Verdict>, known: set<Key>)
    requires Walked(w, vs)
    ensures var fs := FindingsOf(vs, known);
            && DistinctKeys(fs)
            && (forall a :: a in fs <==> a.key !in known && exists v | v in vs :: Tells(v, a))
            && (forall a | a in fs :: !a.key.kind.CheckpointRefused? && exists v | v in vs :: a.key.file == v.file)
  {
    hide FindingsIn, Faithful, New, NothingChained, ResumeNames;
    FindingsAre(vs, known);
    if vs != [] {
      var front, v := vs[..|vs| - 1], vs[|vs| - 1];
      FindingsOnce(w, front, known);
      FindingsApart(w, v);
      NewIs(FindingsIn(v), known);
      FindingsMeaning(v);
      assert vs == front + [v];
      assert forall u | u in front :: u.file != v.file;
    }
  }

  // ---------------------------------------------------------------- one pass over disk and bus

  /** What outlives the process: the alerts on the bus and the keys in the state file. */
  datatype Disk = Disk(bus: seq<Alert>, saved: seq<Key>)

  /** What becomes of one alert: refused by the bus, written and remembered, written and not remembered, or the
      process dies before or after it reaches the bus. */
  datatype Fate = NotWritten | Saved | Unsaved | DiedBefore | DiedAfter

  /** What the system answers during a pass: whether the state and the output open, each alert's fate, the fate of
      remembering the refusals, and whether the output closes. */
  datatype Io = Io(loads: bool, opens: bool, fates: nat -> Fate, remembers: Fate, closes: bool)

  /** A pass under way: the disk, the keys in memory, whether the process lives, and what went wrong so far. */
  datatype Pass = Pass(disk: Disk, memory: seq<Key>, alive: bool, crashes: nat, failedSaves: nat, refusedWrites: nat)

  function Begun(d: Disk): Pass { Pass(d, d.saved, true, 0, 0, 0) }

  /** Write one alert, then save the state at once. */
  function Delivered(p: Pass, a: Alert, fate: Fate): Pass {
    if !p.alive then p
    else
      var written := p.disk.(bus := p.disk.bus + [a]);
      var memory := p.memory + [a.key];
      match fate
      case NotWritten => p.(refusedWrites := p.refusedWrites + 1)
      case Saved => p.(disk := written.(saved := memory), memory := memory)
      case Unsaved => p.(disk := written, memory := memory, failedSaves := p.failedSaves + 1)
      case DiedBefore => p.(alive := false, crashes := p.crashes + 1)
      case DiedAfter => p.(disk := written, alive := false, crashes := p.crashes + 1)
  }

  function DeliveredAll(p: Pass, alerts: seq<Alert>, fates: nat -> Fate): Pass {
    if alerts == [] then p
    else
      var n := |alerts| - 1;
      Delivered(DeliveredAll(p, alerts[..n], fates), alerts[n], fates(n))
  }

  /** Refusals are remembered, and not put on the bus. */
  function Remembered(p: Pass, refusals: seq<Key>, fate: Fate): Pass {
    if !p.alive || refusals == [] then p
    else
      var memory := p.memory + refusals;
      match fate
      case Saved => p.(disk := p.disk.(saved := memory), memory := memory)
      case DiedAfter => p.(disk := p.disk.(saved := memory), memory := memory, alive := false, crashes := p.crashes + 1)
      case DiedBefore => p.(alive := false, crashes := p.crashes + 1)
      case _ => p.(memory := memory, failedSaves := p.failedSaves + 1)
  }

  function Known(saved: seq<Key>): set<Key> { set k | k in saved }

  /** An empty bus is not a clean bus. */
  predicate Others(vs: seq<Verdict>) { exists v | v in vs :: v.file != OWN_OUTPUT }

  predicate Runs(vs: seq<Verdict>, io: Io) { io.loads && Others(vs) }

  ghost predicate Opens(d: Disk, vs: seq<Verdict>, io: Io) {
    Runs(vs, io) && (io.opens || FindingsOf(vs, Known(d.saved)) == [])
  }

  ghost function PassOver(d: Disk, vs: seq<Verdict>, io: Io): Pass {
    if !Opens(d, vs, io) then Begun(d)
    else
      var known := Known(d.saved);
      Remembered(DeliveredAll(Begun(d), FindingsOf(vs, known), io.fates), RefusalsOf(vs, known), io.remembers)
  }

  // ---------------------------------------------------------------- what becomes of the findings

  predicate Dies(f: Fate) { f.DiedBefore? || f.DiedAfter? }

  /** The process lives to alert i. */
  predicate Reached(fates: nat -> Fate, i: nat) { forall j: nat | j < i :: !Dies(fates(j)) }

  /** Alert i is put on the bus. */
  predicate Put(fates: nat -> Fate, i: nat) { Reached(fates, i) && !fates(i).NotWritten? && !fates(i).DiedBefore? }

  predicate WriteRefused(fates: nat -> Fate, i: nat) { Reached(fates, i) && fates(i).NotWritten? }

  predicate SaveFailed(fates: nat -> Fate, i: nat) { Reached(fates, i) && fates(i).Unsaved? }

  /** The state is saved after alert i. */
  predicate SavedAt(fates: nat -> Fate, i: nat) { Reached(fates, i) && fates(i).Saved? }

  /** Which of the first n alerts were put on the bus, were refused by it, and were not remembered. */
  function Puts(fates: nat -> Fate, n: nat): set<nat> { set i: nat | i < n && Put(fates, i) }

  function RefusedWrites(fates: nat -> Fate, n: nat): set<nat> { set i: nat | i < n && WriteRefused(fates, i) }

  function FailedSaves(fates: nat -> Fate, n: nat): set<nat> { set i: nat | i < n && SaveFailed(fates, i) }

  lemma OneMoreCounted(fates: nat -> Fate, n: nat)
    ensures Reached(fates, 0) && (Reached(fates, n + 1) <==> Reached(fates, n) && !Dies(fates(n)))
    ensures Puts(fates, n + 1) == if Put(fates, n) then Puts(fates, n) + {n} else Puts(fates, n)
    ensures RefusedWrites(fates, n + 1)
            == if WriteRefused(fates, n) then RefusedWrites(fates, n) + {n} else RefusedWrites(fates, n)
    ensures FailedSaves(fates, n + 1)
            == if SaveFailed(fates, n) then FailedSaves(fates, n) + {n} else FailedSaves(fates, n)
  {
  }

  /** The process outlives the alerts exactly when no fate kills it, and the counts are those of the fates. */
  lemma {:induction false} FatesCounted(d: Disk, alerts: seq<Alert>, fates: nat -> Fate)
    ensures var p, n := DeliveredAll(Begun(d), alerts, fates), |alerts|;
            && (p.alive <==> Reached(fates, n)) && p.crashes == (if p.alive then 0 else 1)
            && p.refusedWrites == |RefusedWrites(fates, n)| && p.failedSaves == |FailedSaves(fates, n)|
            && |p.disk.bus| == |d.bus| + |Puts(fates, n)|
  {
    hide Reached, Puts, RefusedWrites, FailedSaves;
    if alerts == [] {
      NoneCounted(fates);
    } else {
      var n := |alerts| - 1;
      FatesCounted(d, alerts[..n], fates);
      OneMoreCounted(fates, n);
      NotYetCounted(fates, n);
    }
  }

  lemma NoneCounted(fates: nat -> Fate)
    ensures Reached(fates, 0) && Puts(fates, 0) == {} && RefusedWrites(fates, 0) == {} && FailedSaves(fates, 0) == {}
  {
  }

  lemma NotYetCounted(fates: nat -> Fate, n: nat)
    ensures n !in Puts(fates, n) && n !in RefusedWrites(fates, n) && n !in FailedSaves(fates, n)
  {
  }

  /** Some alert put on the bus before n is this one; some put there has this key. */
  predicate PutBefore(alerts: seq<Alert>, fates: nat -> Fate, n: nat, a: Alert) {
    exists i: nat | i < n && i < |alerts| :: Put(fates, i) && alerts[i] == a
  }

  predicate KeyPut(alerts: seq<Alert>, fates: nat -> Fate, n: nat, k: Key) {
    exists i: nat | i < n && i < |alerts| :: Put(fates, i) && alerts[i].key == k
  }

  /** Some save before n wrote this key. */
  predicate KeySaved(alerts: seq<Alert>, fates: nat -> Fate, n: nat, k: Key) {
    exists j: nat | j < n :: SavedAt(fates, j) && KeyPut(alerts, fates, j + 1, k)
  }

  /** The bus gains the alerts put there and no others; memory, the keys of those; the state file, what the last save
      knew. */
  lemma {:induction false} FatesKept(d: Disk, alerts: seq<Alert>, fates: nat -> Fate)
    ensures var p, n := DeliveredAll(Begun(d), alerts, fates), |alerts|;
            && d.bus <= p.disk.bus
            && (forall a :: a in p.disk.bus <==> a in d.bus || PutBefore(alerts, fates, n, a))
            && (p.alive ==> forall k :: k in p.memory <==> k in d.saved || KeyPut(alerts, fates, n, k))
            && (forall k :: k in p.disk.saved <==> k in d.saved || KeySaved(alerts, fates, n, k))
  {
    hide Reached, Put, SavedAt, PutBefore, KeyPut, KeySaved;
    if alerts == [] {
      NonePut(alerts, fates);
    } else {
      var n := |alerts| - 1;
      FatesKept(d, alerts[..n], fates);
      FatesCounted(d, alerts[..n], fates);
      OneMorePut(alerts, fates, n);
      SavedWasPut(alerts[..n], fates, n);
      PutMeans(fates, n);
      assert alerts[..n + 1] == alerts;
    }
  }

  lemma PutMeans(fates: nat -> Fate, n: nat)
    ensures Put(fates, n) <==> Reached(fates, n) && !fates(n).NotWritten? && !fates(n).DiedBefore?
    ensures SavedAt(fates, n) <==> Reached(fates, n) && fates(n).Saved?
  {
  }

  lemma NonePut(alerts: seq<Alert>, fates: nat -> Fate)
    ensures forall a :: !PutBefore(alerts, fates, 0, a)
    ensures forall k :: !KeyPut(alerts, fates, 0, k) && !KeySaved(alerts, fates, 0, k)
  {
  }

  lemma OneMorePut(alerts: seq<Alert>, fates: nat -> Fate, n: nat)
    requires n < |alerts|
    ensures forall a :: PutBefore(alerts, fates, n + 1, a)
              <==> PutBefore(alerts[..n], fates, n, a) || (Put(fates, n) && alerts[n] == a)
    ensures forall k :: KeyPut(alerts, fates, n + 1, k)
              <==> KeyPut(alerts[..n], fates, n, k) || (Put(fates, n) && alerts[n].key == k)
    ensures forall k :: KeySaved(alerts, fates, n + 1, k)
              <==> KeySaved(alerts[..n], fates, n, k) || (SavedAt(fates, n) && KeyPut(alerts, fates, n + 1, k))
  {
    hide Put, SavedAt;
    forall k
      ensures KeySaved(alerts, fates, n + 1, k)
              <==> KeySaved(alerts[..n], fates, n, k) || (SavedAt(fates, n) && KeyPut(alerts, fates, n + 1, k))
    {
      forall j: nat | j < n && SavedAt(fates, j)
        ensures KeyPut(alerts, fates, j + 1, k) <==> KeyPut(alerts[..n], fates, j + 1, k)
      {
        FrontPut(alerts, fates, n, j + 1, k);
      }
    }
  }

  lemma FrontPut(alerts: seq<Alert>, fates: nat -> Fate, n: nat, j: nat, k: Key)
    requires j <= n <= |alerts|
    ensures KeyPut(alerts, fates, j, k) <==> KeyPut(alerts[..n], fates, j, k)
  {
    hide Put;
  }

  lemma SavedWasPut(alerts: seq<Alert>, fates: nat -> Fate, n: nat)
    ensures forall k | KeySaved(alerts, fates, n, k) :: KeyPut(alerts, fates, n, k)
  {
    hide Put, SavedAt;
  }

  /** What a pass that opens leaves: it dies exactly when a fate kills it, in the alerts or in the save behind them;
      the counts are those of the fates; and a last save that works writes everything known by then. */
  lemma PassMeaning(d: Disk, vs: seq<Verdict>, io: Io)
    requires Opens(d, vs, io)
    ensures var p, fs, rs := PassOver(d, vs, io), FindingsOf(vs, Known(d.saved)), RefusalsOf(vs, Known(d.saved));
            var n, last := |fs|, Reached(io.fates, |fs|) && rs != [];
            && (p.alive <==> Reached(io.fates, n) && !(last && Dies(io.remembers)))
            && p.crashes == (if p.alive then 0 else 1)
            && p.refusedWrites == |RefusedWrites(io.fates, n)|
            && p.failedSaves == |FailedSaves(io.fates, n)|
                                + (if last && (io.remembers.Unsaved? || io.remembers.NotWritten?) then 1 else 0)
            && (forall a :: a in p.disk.bus <==> a in d.bus || PutBefore(fs, io.fates, n, a))
            && |p.disk.bus| == |d.bus| + |Puts(io.fates, n)|
            && (forall k :: k in p.disk.saved <==>
                  if last && (io.remembers.Saved? || io.remembers.DiedAfter?)
                  then k in d.saved || KeyPut(fs, io.fates, n, k) || k in rs
                  else k in d.saved || KeySaved(fs, io.fates, n, k))
  {
    hide FindingsOf, RefusalsOf, DeliveredAll, Reached, RefusedWrites, FailedSaves, Puts, PutBefore, KeyPut, KeySaved;
    FatesCounted(d, FindingsOf(vs, Known(d.saved)), io.fates);
    FatesKept(d, FindingsOf(vs, Known(d.saved)), io.fates);
  }

  /** The state file and the output stream. */
  class Box {
    var bus: seq<Alert>
    var saved: seq<Key>

    constructor ()
      ensures bus == [] && saved == []
    {
      bus, saved := [], [];
    }
  }

  /** One verification of the bus. code is None when the process died in it. */
  method WatchPass(box: Box, vs: seq<Verdict>, io: Io) returns (code: Option<nat>)
    modifies box
    ensures var p := PassOver(Disk(old(box.bus), old(box.saved)), vs, io);
            && Disk(box.bus, box.saved) == p.disk
            && (code.None? <==> !p.alive)
            && (code == Some(2) <==> p.alive && Failed(Disk(old(box.bus), old(box.saved)), vs, io))
            && (code == Some(0) <==> p.alive && !Failed(Disk(old(box.bus), old(box.saved)), vs, io)
                                     && !Alarming(vs, Known(old(box.saved))))
            && (code.Some? ==> code.value <= 2)
  {
    hide FindingsOf, RefusalsOf, DeliveredAll, Delivered, Troubled, AnyBroken, Alarming, Reached, RefusedWrites,
      FailedSaves;
    AlarmingMeans(vs, Known(box.saved));
    if !io.loads || !Others(vs) {
      return Some(2);
    }
    var findings, refusals, trouble := Gather(vs, Known(box.saved));
    if findings != [] && !io.opens {
      return Some(2);
    }
    ghost var start := Begun(Disk(box.bus, box.saved));
    ghost var p := DeliveredAll(start, findings, io.fates);
    DeliveredRemembered(p, refusals, io.remembers);
    var died, reported, failed, newBroken := Deliver(box, findings, io.fates);
    if died {
      return None;
    }
    trouble := trouble || failed || (findings != [] && !io.closes);
    if refusals != [] {
      reported := reported + refusals;
      match io.remembers
      case Saved => box.saved := reported;
      case DiedAfter => box.saved := reported; return None;
      case DiedBefore => return None;
      case _ => trouble := true;
    }
    return Some(if trouble then 2 else if newBroken > 0 || refusals != [] then 1 else 0);
  }

  /** Write the alerts, saving the state after each. */
  method Deliver(box: Box, findings: seq<Alert>, fates: nat -> Fate)
    returns (died: bool, reported: seq<Key>, failed: bool, newBroken: nat)
    modifies box
    ensures var p := DeliveredAll(Begun(Disk(old(box.bus), old(box.saved))), findings, fates);
            && Disk(box.bus, box.saved) == p.disk && died == !p.alive
            && (!died ==> reported == p.memory)
            && (!died ==> (failed <==> RefusedWrites(fates, |findings|) != {} || FailedSaves(fates, |findings|) != {}))
            && (!died && !failed ==> (newBroken > 0 <==> AnyBroken(findings)))
  {
    hide DeliveredAll, AnyBroken, Reached, RefusedWrites, FailedSaves, Puts;
    FatesCounted(Disk(box.bus, box.saved), findings, fates);
    NothingDelivered(Begun(Disk(box.bus, box.saved)), fates);
    died, reported, failed, newBroken := false, box.saved, false, 0;
    ghost var start := Begun(Disk(box.bus, box.saved));
    for i := 0 to |findings|
      invariant var p := DeliveredAll(start, findings[..i], fates);
                && p.alive && Disk(box.bus, box.saved) == p.disk && reported == p.memory
                && (failed <==> p.refusedWrites > 0 || p.failedSaves > 0)
      invariant !failed ==> (newBroken > 0 <==> AnyBroken(findings[..i]))
    {
      var a := findings[i];
      OneMore(start, findings, fates, i);
      DeathIsForGood(start, findings, fates, i + 1);
      match fates(i)
      case NotWritten =>
        failed := true;
      case DiedBefore =>
        died := true;
        return;
      case DiedAfter =>
        box.bus := box.bus + [a];
        died := true;
        return;
      case _ =>
        box.bus := box.bus + [a];
        reported := reported + [a.key];
        newBroken := newBroken + if a.key.kind.ChainBroken? then 1 else 0;
        if fates(i).Saved? {
          box.saved := reported;
        } else {
          failed := true;
        }
    }
    assert findings[..|findings|] == findings;
  }

  predicate AnyBroken(alerts: seq<Alert>) { exists a | a in alerts :: a.key.kind.ChainBroken? }

  lemma NothingDelivered(p: Pass, fates: nat -> Fate)
    ensures DeliveredAll(p, [], fates) == p && !AnyBroken([])
  {
  }

  lemma OneMore(p: Pass, alerts: seq<Alert>, fates: nat -> Fate, i: nat)
    requires i < |alerts|
    ensures DeliveredAll(p, alerts[..i + 1], fates)
            == Delivered(DeliveredAll(p, alerts[..i], fates), alerts[i], fates(i))
    ensures AnyBroken(alerts[..i + 1]) <==> AnyBroken(alerts[..i]) || alerts[i].key.kind.ChainBroken?
  {
    assert alerts[..i + 1][..i] == alerts[..i];
    assert alerts[..i + 1] == alerts[..i] + [alerts[i]];
  }

  lemma DeliveredRemembered(p: Pass, refusals: seq<Key>, fate: Fate)
    ensures var q := Remembered(p, refusals, fate);
            && q.refusedWrites == p.refusedWrites && q.failedSaves >= p.failedSaves
            && (!p.alive ==> q == p)
  {
  }

  /** Something could not be done: the pass did not get to the streams, a stream was not read or checked to its end, an
      alert was not written or not remembered, the refusals were not, or the output did not close. */
  ghost predicate Failed(d: Disk, vs: seq<Verdict>, io: Io) {
    var fs, rs := FindingsOf(vs, Known(d.saved)), RefusalsOf(vs, Known(d.saved));
    || !Opens(d, vs, io)
    || (exists v | v in vs :: Troubled(v))
    || RefusedWrites(io.fates, |fs|) != {} || FailedSaves(io.fates, |fs|) != {}
    || (rs != [] && (io.remembers.Unsaved? || io.remembers.NotWritten?))
    || (fs != [] && !io.closes)
  }

  /** A break or a refused record that was not reported before. */
  predicate Alarms(v: Verdict, known: set<Key>) {
    || (v.report.breaks != [] && Key(v.file, ChainBroken, v.report.breaks[0].line) !in known)
    || (v.sidecar.Checked? && exists r | r in v.sidecar.records ::
          r.verdict.Refused? && Key(v.file, CheckpointRefused, r.index) !in known)
  }

  predicate Alarming(vs: seq<Verdict>, known: set<Key>) { exists v | v in vs :: Alarms(v, known) }

  lemma AlarmingMeans(vs: seq<Verdict>, known: set<Key>)
    ensures Alarming(vs, known) <==> RefusalsOf(vs, known) != [] || AnyBroken(FindingsOf(vs, known))
  {
    hide FindingsOf, RefusalsOf, NothingChained, ResumeNames;
    FindingsAre(vs, known);
    RefusalsExact(vs, known);
    var fs, rs := FindingsOf(vs, known), RefusalsOf(vs, known);
    if v :| v in vs && Alarms(v, known) {
      if v.report.breaks != [] && Key(v.file, ChainBroken, v.report.breaks[0].line) !in known {
        var a := Alert(Key(v.file, ChainBroken, v.report.breaks[0].line), High, 0);
        assert Tells(v, a);
        assert a in fs;
      } else {
        var r :| r in v.sidecar.records && r.verdict.Refused? && Key(v.file, CheckpointRefused, r.index) !in known;
        assert TellsRefusal(v, Key(v.file, CheckpointRefused, r.index));
      }
    }
    if AnyBroken(fs) {
      var a :| a in fs && a.key.kind.ChainBroken?;
      var v :| v in vs && Tells(v, a);
      assert Alarms(v, known);
    }
    if rs != [] {
      assert rs[0] in rs;
      var v :| v in vs && TellsRefusal(v, rs[0]);
      assert Alarms(v, known);
    }
  }

  lemma {:induction false} DeathIsForGood(p: Pass, alerts: seq<Alert>, fates: nat -> Fate, i: nat)
    requires i <= |alerts|
    ensures !DeliveredAll(p, alerts[..i], fates).alive ==>
              DeliveredAll(p, alerts, fates) == DeliveredAll(p, alerts[..i], fates)
    decreases |alerts| - i
  {
    if i < |alerts| {
      assert alerts[..i + 1][..i] == alerts[..i];
      DeathIsForGood(p, alerts, fates, i + 1);
    } else {
      assert alerts[..i] == alerts;
    }
  }

  // ---------------------------------------------------------------- runs of passes

  /** The disk after some passes, and how many crashes and failed saves there were. */
  datatype Tally = Tally(disk: Disk, crashes: nat, failedSaves: nat)

  datatype Input = Input(vs: seq<Verdict>, io: Io)

  ghost function TallyAfter(inputs: seq<Input>): Tally {
    if inputs == [] then Tally(Disk([], []), 0, 0)
    else
      var t, last := TallyAfter(inputs[..|inputs| - 1]), inputs[|inputs| - 1];
      var p := PassOver(t.disk, last.vs, last.io);
      Tally(p.disk, t.crashes + p.crashes, t.failedSaves + p.failedSaves)
  }

  predicate OnBus(bus: seq<Alert>, k: Key) { exists a | a in bus :: a.key == k }

  /** The chain findings the state file remembers. */
  function SavedFindings(saved: seq<Key>): set<Key> { set k | k in saved && !k.kind.CheckpointRefused? }

  /** Nothing remembered is missing from the bus, and every alert beyond those remembered has a crash or a failed save
      to account for it. */
  ghost predicate Sound(d: Disk, mishaps: nat) {
    && (forall k | k in SavedFindings(d.saved) :: OnBus(d.bus, k))
    && |d.bus| <= |SavedFindings(d.saved)| + mishaps
  }

  /** The same under way, with what memory holds. */
  ghost predicate SoundPass(p: Pass, before: nat) {
    && Sound(p.disk, before + p.crashes + p.failedSaves)
    && (forall k | k in p.disk.saved :: k in p.memory)
    && (forall k | k in SavedFindings(p.memory) :: OnBus(p.disk.bus, k))
  }

  lemma SavedGrow(saved: seq<Key>, memory: seq<Key>, a: Alert)
    requires forall k | k in saved :: k in memory
    requires a.key !in memory && !a.key.kind.CheckpointRefused?
    ensures |SavedFindings(saved)| + 1 <= |SavedFindings(memory + [a.key])|
    ensures SavedFindings(memory + [a.key]) == SavedFindings(memory) + {a.key}
  {
    assert a.key in memory + [a.key];
    SubsetSmaller(SavedFindings(saved) + {a.key}, SavedFindings(memory + [a.key]));
  }

  lemma {:induction false} SubsetSmaller<T>(a: set<T>, b: set<T>)
    requires a <= b
    ensures |a| <= |b|
  {
    if a != {} {
      var x :| x in a;
      SubsetSmaller(a - {x}, b - {x});
    }
  }

  lemma OneDelivered(p: Pass, a: Alert, fate: Fate, before: nat)
    requires SoundPass(p, before)
    requires p.alive ==> a.key !in p.memory && !a.key.kind.CheckpointRefused?
    ensures SoundPass(Delivered(p, a, fate), before)
  {
    hide SavedFindings;
    if p.alive {
      SavedGrow(p.disk.saved, p.memory, a);
      assert forall k | OnBus(p.disk.bus, k) :: OnBus(p.disk.bus + [a], k);
      assert OnBus(p.disk.bus + [a], a.key) by {
        assert a in p.disk.bus + [a];
      }
    }
  }

  /** While the process lives, memory is what was saved at first and the keys of the alerts written. */
  lemma {:induction false} AllDelivered(d: Disk, alerts: seq<Alert>, fates: nat -> Fate, before: nat)
    requires SoundPass(Begun(d), before) && DistinctKeys(alerts)
    requires forall a | a in alerts :: a.key !in d.saved && !a.key.kind.CheckpointRefused?
    ensures var p := DeliveredAll(Begun(d), alerts, fates);
            && SoundPass(p, before)
            && (forall k | k in p.memory :: k in d.saved || OnBus(alerts, k))
  {
    hide SoundPass, SavedFindings;
    if alerts != [] {
      var n := |alerts| - 1;
      var front, a := alerts[..n], alerts[n];
      AllDelivered(d, front, fates, before);
      assert alerts == front + [a];
      assert forall b | b in front :: b.key != a.key;
      OneDelivered(DeliveredAll(Begun(d), front, fates), a, fates(n), before);
      assert forall k | OnBus(front, k) :: OnBus(alerts, k);
      assert OnBus(alerts, a.key) by {
        assert a in alerts;
      }
    }
  }

  predicate IsRefused(v: Verdict, k: Key, n: nat)
    requires n <= |Records(v)|
  {
    exists i | 0 <= i < n :: Records(v)[i].verdict.Refused? && k == RefusalKey(v, Records(v)[i])
  }

  lemma {:induction false} RefusalsInExact(v: Verdict, known: set<Key>, n: nat)
    requires n <= |Records(v)|
    ensures forall k :: k in RefusalsIn(v, known, n) <==> k !in known && IsRefused(v, k, n)
  {
    if n > 0 {
      RefusalsInExact(v, known, n - 1);
    }
  }

  /** A record of the stream's sidecar was refused. */
  predicate TellsRefusal(v: Verdict, k: Key) {
    v.sidecar.Checked? && exists r | r in v.sidecar.records ::
      r.verdict.Refused? && k == Key(v.file, CheckpointRefused, r.index)
  }

  lemma RefusalsMeaning(v: Verdict)
    ensures forall k :: IsRefused(v, k, |Records(v)|) <==> TellsRefusal(v, k)
  {
    forall k | TellsRefusal(v, k)
      ensures IsRefused(v, k, |Records(v)|)
    {
      var r :| r in v.sidecar.records && r.verdict.Refused? && k == Key(v.file, CheckpointRefused, r.index);
      var i :| 0 <= i < |v.sidecar.records| && v.sidecar.records[i] == r;
      assert Records(v)[i].verdict.Refused? && k == RefusalKey(v, Records(v)[i]);
    }
  }

  /** The refusals of a pass are the refused records not remembered before. */
  lemma {:induction false} RefusalsExact(vs: seq<Verdict>, known: set<Key>)
    ensures forall k :: k in RefusalsOf(vs, known) <==> k !in known && exists v | v in vs :: TellsRefusal(v, k)
  {
    hide RefusalsIn, IsRefused, TellsRefusal;
    if vs != [] {
      var front, v := vs[..|vs| - 1], vs[|vs| - 1];
      RefusalsExact(front, known);
      RefusalsInExact(v, known, |Records(v)|);
      RefusalsMeaning(v);
      assert vs == front + [v];
    }
  }

  lemma RefusalsAreRefusals(vs: seq<Verdict>, known: set<Key>)
    ensures forall k | k in RefusalsOf(vs, known) :: k.kind.CheckpointRefused?
  {
    RefusalsExact(vs, known);
  }

  lemma RefusalsRemembered(p: Pass, refusals: seq<Key>, fate: Fate, before: nat)
    requires SoundPass(p, before) && forall k | k in refusals :: k.kind.CheckpointRefused?
    ensures SoundPass(Remembered(p, refusals, fate), before)
  {
    assert SavedFindings(p.memory + refusals) == SavedFindings(p.memory);
    SubsetSmaller(SavedFindings(p.disk.saved), SavedFindings(p.memory));
  }

  lemma PassKeepsSound(w: Wire, d: Disk, vs: seq<Verdict>, io: Io, before: nat)
    requires Walked(w, vs) && Sound(d, before)
    ensures var p := PassOver(d, vs, io); Sound(p.disk, before + p.crashes + p.failedSaves)
  {
    hide FindingsOf, DeliveredAll, Walked, Sound;
    if Opens(d, vs, io) {
      var known := Known(d.saved);
      FindingsOnce(w, vs, known);
      SoundAtFirst(d, before);
      AllDelivered(d, FindingsOf(vs, known), io.fates, before);
      RefusalsAreRefusals(vs, known);
      RefusalsRemembered(DeliveredAll(Begun(d), FindingsOf(vs, known), io.fates), RefusalsOf(vs, known), io.remembers,
          before);
    }
  }

  lemma SoundAtFirst(d: Disk, before: nat)
    requires Sound(d, before)
    ensures SoundPass(Begun(d), before)
  {
  }

  /** Over any sequence of passes, whatever writes and saves fail and wherever the process dies: every chain finding in
      the state file has its alert on the bus, and the alerts number at most the findings remembered, the crashes and
      the failed saves. */
  lemma {:induction false} NoAlertIsLost(w: Wire, inputs: seq<Input>)
    requires forall i | i in inputs :: Walked(w, i.vs)
    ensures var t := TallyAfter(inputs); Sound(t.disk, t.crashes + t.failedSaves)
  {
    hide Sound, Walked, PassOver;
    if inputs == [] {
      NothingYet();
    } else {
      var n := |inputs| - 1;
      NoAlertIsLost(w, inputs[..n]);
      var t := TallyAfter(inputs[..n]);
      assert inputs[n] in inputs;
      PassKeepsSound(w, t.disk, inputs[n].vs, inputs[n].io, t.crashes + t.failedSaves);
    }
  }

  lemma NothingYet()
    ensures Sound(Disk([], []), 0)
  {
  }

  /** The distinct findings on the bus. */
  function BusKeys(bus: seq<Alert>): set<Key> { set a | a in bus :: a.key }

  /** The alerts are at most the distinct findings, the crashes and the failed saves; without a crash or a failed save
      no finding is on the bus twice. */
  lemma RepeatsAreBounded(w: Wire, inputs: seq<Input>)
    requires forall i | i in inputs :: Walked(w, i.vs)
    ensures var t := TallyAfter(inputs);
            && |t.disk.bus| <= |BusKeys(t.disk.bus)| + t.crashes + t.failedSaves
            && (t.crashes + t.failedSaves == 0 ==> DistinctKeys(t.disk.bus))
  {
    hide TallyAfter, Walked;
    NoAlertIsLost(w, inputs);
    var t := TallyAfter(inputs);
    SoundBounds(t.disk, t.crashes + t.failedSaves);
  }

  lemma SoundBounds(d: Disk, mishaps: nat)
    requires Sound(d, mishaps)
    ensures |d.bus| <= |BusKeys(d.bus)| + mishaps
    ensures mishaps == 0 ==> DistinctKeys(d.bus)
  {
    SubsetSmaller(SavedFindings(d.saved), BusKeys(d.bus));
    AsManyKeys(d.bus);
  }

  lemma {:induction false} AsManyKeys(bus: seq<Alert>)
    ensures |BusKeys(bus)| <= |bus|
    ensures |BusKeys(bus)| == |bus| ==> DistinctKeys(bus)
  {
    if bus != [] {
      var n := |bus| - 1;
      AsManyKeys(bus[..n]);
      assert bus == bus[..n] + [bus[n]];
      assert BusKeys(bus) == BusKeys(bus[..n]) + {bus[n].key};
      assert forall i | 0 <= i < n :: bus[i] in bus[..n] && bus[i].key in BusKeys(bus[..n]);
    }
  }

  // ---------------------------------------------------------------- a pass that nothing disturbs

  ghost predicate Undisturbed(io: Io) {
    io.loads && io.opens && io.closes && io.remembers.Saved? && forall i :: io.fates(i).Saved?
  }

  function Keys(alerts: seq<Alert>): (r: seq<Key>)
    ensures |r| == |alerts|
    ensures forall i | 0 <= i < |r| :: r[i] == alerts[i].key
  {
    seq(|alerts|, i requires 0 <= i < |alerts| => alerts[i].key)
  }

  lemma {:induction false} AllSaved(d: Disk, alerts: seq<Alert>, fates: nat -> Fate)
    requires forall i :: fates(i).Saved?
    ensures DeliveredAll(Begun(d), alerts, fates)
            == Pass(Disk(d.bus + alerts, d.saved + Keys(alerts)), d.saved + Keys(alerts), true, 0, 0, 0)
  {
    if alerts == [] {
      assert d.bus + [] == d.bus && d.saved + Keys([]) == d.saved;
    } else {
      var n := |alerts| - 1;
      AllSaved(d, alerts[..n], fates);
      assert d.bus + alerts[..n] + [alerts[n]] == d.bus + alerts;
      assert Keys(alerts[..n]) + [alerts[n].key] == Keys(alerts);
      assert d.saved + Keys(alerts[..n]) + [alerts[n].key] == d.saved + Keys(alerts);
    }
  }

  /** A pass that nothing disturbs puts every new finding on the bus, in order, and the next pass over the same
      verdicts has nothing to say. */
  lemma AnUndisturbedPassSettles(w: Wire, d: Disk, vs: seq<Verdict>, io: Io)
    requires Walked(w, vs) && Undisturbed(io) && Others(vs)
    ensures var p := PassOver(d, vs, io);
            && p.alive && p.disk.bus == d.bus + FindingsOf(vs, Known(d.saved))
            && FindingsOf(vs, Known(p.disk.saved)) == [] && RefusalsOf(vs, Known(p.disk.saved)) == []
  {
    hide FindingsOf, RefusalsOf, DeliveredAll, Walked, FindingsIn, TellsRefusal, Tells;
    var known := Known(d.saved);
    var fs, rs := FindingsOf(vs, known), RefusalsOf(vs, known);
    var p := PassOver(d, vs, io);
    AllSaved(d, fs, io.fates);
    assert d.saved + Keys(fs) + [] == d.saved + Keys(fs);
    assert p.disk.saved == d.saved + Keys(fs) + rs;
    var next := Known(p.disk.saved);
    FindingsOnce(w, vs, known);
    FindingsOnce(w, vs, next);
    RefusalsExact(vs, known);
    RefusalsExact(vs, next);
    forall a | a in fs
      ensures a.key in next
    {
      var i :| 0 <= i < |fs| && fs[i] == a;
      assert Keys(fs)[i] == a.key && Keys(fs)[i] in Keys(fs);
    }
    assert known <= next;
    Inhabited(FindingsOf(vs, next));
    Inhabited(RefusalsOf(vs, next));
  }

  /** A pass that nothing disturbs, over a stream with a break whose first line was not reported: the alert is on the
      bus and remembered, and the pass is not one that ends in 0. */
  lemma ABreakIsAlerted(d: Disk, vs: seq<Verdict>, io: Io, v: Verdict)
    requires Undisturbed(io) && v in vs && v.file != OWN_OUTPUT && v.report.breaks != []
    requires Key(v.file, ChainBroken, v.report.breaks[0].line) !in d.saved
    ensures var p, a := PassOver(d, vs, io), Alert(Key(v.file, ChainBroken, v.report.breaks[0].line), High, 0);
            && p.alive && a in p.disk.bus && a.key in p.disk.saved
            && (Failed(d, vs, io) || Alarming(vs, Known(d.saved)))
  {
    hide FindingsOf, RefusalsOf, DeliveredAll;
    var fs, a := FindingsOf(vs, Known(d.saved)), Alert(Key(v.file, ChainBroken, v.report.breaks[0].line), High, 0);
    assert Others(vs);
    AllSaved(d, fs, io.fates);
    FindingsAre(vs, Known(d.saved));
    assert Tells(v, a);
    var i :| 0 <= i < |fs| && fs[i] == a;
    assert Keys(fs)[i] == a.key && Keys(fs)[i] in Keys(fs);
    assert Alarms(v, Known(d.saved));
  }

  /** However the alerts fare, a pass that lives and fails in nothing leaves everything there is to say on the bus or
      remembered from before, and every refused record remembered. */
  lemma ACleanPassTellsAll(d: Disk, vs: seq<Verdict>, io: Io, v: Verdict)
    requires PassOver(d, vs, io).alive && !Failed(d, vs, io) && v in vs
    ensures var p := PassOver(d, vs, io);
            && (forall a | Tells(v, a) :: a.key in d.saved || (a in p.disk.bus && a.key in p.disk.saved))
            && (forall k | TellsRefusal(v, k) :: k in p.disk.saved)
  {
    hide FindingsOf, RefusalsOf, PassOver, Tells, TellsRefusal, Troubled;
    var known := Known(d.saved);
    var fs, rs := FindingsOf(vs, known), RefusalsOf(vs, known);
    PassMeaning(d, vs, io);
    FindingsAre(vs, known);
    RefusalsExact(vs, known);
    forall a | Tells(v, a) && a.key !in d.saved
      ensures a in PassOver(d, vs, io).disk.bus && a.key in PassOver(d, vs, io).disk.saved
    {
      var i :| 0 <= i < |fs| && fs[i] == a;
      assert i !in RefusedWrites(io.fates, |fs|) && i !in FailedSaves(io.fates, |fs|);
      assert SavedAt(io.fates, i) && Put(io.fates, i);
      assert KeyPut(fs, io.fates, i + 1, a.key);
    }
    forall k | TellsRefusal(v, k)
      ensures k in PassOver(d, vs, io).disk.saved
    {
      assert k in d.saved || k in rs;
      assert k in rs ==> Reached(io.fates, |fs|) && rs != [] && io.remembers.Saved?;
    }
  }
}
