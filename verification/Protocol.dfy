/** Any number of ChainedWriters on one file: lock, read the tail, append, unlock, and crashes anywhere. */
module Protocol {
  import opened Bytes
  import opened Wrappers
  import opened Wire
  import opened Tail
  import opened Chain
  import opened Writer

  /** Where one writer stands inside Write. */
  datatype Phase =
    | Idle
    | Locked(e: Event)
    | Ready(e: Event, data: Bytes, line: Bytes)
    | Landed(e: Event)
    | Failed

  /** One event line that reached the file whole, and one Write that returned success for it. */
  datatype Landing = Landing(id: nat, event: Event, prev: string, data: Bytes)
  datatype Ack = Ack(id: nat, event: Event, at: nat)

  /** The file, the lock and the writers, with the history a reader of the file cannot see. */
  datatype Sys = Sys(
    file: Bytes,
    holder: Option<nat>,
    phases: map<nat, Phase>,
    landed: seq<Landing>,
    acks: seq<Ack>,
    torn: nat,
    unacked: nat)

  datatype Action =
    | Lock(id: nat, e: Event)
    | Read(id: nat)
    | Append(id: nat, accepts: nat)
    | Unlock(id: nat)
    | Crash(id: nat)

  function PhaseOf(s: Sys, id: nat): Phase {
    if id in s.phases then s.phases[id] else Idle
  }

  /** One step of one writer. An action that is not possible where the writer stands changes nothing. */
  function Step(w: Wire, s: Sys, a: Action): Sys {
    match a
    case Lock(id, e) =>
      if PhaseOf(s, id) == Idle && s.holder.None? then
        s.(holder := Some(id), phases := s.phases[id := Phase.Locked(e)])
      else s
    case Read(id) =>
      var p := PhaseOf(s, id);
      if !p.Locked? then s
      else
        var data := Encoded(w, s.file, p.e);
        if data.None? then s.(phases := s.phases[id := Failed])
        else s.(phases := s.phases[id := Ready(p.e, data.value, LineFor(s.file, data.value))])
    case Append(id, n) =>
      var p := PhaseOf(s, id);
      if !p.Ready? then s
      else
        var whole := DataIn(s.file, p.data, n) == |p.data|;
        var done := n >= |p.line|;
        s.(file := s.file + Partial(p.line, n),
           landed := s.landed + if whole then [Landing(id, p.e, NextHash(w, s.file), p.data)] else [],
           torn := s.torn + if whole then 0 else 1,
           unacked := s.unacked + if whole && !done then 1 else 0,
           phases := s.phases[id := if done then Phase.Landed(p.e) else Failed])
    case Unlock(id) =>
      var p := PhaseOf(s, id);
      if p.Landed? then
        s.(holder := None, phases := s.phases - {id},
            acks := s.acks + [Ack(id, p.e, if s.landed == [] then 0 else |s.landed| - 1)])
      else if p.Failed? then s.(holder := None, phases := s.phases - {id})
      else s
    case Crash(id) =>
      s.(holder := if s.holder == Some(id) then None else s.holder,
         phases := s.phases - {id},
         unacked := s.unacked + if PhaseOf(s, id).Landed? then 1 else 0)
  }

  function Run(w: Wire, s: Sys, acts: seq<Action>): Sys
    decreases |acts|
  {
    if acts == [] then s else Step(w, Run(w, s, acts[..|acts| - 1]), acts[|acts| - 1])
  }

  function Start(file: Bytes): Sys { Sys(file, None, map[], [], [], 0, 0) }

  // ---------------------------------------------------------------- no run breaks the chain

  /** The verifier reports no break. */
  ghost predicate Sound(w: Wire, file: Bytes) {
    var t := Scanned(Tokens(file));
    forall i | 0 <= i < |t| :: ClassAt(w, t, i) != Broken
  }

  lemma SoundMeaning(w: Wire, file: Bytes)
    ensures Sound(w, file) <==> ReportOf(w, Scanned(Tokens(file))).breaks == []
  {
    hide Tokens, ClassAt, Scanned;
    var t := Scanned(Tokens(file));
    NoBreaks(w, t, |t|);
  }

  lemma {:induction false} NoBreaks(w: Wire, t: seq<Bytes>, n: nat)
    requires n <= |t|
    ensures BreaksOf(w, t, n) == [] <==> forall i | 0 <= i < n :: ClassAt(w, t, i) != Broken
  {
    hide ClassAt, Expected, Found, PrevLine, TrimSpace;
    if n > 0 {
      NoBreaks(w, t, n - 1);
    }
  }

  lemma ScannedGrows(tokens: seq<Bytes>, t: Bytes)
    ensures Scanned(tokens + [t]) ==
            if Scanned(tokens) == tokens && |t| < SCAN_LIMIT then tokens + [t] else Scanned(tokens)
  {
    assert (tokens + [t])[..|tokens|] == tokens;
  }

  /** An append cut at any byte leaves a file without a break. */
  lemma AppendKeepsSound(w: Wire, file: Bytes, e: Event, n: nat)
    requires Lawful(w) && Encoded(w, file, e).Some? && Sound(w, file)
    ensures Sound(w, file + Partial(LineFor(file, Encoded(w, file, e).value), n))
  {
    hide Tokens, Scanned, Judge, TrimSpace, PrevLine, LineFor, ClassAt;
    var d := Encoded(w, file, e).value;
    var k := DataIn(file, d, n);
    PartialTokens(file, d, n);
    if k > 0 {
      AppendedClass(w, file, e, k);
      OneMoreSound(w, Tokens(file), d[..k]);
    } else {
      assert Tokens(file) + [] == Tokens(file);
    }
  }

  lemma OneMoreSound(w: Wire, t: seq<Bytes>, x: Bytes)
    requires forall i | 0 <= i < |Scanned(t)| :: ClassAt(w, Scanned(t), i) != Broken
    requires Judge(w, PrevLine(t), TrimSpace(x)) != Broken
    ensures forall i | 0 <= i < |Scanned(t + [x])| :: ClassAt(w, Scanned(t + [x]), i) != Broken
  {
    hide Scanned, Judge, TrimSpace, PrevLine;
    var r := t + [x];
    ScannedGrows(t, x);
    if Scanned(r) != Scanned(t) {
      forall i | 0 <= i < |r|
        ensures ClassAt(w, r, i) != Broken
      {
        if i < |t| {
          assert r[..i] == t[..i] && r[i] == t[i];
          assert ClassAt(w, t, i) != Broken;
        } else {
          assert r[..i] == t;
        }
      }
    }
  }

  /** The class of what an append left on disk. */
  lemma AppendedClass(w: Wire, file: Bytes, e: Event, k: nat)
    requires Lawful(w) && Encoded(w, file, e).Some? && 0 < k <= |Encoded(w, file, e).value|
    ensures var d := Encoded(w, file, e).value;
            Judge(w, PrevLine(Tokens(file)), TrimSpace(d[..k])) ==
            if k < |d| || !Complete(e) then Malformed else if NextHash(w, file) == "" then Head else Chained
  {
    hide Tokens, Judge, TrimSpace, PrevLine, NextHash;
    var d := Encoded(w, file, e).value;
    if k < |d| {
      TornIsMalformed(w, Stamped(w, file, e), k, PrevLine(Tokens(file)));
    } else {
      assert d[..k] == d;
      AppendedIsChained(w, file, e);
    }
  }

  /** Only the holder of the lock is inside Write, and what it is about to append was stamped from the
      file as it still is. */
  ghost predicate Exclusive(w: Wire, s: Sys) {
    forall id :: id in s.phases ==>
      && (s.phases[id] != Idle ==> s.holder == Some(id))
      && (s.phases[id].Ready? ==>
            && Encoded(w, s.file, s.phases[id].e) == Some(s.phases[id].data)
            && s.phases[id].line == LineFor(s.file, s.phases[id].data))
  }

  lemma StepKeepsSound(w: Wire, s: Sys, a: Action)
    requires Lawful(w) && Exclusive(w, s) && Sound(w, s.file)
    ensures Exclusive(w, Step(w, s, a)) && Sound(w, Step(w, s, a).file)
  {
    hide Encoded, LineFor, Sound, DataIn;
    if a.Append? && PhaseOf(s, a.id).Ready? {
      AppendKeepsSound(w, s.file, PhaseOf(s, a.id).e, a.accepts);
    }
  }

  lemma StepKeepsExclusive(w: Wire, s: Sys, a: Action)
    requires Exclusive(w, s)
    ensures Exclusive(w, Step(w, s, a))
  {
    hide Encoded, LineFor, DataIn;
  }

  lemma {:induction false} RunsStayExclusive(w: Wire, file: Bytes, acts: seq<Action>)
    ensures Exclusive(w, Run(w, Start(file), acts))
    decreases |acts|
  {
    hide Step;
    if acts != [] {
      RunsStayExclusive(w, file, acts[..|acts| - 1]);
      StepKeepsExclusive(w, Run(w, Start(file), acts[..|acts| - 1]), acts[|acts| - 1]);
    }
  }

  lemma {:induction false} RunsStaySound(w: Wire, file: Bytes, acts: seq<Action>)
    requires Lawful(w) && Sound(w, file)
    ensures var s := Run(w, Start(file), acts); Exclusive(w, s) && Sound(w, s.file)
    decreases |acts|
  {
    hide Sound, Step;
    if acts != [] {
      var before := acts[..|acts| - 1];
      RunsStaySound(w, file, before);
      StepKeepsSound(w, Run(w, Start(file), before), acts[|acts| - 1]);
    }
  }

  /** For any number of writers, any interleaving and any crash, verifyChain reports no break on any
      reachable file, if it reported none on the file they started with. */
  lemma RunsNeverBreak(w: Wire, file: Bytes, acts: seq<Action>)
    requires Lawful(w) && ReportOf(w, Scanned(Tokens(file))).breaks == []
    ensures ReportOf(w, Scanned(Tokens(Run(w, Start(file), acts).file))).breaks == []
  {
    hide Sound, ReportOf, Run, Tokens, Scanned;
    SoundMeaning(w, file);
    RunsStaySound(w, file, acts);
    SoundMeaning(w, Run(w, Start(file), acts).file);
  }

  /** The lock is what the theorem rests on: two appends stamped from the same tail break the chain. */
  lemma UnlockedAppendsBreak(w: Wire, file: Bytes, e1: Event, e2: Event)
    requires Lawful(w) && EndsLine(file) && NextHash(w, file) != ""
    requires Encoded(w, file, e1).Some? && Encoded(w, file, e2).Some? && Complete(e1) && Complete(e2)
    requires ChainHashRaw(w, Encoded(w, file, e1).value) != Some(NextHash(w, file))
    ensures var d1, d2 := Encoded(w, file, e1).value, Encoded(w, file, e2).value;
            var tokens := Tokens((file + LineFor(file, d1)) + LineFor(file, d2));
            tokens == Tokens(file) + [d1, d2] && ClassAt(w, tokens, |tokens| - 1) == Broken
  {
    hide Tokens, TrimSpace, PrevLine, NextHash;
    var d1, d2 := Encoded(w, file, e1).value, Encoded(w, file, e2).value;
    OneToken(d1);
    OneToken(d2);
    assert LineFor(file, d1) == d1 + [LF] && LineFor(file, d2) == d2 + [LF];
    TokensConcat(file, d1 + [LF]);
    TokensConcat(file + (d1 + [LF]), d2 + [LF]);
    AppendedIsChained(w, file, e1);
    AppendedIsChained(w, file, e2);
    var tokens := Tokens(file) + [d1, d2];
    assert (Tokens(file) + [d1]) + [d2] == tokens;
    assert tokens[..|tokens| - 1] == Tokens(file) + [d1];
    PrevLineGrows(Tokens(file), d1);
  }

  // ---------------------------------------------------------------- exactly once, in order

  /** The lines of a file that are events, as the verifier sees them. */
  function EventLines(w: Wire, tokens: seq<Bytes>): seq<Bytes> {
    if tokens == [] then []
    else
      var n := |tokens| - 1;
      EventLines(w, tokens[..n]) +
      if Unmarshal(w, TrimSpace(tokens[n])).Some? then [TrimSpace(tokens[n])] else []
  }

  function Datas(ls: seq<Landing>): seq<Bytes> {
    seq(|ls|, i requires 0 <= i < |ls| => ls[i].data)
  }

  /** An event with every required member, whose line fits the window whatever a writer stamps on it. */
  ghost predicate Ordinary(w: Wire, e: Event) {
    && Complete(e)
    && forall p: string :: (p == "" || IsHashText(p)) && Marshal(w, e.(prevHash := p)).Some? ==>
         |Marshal(w, e.(prevHash := p)).value| + 2 <= RESUME_WINDOW
  }

  predicate CompleteActions(acts: seq<Action>) {
    forall i | 0 <= i < |acts| :: acts[i].Lock? ==> Complete(acts[i].e)
  }

  ghost predicate OrdinaryActions(w: Wire, acts: seq<Action>) {
    forall i | 0 <= i < |acts| :: acts[i].Lock? ==> Ordinary(w, acts[i].e)
  }

  function Count(cls: seq<Class>, c: Class): nat { |Positions(cls, c)| }

  /** The line is missing or malformed, so the next event starts a fresh chain. */
  predicate Restarting(cls: seq<Class>) {
    cls == [] || cls[|cls| - 1].Malformed?
  }

  /** What the lines of the file are, counted against the number of torn appends. */
  ghost predicate Tidy(w: Wire, tokens: seq<Bytes>, torn: nat) {
    var cls := Classes(w, tokens);
    && (forall i | 0 <= i < |tokens| :: |tokens[i]| + 2 <= RESUME_WINDOW && !Blank(tokens[i]))
    && (!Restarting(cls) ==> Hashable(w, TrimSpace(tokens[|tokens| - 1])))
    && Count(cls, Broken) == 0 && Count(cls, Unverifiable) == 0 && Count(cls, Skipped) == 0
    && Count(cls, Malformed) <= torn
    && Count(cls, Head) + (if Restarting(cls) then 1 else 0) <= Count(cls, Malformed) + 1
  }

  /** One more line keeps the counts, if a head comes only where the chain was to restart. */
  lemma TidyGrows(w: Wire, tokens: seq<Bytes>, x: Bytes, torn: nat)
    requires Tidy(w, tokens, torn)
    requires |x| + 2 <= RESUME_WINDOW && !Blank(x)
    requires var c := Judge(w, PrevLine(tokens), TrimSpace(x));
             || c == Malformed
             || ((c == Head || c == Chained) && Hashable(w, TrimSpace(x))
                 && (c == Head ==> Restarting(Classes(w, tokens))))
    ensures Tidy(w, tokens + [x], torn + if Judge(w, PrevLine(tokens), TrimSpace(x)) == Malformed then 1 else 0)
  {
    hide TrimSpace, PrevLine, Judge, Hashable, Blank, Positions, Classes;
    var t := tokens + [x];
    assert t[..|tokens|] == tokens;
    ReportGrows(w, t);
    var cls := Classes(w, tokens);
    var c := Judge(w, PrevLine(tokens), TrimSpace(x));
    assert ClassAt(w, t, |tokens|) == c;
    assert Classes(w, t) == cls + [c];
    assert forall k: Class :: Positions(Classes(w, t), k) == Positions(cls, k) + if c == k then [|t|] else [];
  }

  /** A file of ordinary lines whose last one is an event is chained from. */
  lemma OrdinaryTail(w: Wire, file: Bytes, torn: nat)
    requires Tidy(w, Tokens(file), torn) && !Restarting(Classes(w, Tokens(file)))
    ensures NextHash(w, file) != ""
  {
    hide TrimSpace, Tokens, Classes, Blank, Join;
    var tokens := Tokens(file);
    var n := |tokens| - 1;
    assert LastNonBlank(tokens) == Some(n);
    FileOfTokens(file, n);
    assert Reaches(file, n) by { assert Join([]) == [] by { JoinCons([], []); } assert n == 0 ==> tokens[..n] == []; }
  }

  lemma EventLinesGrow(w: Wire, tokens: seq<Bytes>, x: Bytes)
    ensures EventLines(w, tokens + [x]) ==
            EventLines(w, tokens) + if Unmarshal(w, TrimSpace(x)).Some? then [TrimSpace(x)] else []
  {
    hide TrimSpace;
    assert (tokens + [x])[..|tokens|] == tokens;
  }

  lemma DatasGrow(ls: seq<Landing>, l: Landing)
    ensures Datas(ls + [l]) == Datas(ls) + [l.data]
  {
  }

  /** The file against its history: its event lines are those it started with and then the landings, in order. */
  ghost predicate Accounted(w: Wire, s: Sys, base: seq<Bytes>) {
    && EventLines(w, Tokens(s.file)) == base + Datas(s.landed)
    && (forall i | 0 <= i < |s.landed| ::
          Marshal(w, s.landed[i].event.(prevHash := s.landed[i].prev)) == Some(s.landed[i].data))
    && (forall id :: id in s.phases && s.phases[id].Locked? ==> Complete(s.phases[id].e))
    && (forall id :: id in s.phases && s.phases[id].Ready? ==> Complete(s.phases[id].e))
  }

  /** What one append, cut anywhere, does to the event lines of any file. */
  lemma AppendKeepsEvents(w: Wire, file: Bytes, e: Event, n: nat)
    requires Lawful(w) && Complete(e) && Encoded(w, file, e).Some?
    ensures var d := Encoded(w, file, e).value;
            var now := Tokens(file + Partial(LineFor(file, d), n));
            EventLines(w, now) == EventLines(w, Tokens(file)) + if DataIn(file, d, n) == |d| then [d] else []
  {
    hide Tokens, TrimSpace, PrevLine, Judge, LineFor, NextHash, EventLines;
    var d := Encoded(w, file, e).value;
    var k := DataIn(file, d, n);
    PartialTokens(file, d, n);
    assert NextHash(w, file) == Stamped(w, file, e).prevHash;
    assert Tokens(file) + [] == Tokens(file);
    if k > 0 {
      EventLinesGrow(w, Tokens(file), d[..k]);
      if k < |d| {
        TornIsMalformed(w, Stamped(w, file, e), k, PrevLine(Tokens(file)));
      } else {
        assert d[..k] == d;
        AppendedIsChained(w, file, e);
      }
    }
  }

  /** What one append, cut anywhere, does to the lines of a tidy file. */
  lemma AppendKeepsTidy(w: Wire, file: Bytes, e: Event, n: nat, torn: nat)
    requires Lawful(w) && Ordinary(w, e) && Encoded(w, file, e).Some? && Tidy(w, Tokens(file), torn)
    ensures var d := Encoded(w, file, e).value;
            var whole := DataIn(file, d, n) == |d|;
            var now := Tokens(file + Partial(LineFor(file, d), n));
            Tidy(w, now, torn + if whole then 0 else 1)
  {
    hide Tokens, TrimSpace, PrevLine, Judge, LineFor, Tidy, NextHash, IsHashText;
    var d := Encoded(w, file, e).value;
    var k := DataIn(file, d, n);
    PartialTokens(file, d, n);
    NextHashForm(w, file);
    assert NextHash(w, file) == Stamped(w, file, e).prevHash;
    if k == 0 {
      assert Tokens(file) + [] == Tokens(file);
      TidyMore(w, Tokens(file), torn, torn + 1);
    } else {
      AppendedClass(w, file, e, k);
      if k < |d| {
        TornIsMalformed(w, Stamped(w, file, e), k, PrevLine(Tokens(file)));
        TidyGrows(w, Tokens(file), d[..k], torn);
      } else {
        assert d[..k] == d;
        AppendedIsChained(w, file, e);
        if !Restarting(Classes(w, Tokens(file))) { OrdinaryTail(w, file, torn); }
        TidyGrows(w, Tokens(file), d, torn);
      }
    }
  }

  lemma StepKeepsAccounted(w: Wire, s: Sys, a: Action, base: seq<Bytes>)
    requires Lawful(w) && Exclusive(w, s) && Accounted(w, s, base) && (a.Lock? ==> Complete(a.e))
    ensures Accounted(w, Step(w, s, a), base)
  {
    hide Encoded, LineFor, Tokens, EventLines, Complete, DataIn, Datas, NextHash;
    if a.Append? && PhaseOf(s, a.id).Ready? {
      var p := PhaseOf(s, a.id);
      AppendKeepsEvents(w, s.file, p.e, a.accepts);
      DatasGrow(s.landed, Landing(a.id, p.e, NextHash(w, s.file), p.data));
      EncodedIsMarshalled(w, s.file, p.e);
      assert s.landed + [] == s.landed;
      assert EventLines(w, Tokens(s.file)) + [] == EventLines(w, Tokens(s.file));
    }
  }

  /** The counts of a run that started with so many malformed lines at most. */
  ghost predicate Neat(w: Wire, s: Sys, before: nat) {
    && Tidy(w, Tokens(s.file), before + s.torn)
    && (forall id :: id in s.phases && s.phases[id].Locked? ==> Ordinary(w, s.phases[id].e))
    && (forall id :: id in s.phases && s.phases[id].Ready? ==> Ordinary(w, s.phases[id].e))
  }

  lemma StepKeepsNeat(w: Wire, s: Sys, a: Action, before: nat)
    requires Lawful(w) && Exclusive(w, s) && Neat(w, s, before) && (a.Lock? ==> Ordinary(w, a.e))
    ensures Neat(w, Step(w, s, a), before)
  {
    hide Encoded, LineFor, Tidy, Tokens, Ordinary, DataIn, NextHash;
    if a.Append? && PhaseOf(s, a.id).Ready? {
      AppendKeepsTidy(w, s.file, PhaseOf(s, a.id).e, a.accepts, before + s.torn);
    }
  }

  lemma EncodedIsMarshalled(w: Wire, file: Bytes, e: Event)
    requires Encoded(w, file, e).Some?
    ensures Marshal(w, e.(prevHash := NextHash(w, file))) == Encoded(w, file, e)
  {
    hide NextHash;
  }

  /** Acknowledgements point at landings of the same writer and event, each at its own, in file order. */
  ghost predicate Acknowledged(s: Sys) {
    && (forall i | 0 <= i < |s.acks| ::
          && s.acks[i].at < |s.landed|
          && s.landed[s.acks[i].at].id == s.acks[i].id
          && s.landed[s.acks[i].at].event == s.acks[i].event)
    && (forall i, j | 0 <= i < j < |s.acks| :: s.acks[i].at < s.acks[j].at)
    && |s.landed| == |s.acks| + s.unacked + (if Pending(s) then 1 else 0)
    && (Pending(s) ==> PendingIsLast(s, s.holder.value))
  }

  /** A line is on disk whose Write has not returned yet. */
  predicate Pending(s: Sys) {
    s.holder.Some? && PhaseOf(s, s.holder.value).Landed?
  }

  ghost predicate PendingIsLast(s: Sys, id: nat) {
    && s.landed != []
    && s.landed[|s.landed| - 1].id == id
    && (PhaseOf(s, id).Landed? ==> s.landed[|s.landed| - 1].event == PhaseOf(s, id).e)
    && forall i | 0 <= i < |s.acks| :: s.acks[i].at < |s.landed| - 1
  }

  lemma StepKeepsAcknowledged(w: Wire, s: Sys, a: Action)
    requires Exclusive(w, s) && Acknowledged(s)
    ensures Acknowledged(Step(w, s, a))
  {
    hide Encoded, LineFor, DataIn, NextHash;
    var t := Step(w, s, a);
    var p := PhaseOf(s, a.id);
    assert p != Idle ==> s.holder == Some(a.id);
    match a
    case Lock(id, e) =>
      assert !Pending(t) || t == s;
    case Read(id) =>
      assert !Pending(t) || t == s;
    case Append(id, n) =>
      if p.Ready? {
        assert !Pending(s);
        assert Pending(t) <==> n >= |p.line|;
        WholeLine(s.file, p.data, n);
      }
    case Unlock(id) =>
      if p.Landed? {
        assert Pending(s) && !Pending(t);
        assert forall i | 0 <= i < |s.acks| :: t.acks[i] == s.acks[i];
      } else if p.Failed? {
        assert !Pending(s) && !Pending(t);
      }
    case Crash(id) =>
      if s.holder == Some(id) {
        assert !Pending(t);
      } else {
        assert Pending(t) == Pending(s);
      }
  }

  lemma WholeLine(file: Bytes, data: Bytes, n: nat)
    ensures n >= |LineFor(file, data)| ==> DataIn(file, data, n) == |data|
  {
  }

  lemma NothingYet(w: Wire, file: Bytes)
    ensures Accounted(w, Start(file), EventLines(w, Tokens(file))) && Acknowledged(Start(file))
  {
    hide Tokens, EventLines;
    assert EventLines(w, Tokens(file)) + [] == EventLines(w, Tokens(file));
  }

  lemma {:induction false} RunsAccount(w: Wire, file: Bytes, acts: seq<Action>)
    requires Lawful(w) && CompleteActions(acts)
    ensures var s := Run(w, Start(file), acts); Accounted(w, s, EventLines(w, Tokens(file))) && Acknowledged(s)
    decreases |acts|
  {
    hide Accounted, Acknowledged, Exclusive, Step, Complete, Tokens, EventLines;
    if acts == [] {
      NothingYet(w, file);
    } else {
      var before, a := acts[..|acts| - 1], acts[|acts| - 1];
      RunsAccount(w, file, before);
      RunsStayExclusive(w, file, before);
      StepKeepsAccounted(w, Run(w, Start(file), before), a, EventLines(w, Tokens(file)));
      StepKeepsAcknowledged(w, Run(w, Start(file), before), a);
    }
  }

  /** The event lines are those of base and then one for every write that landed. Every acknowledged event is among
      these exactly once: the k-th acknowledgement names its own line, of its own writer, and those lines come in the
      order in which the writes returned. Only a write that was cut short or crashed can leave a line nobody
      acknowledged. */
  ghost predicate ExactlyOnce(w: Wire, s: Sys, base: seq<Bytes>) {
    var lines := EventLines(w, Tokens(s.file));
    && base <= lines && |lines| == |base| + |s.landed|
    && (forall k | 0 <= k < |s.acks| ::
          && s.acks[k].at < |s.landed|
          && s.landed[s.acks[k].at].id == s.acks[k].id
          && Some(lines[|base| + s.acks[k].at]) ==
             Marshal(w, s.acks[k].event.(prevHash := s.landed[s.acks[k].at].prev)))
    && (forall j, k | 0 <= j < k < |s.acks| :: s.acks[j].at < s.acks[k].at)
    && |s.landed| <= |s.acks| + s.unacked + 1
  }

  /** Over any run of any writers, from any file, every acknowledged event is in the file exactly once. */
  lemma AcknowledgedExactlyOnce(w: Wire, file: Bytes, acts: seq<Action>)
    requires Lawful(w) && CompleteActions(acts)
    ensures ExactlyOnce(w, Run(w, Start(file), acts), EventLines(w, Tokens(file)))
  {
    hide Run, EventLines, Tokens, Accounted, Acknowledged, ExactlyOnce;
    RunsAccount(w, file, acts);
    AccountedOnce(w, Run(w, Start(file), acts), EventLines(w, Tokens(file)));
  }

  lemma AccountedOnce(w: Wire, s: Sys, base: seq<Bytes>)
    requires Accounted(w, s, base) && Acknowledged(s)
    ensures ExactlyOnce(w, s, base)
  {
    hide EventLines, Tokens, Complete;
    var lines := EventLines(w, Tokens(s.file));
    assert forall i | 0 <= i < |s.landed| :: lines[|base| + i] == s.landed[i].data;
  }

  lemma {:induction false} RunsStayNeat(w: Wire, file: Bytes, acts: seq<Action>, before: nat)
    requires Lawful(w) && OrdinaryActions(w, acts) && Tidy(w, Tokens(file), before)
    ensures Neat(w, Run(w, Start(file), acts), before)
    decreases |acts|
  {
    hide Neat, Exclusive, Step, Ordinary, Tidy, Tokens;
    if acts == [] {
      NeatStart(w, file, before);
    } else {
      RunsStayNeat(w, file, acts[..|acts| - 1], before);
      RunsStayExclusive(w, file, acts[..|acts| - 1]);
      StepKeepsNeat(w, Run(w, Start(file), acts[..|acts| - 1]), acts[|acts| - 1], before);
    }
  }

  lemma NeatStart(w: Wire, file: Bytes, before: nat)
    requires Tidy(w, Tokens(file), before)
    ensures Neat(w, Start(file), before)
  {
    hide Tidy, Tokens;
  }

  lemma NothingIsTidy(w: Wire)
    ensures Tidy(w, Tokens([]), 0)
  {
    hide TrimSpace;
    assert Tokens([]) == [];
  }

  /** Over any run of ordinary events from a tidy file: malformed lines are at most those before and the torn appends,
      heads at most one more than the malformed lines, and nothing is unverifiable. The empty file is tidy. */
  lemma RestartsAreCounted(w: Wire, file: Bytes, acts: seq<Action>, before: nat)
    requires Lawful(w) && OrdinaryActions(w, acts) && (Tidy(w, Tokens(file), before) || file == [])
    ensures var s := Run(w, Start(file), acts);
            var report := ReportOf(w, Tokens(s.file));
            && report.malformed <= before + s.torn
            && |report.headLines| <= report.malformed + 1
            && report.lines == report.malformed + report.chained + |report.headLines|
  {
    hide Run, Tokens, Tidy, ReportOf, Ordinary;
    if file == [] {
      NothingIsTidy(w);
      TidyMore(w, Tokens([]), 0, before);
    }
    RunsStayNeat(w, file, acts, before);
    var s := Run(w, Start(file), acts);
    TidyCounts(w, Tokens(s.file), before + s.torn);
  }

  lemma TidyMore(w: Wire, tokens: seq<Bytes>, torn: nat, more: nat)
    requires Tidy(w, tokens, torn) && torn <= more
    ensures Tidy(w, tokens, more)
  {
  }

  lemma TidyCounts(w: Wire, tokens: seq<Bytes>, torn: nat)
    requires Tidy(w, tokens, torn)
    ensures var r := ReportOf(w, tokens);
            && r.malformed <= torn && |r.headLines| <= r.malformed + 1
            && r.lines == r.malformed + r.chained + |r.headLines|
  {
    hide Classes, Positions, TrimSpace, Blank;
    ReportPartitions(w, tokens);
    BreaksAreBroken(w, tokens, |tokens|);
    assert Classes(w, tokens)[..|tokens|] == Classes(w, tokens);
  }

  // ---------------------------------------------------------------- what the counts count, and that writes land

  /** Step i of a run from this file, and the state it finds. */
  function Found(w: Wire, file: Bytes, acts: seq<Action>, i: nat): Sys
    requires i < |acts|
  {
    Run(w, Start(file), acts[..i])
  }

  /** How many bytes an append takes up to its closing LF: a newline of its own where the file ends mid-line, and the
      event. */
  function UpToLF(s: Sys, id: nat): nat
    requires PhaseOf(s, id).Ready?
  {
    (if EndsLine(s.file) then 0 else 1) + |PhaseOf(s, id).data|
  }

  predicate CutsTheEvent(s: Sys, a: Action) {
    a.Append? && PhaseOf(s, a.id).Ready? && a.accepts < UpToLF(s, a.id)
  }

  /** The event is on disk and its Write will never say so: only the closing LF was lost, or the writer crashes. */
  predicate LandsUnsaid(s: Sys, a: Action) {
    || (a.Append? && PhaseOf(s, a.id).Ready? && a.accepts == UpToLF(s, a.id))
    || (a.Crash? && PhaseOf(s, a.id).Landed?)
  }

  function TornSteps(w: Wire, file: Bytes, acts: seq<Action>): set<nat> {
    set i: nat | i < |acts| && CutsTheEvent(Found(w, file, acts, i), acts[i])
  }

  function UnsaidSteps(w: Wire, file: Bytes, acts: seq<Action>): set<nat> {
    set i: nat | i < |acts| && LandsUnsaid(Found(w, file, acts, i), acts[i])
  }

  lemma CountedStep(w: Wire, s: Sys, a: Action)
    requires Lawful(w) && Exclusive(w, s)
    ensures Step(w, s, a).torn == s.torn + if CutsTheEvent(s, a) then 1 else 0
    ensures Step(w, s, a).unacked == s.unacked + if LandsUnsaid(s, a) then 1 else 0
  {
    hide NextHash, EndsLine, Run;
  }

  lemma StepsGrow(w: Wire, file: Bytes, acts: seq<Action>)
    requires acts != []
    ensures var n := |acts| - 1;
            var s, front := Run(w, Start(file), acts[..n]), acts[..n];
            && TornSteps(w, file, acts)
               == TornSteps(w, file, front) + (if CutsTheEvent(s, acts[n]) then {n} else {})
            && UnsaidSteps(w, file, acts)
               == UnsaidSteps(w, file, front) + (if LandsUnsaid(s, acts[n]) then {n} else {})
            && n !in TornSteps(w, file, front) && n !in UnsaidSteps(w, file, front)
  {
    hide Run, CutsTheEvent, LandsUnsaid;
    var n := |acts| - 1;
    assert forall i: nat | i < n :: acts[..n][..i] == acts[..i];
    assert forall i: nat | i < n :: Found(w, file, acts[..n], i) == Found(w, file, acts, i);
  }

  /** The counts the theorems above bound by are those of the steps of the run that cut an event short, and of those
      that left one on disk unsaid. */
  lemma {:induction false} CountsAreOfSteps(w: Wire, file: Bytes, acts: seq<Action>)
    requires Lawful(w)
    ensures var s := Run(w, Start(file), acts);
            s.torn == |TornSteps(w, file, acts)| && s.unacked == |UnsaidSteps(w, file, acts)|
    decreases |acts|
  {
    hide Step, CutsTheEvent, LandsUnsaid, TornSteps, UnsaidSteps, Exclusive;
    if acts == [] {
      NoSteps(w, file);
    } else {
      var n := |acts| - 1;
      CountsAreOfSteps(w, file, acts[..n]);
      RunsStayExclusive(w, file, acts[..n]);
      CountedStep(w, Run(w, Start(file), acts[..n]), acts[n]);
      StepsGrow(w, file, acts);
    }
  }

  lemma NoSteps(w: Wire, file: Bytes)
    ensures TornSteps(w, file, []) == {} && UnsaidSteps(w, file, []) == {}
  {
  }

  /** Whoever holds the lock is inside Write. */
  predicate HolderIsInside(s: Sys) { s.holder.Some? ==> PhaseOf(s, s.holder.value) != Idle }

  lemma StepKeepsHolder(w: Wire, s: Sys, a: Action)
    requires Exclusive(w, s) && HolderIsInside(s)
    ensures HolderIsInside(Step(w, s, a))
  {
    hide Encoded, LineFor, DataIn, NextHash;
  }

  /** Over any run, crashes and failures included, the lock is free exactly when no writer is inside Write: nobody is
      locked out by one that is gone. */
  lemma {:induction false} TheLockComesFree(w: Wire, file: Bytes, acts: seq<Action>)
    ensures var s := Run(w, Start(file), acts);
            HolderIsInside(s) && (s.holder.None? <==> forall id: nat :: PhaseOf(s, id) == Idle)
    decreases |acts|
  {
    hide Step;
    if acts != [] {
      var n := |acts| - 1;
      TheLockComesFree(w, file, acts[..n]);
      RunsStayExclusive(w, file, acts[..n]);
      StepKeepsHolder(w, Run(w, Start(file), acts[..n]), acts[n]);
    }
    RunsStayExclusive(w, file, acts);
  }

  /** Where nobody holds the lock, a Write that nothing cuts short lands, chained from the file's own tail, and says
      so; one whose event cannot be encoded leaves the file and lets the lock go. */
  lemma AWriteLands(w: Wire, s: Sys, id: nat, e: Event, n: nat)
    requires s.holder.None? && PhaseOf(s, id) == Idle
    requires Encoded(w, s.file, e).Some? ==> n >= |LineFor(s.file, Encoded(w, s.file, e).value)|
    ensures var t, d := Run(w, s, [Lock(id, e), Read(id), Append(id, n), Unlock(id)]), Encoded(w, s.file, e);
            && t.holder.None? && PhaseOf(t, id) == Idle && t.torn == s.torn && t.unacked == s.unacked
            && (d.None? ==> t.file == s.file && t.acks == s.acks && t.landed == s.landed)
            && (d.Some? ==>
                  && t.file == s.file + (if EndsLine(s.file) then [] else [LF]) + d.value + [LF]
                  && t.landed == s.landed + [Landing(id, e, NextHash(w, s.file), d.value)]
                  && t.acks == s.acks + [Ack(id, e, |s.landed|)])
  {
    hide Encoded, NextHash, EndsLine, Run;
    var a, b := Step(w, s, Lock(id, e)), Step(w, Step(w, s, Lock(id, e)), Read(id));
    var c := Step(w, b, Append(id, n));
    FourSteps(w, s, Lock(id, e), Read(id), Append(id, n), Unlock(id));
  }

  lemma FourSteps(w: Wire, s: Sys, a: Action, b: Action, c: Action, d: Action)
    ensures Run(w, s, [a, b, c, d]) == Step(w, Step(w, Step(w, Step(w, s, a), b), c), d)
  {
    hide Step;
    assert [a, b, c, d][..3] == [a, b, c] && [a, b, c][..2] == [a, b] && [a, b][..1] == [a] && [a][..0] == [];
    assert Run(w, s, [a]) == Step(w, s, a);
    assert Run(w, s, [a, b]) == Step(w, Step(w, s, a), b);
    assert Run(w, s, [a, b, c]) == Step(w, Step(w, Step(w, s, a), b), c);
  }
}
