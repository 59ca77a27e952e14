/** Single use of a proof: the two-generation cache, the pruned map, and the unbounded memory both stand for. */
module Replay {
  import opened Clock

  /** How far a proof's iat may be from now, either way, in seconds. */
  const WINDOW: int := 60

  /** How long one generation of the cache lasts. */
  const GENERATION: int := 2 * WINDOW

  datatype Verdict = Admitted | Replayed | Full

  // ---------------------------------------------------------------- the cache

  datatype Memory = Memory(cap: int, begun: bool, started: Int64, current: set<string>, previous: set<string>)

  function Empty(cap: int): Memory { Memory(cap, false, 0, {}, {}) }

  /** The memory a look at the clock leaves: a generation is retired by age, and forgotten when two have passed. */
  function Turned(m: Memory, now: Int64): Memory {
    var age := now - m.started;
    if m.begun && age < GENERATION then m
    else Memory(m.cap, true, now, {}, if m.begun && age < 2 * GENERATION then m.current else {})
  }

  predicate Remembered(m: Memory, jti: string) { jti in m.current || jti in m.previous }

  function Judged(m: Memory, jti: string): Verdict {
    if Remembered(m, jti) then Replayed
    else if |m.current| >= m.cap then Full
    else Admitted
  }

  function After(m: Memory, jti: string, now: Int64): Memory {
    var t := Turned(m, now);
    if Judged(t, jti).Admitted? then t.(current := t.current + {jti}) else t
  }

  class ReplayCache {
    const cap: int
    var begun: bool
    var started: Int64
    var current: set<string>
    var previous: set<string>

    ghost function State(): Memory
      reads this
    {
      Memory(cap, begun, started, current, previous)
    }

    constructor (cap: int)
      ensures State() == Empty(cap)
    {
      this.cap := cap;
      begun, started := false, 0;
      current, previous := {}, {};
    }

    /** Record jti as used at the Unix second now, or say why it may not be. */
    method CheckAndRecord(jti: string, now: Int64) returns (v: Verdict)
      modifies this
      ensures State() == After(old(State()), jti, now)
      ensures v == Judged(Turned(old(State()), now), jti)
    {
      if !begun || SaturatingSub(now, started) >= GENERATION {
        if !begun || SaturatingSub(now, started) >= 2 * GENERATION {
          previous := {};
        } else {
          previous := current;
        }
        current := {};
        started := now;
        begun := true;
      }
      if jti in current {
        return Replayed;
      }
      if jti in previous {
        return Replayed;
      }
      if |current| >= cap {
        return Full;
      }
      current := current + {jti};
      return Admitted;
    }
  }

  // ---------------------------------------------------------------- runs under any clock

  datatype Call = Call(jti: string, now: Int64)

  /** The memory after a run of calls, from an empty one. */
  function MemoryAfter(cap: int, calls: seq<Call>): Memory {
    if calls == [] then Empty(cap)
    else
      var last := calls[|calls| - 1];
      After(MemoryAfter(cap, calls[..|calls| - 1]), last.jti, last.now)
  }

  /** What call i is told. */
  function VerdictAt(cap: int, calls: seq<Call>, i: nat): Verdict
    requires i < |calls|
  {
    Judged(Turned(MemoryAfter(cap, calls[..i]), calls[i].now), calls[i].jti)
  }

  lemma MemoryGrows(cap: int, calls: seq<Call>, i: nat)
    requires i < |calls|
    ensures MemoryAfter(cap, calls[..i + 1]) == After(MemoryAfter(cap, calls[..i]), calls[i].jti, calls[i].now)
  {
    assert calls[..i + 1][..i] == calls[..i];
  }

  /** Where an id admitted at second s still is, and how old its generation may be. */
  predicate Held(m: Memory, jti: string, s: int) {
    && m.begun
    && ((jti in m.current && m.started > s - GENERATION) || (jti in m.previous && m.started > s))
  }

  lemma HeldOnce(m: Memory, jti: string, now: Int64)
    requires Judged(Turned(m, now), jti).Admitted?
    ensures Held(After(m, jti, now), jti, now)
  {
  }

  lemma HeldOn(m: Memory, jti: string, s: int, call: Call)
    requires Held(m, jti, s) && call.now <= s + GENERATION
    ensures Remembered(Turned(m, call.now), jti)
    ensures Held(After(m, call.jti, call.now), jti, s)
  {
  }

  lemma {:induction false} StillHeld(cap: int, calls: seq<Call>, i: nat, j: nat)
    requires i < j <= |calls|
    requires VerdictAt(cap, calls, i).Admitted?
    requires forall k | i < k < j :: calls[k].now <= calls[i].now + GENERATION
    ensures Held(MemoryAfter(cap, calls[..j]), calls[i].jti, calls[i].now)
  {
    MemoryGrows(cap, calls, j - 1);
    if j == i + 1 {
      HeldOnce(MemoryAfter(cap, calls[..i]), calls[i].jti, calls[i].now);
    } else {
      StillHeld(cap, calls, i, j - 1);
      HeldOn(MemoryAfter(cap, calls[..j - 1]), calls[i].jti, calls[i].now, calls[j - 1]);
    }
  }

  /** Once admitted at second s, an id is refused as a replay by every later call, however the clock walks, until
      some call has read a clock beyond s + 2 windows. */
  lemma SingleUseUnderAnyClock(cap: int, calls: seq<Call>, i: nat, j: nat)
    requires i < j < |calls| && calls[j].jti == calls[i].jti
    requires VerdictAt(cap, calls, i).Admitted?
    requires forall k | i < k <= j :: calls[k].now <= calls[i].now + GENERATION
    ensures VerdictAt(cap, calls, j) == Replayed
  {
    StillHeld(cap, calls, i, j);
    HeldOn(MemoryAfter(cap, calls[..j]), calls[i].jti, calls[i].now, calls[j]);
  }

  /** One second beyond two windows is enough to be forgotten: the bound cannot be raised. */
  lemma TwoWindowsIsExact()
    ensures var calls := [Call("x", 0), Call("a", 119), Call("x", 120), Call("a", 239), Call("a", 240)];
            && VerdictAt(9, calls, 1).Admitted? && VerdictAt(9, calls, 3) == Replayed
            && calls[4].now == calls[1].now + GENERATION + 1 && VerdictAt(9, calls, 4).Admitted?
  {
    var calls := [Call("x", 0), Call("a", 119), Call("x", 120), Call("a", 239), Call("a", 240)];
    hide MemoryAfter, Judged, Turned, After;
    MemoryStarts(9, calls);
    MemoryGrows(9, calls, 0);
    MemoryGrows(9, calls, 1);
    MemoryGrows(9, calls, 2);
    MemoryGrows(9, calls, 3);
    var m1, m2, m3 := Memory(9, true, 0, {"x"}, {}), Memory(9, true, 0, {"x", "a"}, {}),
        Memory(9, true, 120, {}, {"x", "a"});
    Example(Empty(9), "x", 0, Memory(9, true, 0, {}, {}), m1);
    Example(m1, "a", 119, m1, m2);
    Example(m2, "x", 120, m3, m3);
    Example(m3, "a", 239, m3, m3);
    Example(m3, "a", 240, Memory(9, true, 240, {}, {}), Memory(9, true, 240, {"a"}, {}));
  }

  lemma MemoryStarts(cap: int, calls: seq<Call>)
    ensures MemoryAfter(cap, calls[..0]) == Empty(cap)
  {
  }

  lemma Example(m: Memory, jti: string, now: Int64, t: Memory, after: Memory)
    requires t == Turned(m, now) && |t.current| < t.cap
    requires after == if Remembered(t, jti) then t else t.(current := t.current + {jti})
    ensures Judged(Turned(m, now), jti) == if Remembered(t, jti) then Replayed else Admitted
    ensures After(m, jti, now) == after
  {
  }

  // ---------------------------------------------------------------- what every run keeps

  function StartedAt(cap: int, calls: seq<Call>, k: nat): int
    requires k <= |calls|
  {
    MemoryAfter(cap, calls[..k]).started
  }

  predicate Forward(calls: seq<Call>) {
    forall a, b | 0 <= a < b < |calls| :: calls[a].now <= calls[b].now
  }

  /** The start of the generation never goes back, and no generation holds more than its cap. */
  lemma {:induction false} RunsKeepBounds(cap: int, calls: seq<Call>, i: nat)
    requires i <= |calls|
    ensures var m := MemoryAfter(cap, calls[..i]);
            && m.cap == cap && (i > 0 <==> m.begun)
            && |m.current| <= (if cap < 0 then 0 else cap)
            && |m.previous| <= (if cap < 0 then 0 else cap)
            && (forall k | 0 < k <= i :: StartedAt(cap, calls, k) <= m.started)
            && (Forward(calls) && i > 0 ==> m.started <= calls[i - 1].now)
  {
    if i > 0 {
      RunsKeepBounds(cap, calls, i - 1);
      MemoryGrows(cap, calls, i - 1);
    }
  }

  /** The call that admitted an id. */
  predicate AdmittedAt(cap: int, calls: seq<Call>, jti: string, k: nat) {
    k < |calls| && calls[k].jti == jti && VerdictAt(cap, calls, k).Admitted?
  }

  /** How old an id admitted at second s can be, when the clock goes forward. */
  predicate Aged(m: Memory, jti: string, s: int) {
    (jti in m.current ==> m.started <= s) && m.started < s + 2 * GENERATION
  }

  lemma RememberedOn(m: Memory, call: Call, jti: string)
    requires Remembered(After(m, call.jti, call.now), jti)
    requires !(jti == call.jti && Judged(Turned(m, call.now), jti).Admitted?)
    ensures Remembered(m, jti)
    ensures forall s :: Aged(m, jti, s) ==> Aged(After(m, call.jti, call.now), jti, s)
  {
  }

  /** Where the ids in the memory come from. */
  lemma {:induction false} RememberedWasAdmitted(cap: int, calls: seq<Call>, i: nat, jti: string) returns (k: nat)
    requires i <= |calls| && Remembered(MemoryAfter(cap, calls[..i]), jti)
    ensures k < i && AdmittedAt(cap, calls, jti, k)
    ensures Forward(calls) ==> Aged(MemoryAfter(cap, calls[..i]), jti, calls[k].now)
  {
    hide Turned, Judged;
    MemoryGrows(cap, calls, i - 1);
    var before := MemoryAfter(cap, calls[..i - 1]);
    if jti == calls[i - 1].jti && VerdictAt(cap, calls, i - 1).Admitted? {
      k := i - 1;
      RunsKeepBounds(cap, calls, i);
    } else {
      RememberedOn(before, calls[i - 1], jti);
      k := RememberedWasAdmitted(cap, calls, i - 1, jti);
    }
  }

  /** No id is refused as a replay that was not admitted before; under a forward clock, at most three generations
      before. */
  lemma EveryReplayWasAdmitted(cap: int, calls: seq<Call>, j: nat)
    requires j < |calls| && VerdictAt(cap, calls, j) == Replayed
    ensures exists k | 0 <= k < j :: AdmittedAt(cap, calls, calls[j].jti, k)
                                     && (Forward(calls) ==> calls[j].now < calls[k].now + 3 * GENERATION)
  {
    var k := RememberedWasAdmitted(cap, calls, j, calls[j].jti);
    assert AdmittedAt(cap, calls, calls[j].jti, k);
    RunsKeepBounds(cap, calls, j);
  }

  // ---------------------------------------------------------------- the pruned map

  type Seen = map<string, int>

  /** now.Sub(iat) > Window, with now in nanoseconds and iat in seconds. */
  predicate TooOld(iat: int, instant: int) { instant - iat * SECOND > WINDOW * SECOND }

  /** drift between -Window and Window. */
  predicate Fresh(iat: int, instant: int) {
    -WINDOW * SECOND <= instant - iat * SECOND <= WINDOW * SECOND
  }

  function Pruned(seen: Seen, instant: int): Seen {
    map id | id in seen && !TooOld(seen[id], instant) :: seen[id]
  }

  function SeenAfter(seen: Seen, jti: string, iat: int, instant: int): Seen {
    var p := Pruned(seen, instant);
    if jti in p then p else p[jti := iat]
  }

  class Verifier {
    var seen: Seen

    constructor ()
      ensures seen == map[]
    {
      seen := map[];
    }

    /** Drop the proofs that can no longer be fresh, then keep this one, unless it is there. */
    method Remember(jti: string, iat: int, instant: int) returns (replayed: bool)
      modifies this
      ensures seen == SeenAfter(old(seen), jti, iat, instant)
      ensures replayed <==> jti in Pruned(old(seen), instant)
    {
      var todo := seen.Keys;
      while todo != {}
        invariant todo <= seen.Keys <= old(seen).Keys
        invariant forall id | id in seen :: seen[id] == old(seen)[id]
        invariant forall id | id in old(seen).Keys - todo :: id in seen <==> !TooOld(old(seen)[id], instant)
        invariant forall id | id in todo :: id in seen
      {
        var id :| id in todo;
        if TooOld(seen[id], instant) {
          seen := seen - {id};
        }
        todo := todo - {id};
      }
      assert seen == Pruned(old(seen), instant);
      if jti in seen {
        return true;
      }
      seen := seen[jti := iat];
      return false;
    }
  }

  // ---------------------------------------------------------------- one presentation after another

  /** A proof that passed every other check: its id, its moment, and the instant it was presented. */
  datatype Presentation = Presentation(jti: string, iat: int, instant: Instant)

  /** The door's freshness, on whole seconds. */
  predicate FreshSecond(iat: int, now: int) { -WINDOW <= now - iat <= WINDOW }

  /** The unbounded memory: the ids of all proofs accepted so far, none ever dropped. */
  function Accepted(ps: seq<Presentation>): set<string> {
    if ps == [] then {}
    else
      var last := ps[|ps| - 1];
      Accepted(ps[..|ps| - 1]) + if Fresh(last.iat, last.instant) then {last.jti} else {}
  }

  /** What an unbounded memory says of presentation i. */
  predicate AcceptedAt(ps: seq<Presentation>, i: nat)
    requires i < |ps|
  {
    Fresh(ps[i].iat, ps[i].instant) && ps[i].jti !in Accepted(ps[..i])
  }

  /** The map after the presentations: a stale one never reaches it. */
  function SeenBy(ps: seq<Presentation>): Seen {
    if ps == [] then map[]
    else
      var p, before := ps[|ps| - 1], SeenBy(ps[..|ps| - 1]);
      if Fresh(p.iat, p.instant) then SeenAfter(before, p.jti, p.iat, p.instant) else before
  }

  /** What the pruned map says of presentation i. */
  predicate VerifierAccepts(ps: seq<Presentation>, i: nat)
    requires i < |ps|
  {
    Fresh(ps[i].iat, ps[i].instant) && ps[i].jti !in Pruned(SeenBy(ps[..i]), ps[i].instant)
  }

  function CacheAfter(cap: int, ps: seq<Presentation>): Memory
  {
    if ps == [] then Empty(cap)
    else
      var p, before := ps[|ps| - 1], CacheAfter(cap, ps[..|ps| - 1]);
      if FreshSecond(p.iat, Unix(p.instant)) then After(before, p.jti, Unix(p.instant)) else before
  }

  /** What the cache says of presentation i, when it was fresh enough to reach it. */
  function CacheSays(cap: int, ps: seq<Presentation>, i: nat): Verdict
    requires i < |ps|
  {
    Judged(Turned(CacheAfter(cap, ps[..i]), Unix(ps[i].instant)), ps[i].jti)
  }

  predicate DoorAccepts(cap: int, ps: seq<Presentation>, i: nat)
    requires i < |ps|
  {
    FreshSecond(ps[i].iat, Unix(ps[i].instant)) && CacheSays(cap, ps, i).Admitted?
  }

  predicate ClockGoesForward(ps: seq<Presentation>) {
    forall a, b | 0 <= a < b < |ps| :: ps[a].instant <= ps[b].instant
  }

  /** One id, one moment: a proof is signed over both. */
  predicate OneMoment(ps: seq<Presentation>) {
    forall a, b | 0 <= a < |ps| && 0 <= b < |ps| && ps[a].jti == ps[b].jti :: ps[a].iat == ps[b].iat
  }

  lemma LastOf(ps: seq<Presentation>, i: nat)
    requires i < |ps|
    ensures ps[..i + 1][..i] == ps[..i] && ps[..i + 1][i] == ps[i]
  {
  }

  /** Every accepted proof is still in the map, or can never be fresh again; the map holds nothing else. */
  lemma {:induction false} MapStandsForAll(ps: seq<Presentation>, i: nat)
    requires i <= |ps| && ClockGoesForward(ps) && OneMoment(ps)
    ensures var seen := SeenBy(ps[..i]);
            && seen.Keys <= Accepted(ps[..i])
            && (forall a | i <= a < |ps| && ps[a].jti in Accepted(ps[..i]) ::
                  (ps[a].jti in seen && seen[ps[a].jti] == ps[a].iat) || TooOld(ps[a].iat, ps[a].instant))
  {
    if i > 0 {
      LastOf(ps, i - 1);
      MapStandsForAll(ps, i - 1);
    }
  }

  /** The presentation an entry came from. */
  predicate EntryOf(ps: seq<Presentation>, id: string, iat: int, k: nat) {
    k < |ps| && ps[k].jti == id && ps[k].iat == iat && Fresh(iat, ps[k].instant)
  }

  lemma {:induction false} EntriesWerePresented(ps: seq<Presentation>, i: nat, id: string) returns (k: nat)
    requires i <= |ps| && id in SeenBy(ps[..i])
    ensures k < i && EntryOf(ps, id, SeenBy(ps[..i])[id], k)
  {
    LastOf(ps, i - 1);
    var p := ps[i - 1];
    if !Fresh(p.iat, p.instant) || id in Pruned(SeenBy(ps[..i - 1]), p.instant) {
      k := EntriesWerePresented(ps, i - 1, id);
    } else {
      k := i - 1;
    }
  }

  /** The bound on the map: each entry left by a look at the clock was presented within two windows of it. */
  lemma EntriesLeaveInTwoWindows(ps: seq<Presentation>, i: nat, id: string)
    requires i < |ps| && Fresh(ps[i].iat, ps[i].instant) && id in SeenBy(ps[..i + 1])
    ensures exists k | 0 <= k <= i :: EntryOf(ps, id, SeenBy(ps[..i + 1])[id], k)
                                      && ps[i].instant <= ps[k].instant + 2 * WINDOW * SECOND
  {
    LastOf(ps, i);
    var k := EntriesWerePresented(ps, i + 1, id);
    var iat := SeenBy(ps[..i + 1])[id];
    assert !TooOld(iat, ps[i].instant);
    assert EntryOf(ps, id, iat, k) && ps[i].instant <= ps[k].instant + 2 * WINDOW * SECOND;
  }

  /** The pruned map decides every presentation of a run as an unbounded memory would. */
  lemma PrunedMapIsUnbounded(ps: seq<Presentation>, i: nat)
    requires i < |ps| && ClockGoesForward(ps) && OneMoment(ps)
    ensures VerifierAccepts(ps, i) <==> AcceptedAt(ps, i)
  {
    MapStandsForAll(ps, i);
  }

  // ---------------------------------------------------------------- the generations stand for all

  /** The ids the door has admitted. */
  function Taken(cap: int, ps: seq<Presentation>): set<string>
  {
    if ps == [] then {}
    else
      var n := |ps| - 1;
      Taken(cap, ps[..n]) + if DoorAccepts(cap, ps, n) then {ps[n].jti} else {}
  }

  lemma DoorAcceptsIsLocal(cap: int, ps: seq<Presentation>, i: nat)
    requires i < |ps|
    ensures DoorAccepts(cap, ps[..i + 1], i) == DoorAccepts(cap, ps, i)
    ensures CacheAfter(cap, ps[..i + 1]) ==
            if FreshSecond(ps[i].iat, Unix(ps[i].instant))
            then After(CacheAfter(cap, ps[..i]), ps[i].jti, Unix(ps[i].instant)) else CacheAfter(cap, ps[..i])
    ensures Taken(cap, ps[..i + 1]) == Taken(cap, ps[..i]) + if DoorAccepts(cap, ps, i) then {ps[i].jti} else {}
  {
    LastOf(ps, i);
  }

  /** A proof of moment iat was admitted no earlier than one window before iat, so while it can be fresh it is
      held in one of the two generations. */
  predicate HeldFor(m: Memory, jti: string, iat: int) {
    && m.begun
    && ((jti in m.current && m.started > iat - WINDOW - GENERATION) || (jti in m.previous && m.started > iat - WINDOW))
  }

  lemma HeldForOn(m: Memory, jti: string, iat: int, other: string, now: Int64)
    requires HeldFor(m, jti, iat)
    ensures now > iat + WINDOW
            || (HeldFor(After(m, other, now), jti, iat) && Remembered(Turned(m, now), jti))
  {
  }

  lemma HeldForFirst(m: Memory, jti: string, iat: int, now: Int64)
    requires FreshSecond(iat, now) && Judged(Turned(m, now), jti).Admitted?
    ensures HeldFor(After(m, jti, now), jti, iat)
  {
  }

  lemma LaterSeconds(ps: seq<Presentation>)
    requires ClockGoesForward(ps)
    ensures forall a, b | 0 <= a < b < |ps| :: Unix(ps[a].instant) <= Unix(ps[b].instant)
  {
  }

  predicate Safe(cap: int, ps: seq<Presentation>, i: nat, a: nat)
    requires i <= a < |ps|
  {
    HeldFor(CacheAfter(cap, ps[..i]), ps[a].jti, ps[a].iat) || Unix(ps[a].instant) > ps[a].iat + WINDOW
  }

  lemma {:induction false} GenerationsStandForAll(cap: int, ps: seq<Presentation>, i: nat, a: nat)
    requires i <= a < |ps| && ClockGoesForward(ps) && OneMoment(ps)
    requires ps[a].jti in Taken(cap, ps[..i])
    ensures Safe(cap, ps, i, a)
  {
    DoorAcceptsIsLocal(cap, ps, i - 1);
    LaterSeconds(ps);
    var before, p := CacheAfter(cap, ps[..i - 1]), ps[i - 1];
    if ps[a].jti in Taken(cap, ps[..i - 1]) {
      GenerationsStandForAll(cap, ps, i - 1, a);
      if HeldFor(before, ps[a].jti, ps[a].iat) {
        HeldForOn(before, ps[a].jti, ps[a].iat, p.jti, Unix(p.instant));
      }
    } else {
      HeldForFirst(before, p.jti, p.iat, Unix(p.instant));
    }
  }

  lemma {:induction false} MemoryWasTaken(cap: int, ps: seq<Presentation>, i: nat)
    requires i <= |ps|
    ensures var m := CacheAfter(cap, ps[..i]); m.current + m.previous <= Taken(cap, ps[..i])
  {
    if i > 0 {
      DoorAcceptsIsLocal(cap, ps, i - 1);
      MemoryWasTaken(cap, ps, i - 1);
    }
  }

  /** A fresh presentation is refused as a replay exactly when its id was admitted before in the run: the two
      generations forget nothing that matters. So each proof is admitted at most once. */
  lemma GenerationsAreUnbounded(cap: int, ps: seq<Presentation>, i: nat)
    requires i < |ps| && ClockGoesForward(ps) && OneMoment(ps)
    requires FreshSecond(ps[i].iat, Unix(ps[i].instant))
    ensures CacheSays(cap, ps, i) == Replayed <==> ps[i].jti in Taken(cap, ps[..i])
  {
    MemoryWasTaken(cap, ps, i);
    if ps[i].jti in Taken(cap, ps[..i]) {
      GenerationsStandForAll(cap, ps, i, i);
      HeldForOn(CacheAfter(cap, ps[..i]), ps[i].jti, ps[i].iat, ps[i].jti, Unix(ps[i].instant));
    }
  }

  lemma {:induction false} TakenOnce(cap: int, ps: seq<Presentation>, i: nat, j: nat)
    requires i < j <= |ps| && DoorAccepts(cap, ps, i)
    ensures ps[i].jti in Taken(cap, ps[..j])
  {
    hide Taken, DoorAccepts;
    DoorAcceptsIsLocal(cap, ps, j - 1);
    if i < j - 1 {
      TakenOnce(cap, ps, i, j - 1);
    }
  }

  /** No proof is admitted twice in a run whose clock goes forward, full cache or not. */
  lemma EachProofAdmittedOnce(cap: int, ps: seq<Presentation>, i: nat, j: nat)
    requires i < j < |ps| && ClockGoesForward(ps) && OneMoment(ps)
    requires ps[i].jti == ps[j].jti && DoorAccepts(cap, ps, i)
    ensures !DoorAccepts(cap, ps, j)
  {
    TakenOnce(cap, ps, i, j);
    if DoorAccepts(cap, ps, j) {
      GenerationsAreUnbounded(cap, ps, j);
    }
  }

  // ---------------------------------------------------------------- three memories, one decision

  predicate NeverFull(cap: int, ps: seq<Presentation>) {
    forall i | 0 <= i < |ps| && FreshSecond(ps[i].iat, Unix(ps[i].instant)) :: !CacheSays(cap, ps, i).Full?
  }

  /** A fraction of a second past the window, in the second that ends it. */
  predicate InTheGap(p: Presentation) {
    Unix(p.instant) - p.iat == WINDOW && p.instant % SECOND != 0
  }

  /** The two freshness rules differ there and nowhere else: the door, on whole seconds, is the laxer one. */
  lemma FreshnessDiffersInTheGap(p: Presentation)
    ensures FreshSecond(p.iat, Unix(p.instant)) <==> Fresh(p.iat, p.instant) || InTheGap(p)
    ensures InTheGap(p) ==> !Fresh(p.iat, p.instant)
  {
  }

  /** A presentation in the gap whose id no memory has accepted yet. */
  predicate NewInTheGap(ps: seq<Presentation>, i: nat)
    requires i < |ps|
  {
    InTheGap(ps[i]) && ps[i].jti !in Accepted(ps[..i])
  }

  lemma {:induction false} TakenIsAccepted(cap: int, ps: seq<Presentation>, i: nat)
    requires i <= |ps| && ClockGoesForward(ps) && OneMoment(ps) && NeverFull(cap, ps)
    requires forall k | 0 <= k < i :: !NewInTheGap(ps, k)
    ensures Taken(cap, ps[..i]) == Accepted(ps[..i])
  {
    hide CacheAfter, Turned, Judged;
    if i > 0 {
      TakenIsAccepted(cap, ps, i - 1);
      DoorAcceptsIsLocal(cap, ps, i - 1);
      LastOf(ps, i - 1);
      FreshnessDiffersInTheGap(ps[i - 1]);
      assert !NewInTheGap(ps, i - 1);
      if FreshSecond(ps[i - 1].iat, Unix(ps[i - 1].instant)) {
        GenerationsAreUnbounded(cap, ps, i - 1);
      }
    }
  }

  /** Presentation i, after presentations on which the memories agreed. */
  lemma NextPresentation(cap: int, ps: seq<Presentation>, i: nat)
    requires i < |ps| && ClockGoesForward(ps) && OneMoment(ps) && NeverFull(cap, ps)
    requires forall k | 0 <= k < i :: !NewInTheGap(ps, k)
    ensures VerifierAccepts(ps, i) <==> AcceptedAt(ps, i)
    ensures DoorAccepts(cap, ps, i) <==> AcceptedAt(ps, i) || NewInTheGap(ps, i)
  {
    PrunedMapIsUnbounded(ps, i);
    FreshnessDiffersInTheGap(ps[i]);
    TakenIsAccepted(cap, ps, i);
    if FreshSecond(ps[i].iat, Unix(ps[i].instant)) {
      GenerationsAreUnbounded(cap, ps, i);
    }
  }

  /** The pruned map, the two generations while they are not full, and a memory that forgets nothing decide every
      presentation of a run alike, whatever fractions its clock reads, if and only if the run presents no new id in the
      gap. */
  lemma ThreeMemoriesAgreeExactly(cap: int, ps: seq<Presentation>)
    requires ClockGoesForward(ps) && OneMoment(ps) && NeverFull(cap, ps)
    ensures (forall i | 0 <= i < |ps| ::
               (VerifierAccepts(ps, i) <==> AcceptedAt(ps, i)) && (DoorAccepts(cap, ps, i) <==> AcceptedAt(ps, i)))
            <==> forall i | 0 <= i < |ps| :: !NewInTheGap(ps, i)
    ensures (forall i | 0 <= i < |ps| :: VerifierAccepts(ps, i) <==> DoorAccepts(cap, ps, i))
            <==> forall i | 0 <= i < |ps| :: !NewInTheGap(ps, i)
  {
    if forall i | 0 <= i < |ps| :: !NewInTheGap(ps, i) {
      forall i | 0 <= i < |ps|
        ensures (VerifierAccepts(ps, i) <==> AcceptedAt(ps, i)) && (DoorAccepts(cap, ps, i) <==> AcceptedAt(ps, i))
      {
        NextPresentation(cap, ps, i);
      }
    } else {
      var i := FirstInTheGap(ps);
      NextPresentation(cap, ps, i);
      FreshnessDiffersInTheGap(ps[i]);
    }
  }

  lemma FirstInTheGap(ps: seq<Presentation>) returns (i: nat)
    requires exists i | 0 <= i < |ps| :: NewInTheGap(ps, i)
    ensures i < |ps| && NewInTheGap(ps, i) && forall k | 0 <= k < i :: !NewInTheGap(ps, k)
  {
    i := 0;
    while !NewInTheGap(ps, i)
      invariant i < |ps|
      invariant forall k | 0 <= k < i :: !NewInTheGap(ps, k)
      invariant exists k | i <= k < |ps| :: NewInTheGap(ps, k)
      decreases |ps| - i
    {
      i := i + 1;
    }
  }

  /** A cache with room for every presentation is never full, so there are runs of any length for the theorem. */
  lemma RoomIsNeverFull(cap: int, ps: seq<Presentation>)
    requires |ps| <= cap
    ensures NeverFull(cap, ps)
  {
    forall i | 0 <= i < |ps|
      ensures !CacheSays(cap, ps, i).Full?
    {
      HoldsAtMost(cap, ps, i);
    }
  }

  lemma {:induction false} HoldsAtMost(cap: int, ps: seq<Presentation>, i: nat)
    requires i <= |ps|
    ensures var m := CacheAfter(cap, ps[..i]); |m.current| <= i && m.cap == cap
  {
    if i > 0 {
      DoorAcceptsIsLocal(cap, ps, i - 1);
      HoldsAtMost(cap, ps, i - 1);
    }
  }

  // ---------------------------------------------------------------- the map under any clock

  /** A look at the clock that drops a proof of this moment from the map: a fresh presentation too late for it. */
  predicate DropsAt(ps: seq<Presentation>, k: nat, iat: int)
    requires k < |ps|
  {
    Fresh(ps[k].iat, ps[k].instant) && TooOld(iat, ps[k].instant)
  }

  lemma SeenGrows(ps: seq<Presentation>, k: nat)
    requires k < |ps|
    ensures SeenBy(ps[..k + 1]) ==
            if Fresh(ps[k].iat, ps[k].instant) then SeenAfter(SeenBy(ps[..k]), ps[k].jti, ps[k].iat, ps[k].instant)
            else SeenBy(ps[..k])
  {
    LastOf(ps, k);
  }

  /** Some look between i and j drops it. */
  predicate DroppedBetween(ps: seq<Presentation>, i: nat, j: nat, iat: int)
    requires j <= |ps|
  {
    exists k | i < k < j :: DropsAt(ps, k, iat)
  }

  lemma DroppedSoFar(ps: seq<Presentation>, i: nat, j: nat, iat: int)
    requires i < j < |ps|
    ensures DroppedBetween(ps, i, j + 1, iat) <==> DroppedBetween(ps, i, j, iat) || DropsAt(ps, j, iat)
  {
    if DroppedBetween(ps, i, j, iat) {
      var k :| i < k < j && DropsAt(ps, k, iat);
      assert i < k < j + 1 && DropsAt(ps, k, iat);
    }
  }

  /** One presentation that does not accept this proof. */
  lemma KeptOrDropped(seen: Seen, p: Presentation, jti: string, iat: int)
    requires p.jti == jti ==> !Fresh(p.iat, p.instant) || jti in Pruned(seen, p.instant)
    ensures var now := if Fresh(p.iat, p.instant) then SeenAfter(seen, p.jti, p.iat, p.instant) else seen;
            && (jti !in seen ==> jti !in now)
            && (jti in seen && seen[jti] == iat ==>
                  if Fresh(p.iat, p.instant) && TooOld(iat, p.instant) then jti !in now
                  else jti in now && now[jti] == iat)
  {
  }

  /** From its acceptance on, a proof that is not accepted again is in the map exactly until a look drops it. */
  lemma {:induction false} KeptUntilDropped(ps: seq<Presentation>, i: nat, j: nat)
    requires i < j <= |ps| && VerifierAccepts(ps, i)
    requires forall k | i < k < j :: ps[k].jti == ps[i].jti ==> !VerifierAccepts(ps, k)
    ensures var seen := SeenBy(ps[..j]);
            if DroppedBetween(ps, i, j, ps[i].iat) then ps[i].jti !in seen
            else ps[i].jti in seen && seen[ps[i].jti] == ps[i].iat
  {
    hide SeenBy, DroppedBetween, TooOld, Fresh;
    SeenGrows(ps, j - 1);
    if i < j - 1 {
      KeptUntilDropped(ps, i, j - 1);
      DroppedSoFar(ps, i, j - 1, ps[i].iat);
      KeptOrDropped(SeenBy(ps[..j - 1]), ps[j - 1], ps[i].jti, ps[i].iat);
    } else {
      NoneBetween(ps, i, ps[i].iat);
    }
  }

  lemma NoneBetween(ps: seq<Presentation>, i: nat, iat: int)
    requires i < |ps|
    ensures !DroppedBetween(ps, i, i + 1, iat)
  {
  }

  /** The map under any clock. A proof accepted at i, fresh again at j and not accepted between, is accepted again
      exactly when some fresh presentation between read a clock too late for it: a clock that stepped forward past its
      window and back. */
  lemma MapAcceptsAgainExactly(ps: seq<Presentation>, i: nat, j: nat)
    requires i < j < |ps| && VerifierAccepts(ps, i)
    requires ps[j].jti == ps[i].jti && ps[j].iat == ps[i].iat && Fresh(ps[j].iat, ps[j].instant)
    requires forall k | i < k < j :: ps[k].jti == ps[i].jti ==> !VerifierAccepts(ps, k)
    ensures VerifierAccepts(ps, j) <==> exists k | i < k < j :: DropsAt(ps, k, ps[i].iat)
  {
    KeptUntilDropped(ps, i, j);
  }

  /** Such a run. */
  lemma MapNeedsAForwardClock()
    ensures var ps := [Presentation("a", 0, 0), Presentation("b", 61, 61 * SECOND), Presentation("a", 0, 0)];
            VerifierAccepts(ps, 0) && VerifierAccepts(ps, 2)
  {
    var ps := [Presentation("a", 0, 0), Presentation("b", 61, 61 * SECOND), Presentation("a", 0, 0)];
    assert ps[..0] == [];
    assert DropsAt(ps, 1, 0);
    MapAcceptsAgainExactly(ps, 0, 2);
  }

  /** A run that presents a new id in the gap: the map's owner calls it stale, and the door does not. */
  lemma HalfASecondTellsThemApart()
    ensures var ps := [Presentation("a", 0, 60 * SECOND + SECOND / 2)];
            NewInTheGap(ps, 0) && DoorAccepts(1, ps, 0) && !VerifierAccepts(ps, 0)
  {
    var ps := [Presentation("a", 0, 60 * SECOND + SECOND / 2)];
    assert Unix(ps[0].instant) == 60;
    assert ps[..0] == [];
  }
}
