/** The revocation list held locally, and what its age means. */
module Revocations {
  import opened Wrappers
  import opened Clock

  datatype Revocation = Revocation(jti: string, subject: string, issuedBefore: Int64, expires: Int64)

  datatype Snapshot = Snapshot(revocations: seq<Revocation>, asOf: Int64)

  datatype FailMode = FailClosed | FailOpen

  datatype Basis = Listed | Absent | Stale | Never

  /** age is a duration in nanoseconds, 0 when there was no list. */
  datatype Answer = Answer(revoked: bool, basis: Basis, age: Int64)

  datatype InstallRefusal = NoCursor | CursorWentBackwards

  predicate Covers(e: Revocation, jti: string, subject: string, issuedAt: Int64) {
    (e.jti != "" && e.jti == jti) || (e.subject != "" && e.subject == subject && issuedAt <= e.issuedBefore)
  }

  predicate LiveAt(e: Revocation, now: Instant) { e.expires == 0 || e.expires > Unix(now) }

  predicate Hits(s: Snapshot, jti: string, subject: string, issuedAt: Int64, now: Instant) {
    exists e | e in s.revocations :: LiveAt(e, now) && Covers(e, jti, subject, issuedAt)
  }

  const DEFAULT_MAX_AGE: Int64 := 60 * SECOND

  /** The policy, the list held, our clock when it was installed, and how many lists from behind were refused. */
  datatype Cache = Cache(maxAge: Int64, failMode: FailMode, held: Option<Snapshot>, fetchedAt: Instant, rejected: nat)

  function New(maxAge: Int64, failMode: FailMode): Cache {
    Cache(if maxAge <= 0 then DEFAULT_MAX_AGE else maxAge, failMode, None, 0, 0)
  }

  function InstallFault(c: Cache, s: Snapshot): Option<InstallRefusal> {
    if s.asOf <= 0 then Some(NoCursor)
    else if c.held.Some? && s.asOf < c.held.value.asOf then Some(CursorWentBackwards)
    else None
  }

  /** A refused list changes nothing but the count; an accepted one replaces the list and its age together. */
  function Installed(c: Cache, s: Snapshot, now: Instant): Cache {
    match InstallFault(c, s)
    case None => c.(held := Some(s), fetchedAt := now)
    case Some(CursorWentBackwards) => c.(rejected := (c.rejected + 1) % TWO64)
    case Some(NoCursor) => c
  }

  function Age(c: Cache, now: Instant): Int64 { Clamp(now - c.fetchedAt) }

  function AnswerOf(c: Cache, jti: string, subject: string, issuedAt: Int64, now: Instant): Answer {
    if c.held.None? then Answer(c.failMode.FailClosed?, Never, 0)
    else if Hits(c.held.value, jti, subject, issuedAt, now) then Answer(true, Listed, Age(c, now))
    else if Age(c, now) <= c.maxAge then Answer(false, Absent, Age(c, now))
    else Answer(c.failMode.FailClosed?, Stale, Age(c, now))
  }

  class Revocations {
    var maxAge: Int64
    const failMode: FailMode
    var held: Option<Snapshot>
    var fetchedAt: Instant
    var rejectedBackwards: nat

    ghost function State(): Cache
      reads this
    {
      Cache(maxAge, failMode, held, fetchedAt, rejectedBackwards)
    }

    constructor (maxAge: Int64, failMode: FailMode)
      ensures State() == New(maxAge, failMode)
    {
      this.maxAge := if maxAge <= 0 then DEFAULT_MAX_AGE else maxAge;
      this.failMode := failMode;
      held, fetchedAt, rejectedBackwards := None, 0, 0;
    }

    method SetMaxAge(d: Int64)
      modifies this
      ensures State() == old(State()).(maxAge := d)
    {
      maxAge := d;
    }

    /** Offer a freshly fetched list. */
    method Install(s: Snapshot, now: Instant) returns (fault: Option<InstallRefusal>)
      modifies this
      ensures fault == InstallFault(old(State()), s)
      ensures State() == Installed(old(State()), s, now)
    {
      if s.asOf <= 0 {
        return Some(NoCursor);
      }
      if held.Some? && s.asOf < held.value.asOf {
        rejectedBackwards := (rejectedBackwards + 1) % TWO64;
        return Some(CursorWentBackwards);
      }
      held := Some(s);
      fetchedAt := now;
      return None;
    }

    /** Whether a token is revoked, and on what basis. */
    method Check(jti: string, subject: string, issuedAt: Int64, now: Instant) returns (a: Answer)
      ensures a == AnswerOf(State(), jti, subject, issuedAt, now)
    {
      if held.None? {
        return Answer(failMode.FailClosed?, Never, 0);
      }
      var age := Clamp(now - fetchedAt);
      var list := held.value.revocations;
      for i := 0 to |list|
        invariant forall k | 0 <= k < i :: !(LiveAt(list[k], now) && Covers(list[k], jti, subject, issuedAt))
      {
        if LiveAt(list[i], now) && Covers(list[i], jti, subject, issuedAt) {
          assert list[i] in held.value.revocations;
          return Answer(true, Listed, age);
        }
      }
      if age <= maxAge {
        return Answer(false, Absent, age);
      }
      return Answer(failMode.FailClosed?, Stale, age);
    }
  }

  // ---------------------------------------------------------------- what an answer means

  /** Who an entry reaches: the token it names, whoever carries it; the subject it names, in tokens issued up to and at
      its second; and an entry that names neither, nobody. It lasts to the nanosecond its second begins, or for good. */
  lemma ReachOfAnEntry(e: Revocation, jti: string, subject: string, issuedAt: Int64, now: Instant)
    ensures e.jti == "" && e.subject == "" ==> !Covers(e, jti, subject, issuedAt)
    ensures jti != "" && e.jti == jti ==> Covers(e, jti, subject, issuedAt)
    ensures e.jti != jti ==>
              (Covers(e, jti, subject, issuedAt) <==>
                 subject != "" && e.subject == subject && issuedAt < e.issuedBefore + 1)
    ensures LiveAt(e, now) <==> e.expires == 0 || now < e.expires * SECOND
  {
  }

  /** The basis says which of four cases it was: never a list, a hit at any age, a young list, an old one. */
  lemma BasisMeaning(c: Cache, jti: string, subject: string, issuedAt: Int64, now: Instant)
    ensures var a, hit := AnswerOf(c, jti, subject, issuedAt, now),
                exists e :: c.held.Some? && e in c.held.value.revocations && LiveAt(e, now)
                            && Covers(e, jti, subject, issuedAt);
            && (a.basis == Never <==> c.held.None?) && (a.basis == Listed <==> hit)
            && (a.basis == Basis.Absent <==> c.held.Some? && !hit && Age(c, now) <= c.maxAge)
            && (a.basis == Basis.Stale <==> c.held.Some? && !hit && Age(c, now) > c.maxAge)
            && (a.revoked <==> hit || (c.failMode.FailClosed? && a.basis in {Never, Stale}))
            && a.age == if c.held.Some? then Age(c, now) else 0
  {
  }

  /** Not revoked, under a closed fail mode, says exactly this: a list is held, it is young enough, and nothing live
      in it covers the token. */
  lemma ClosedMeansKnown(c: Cache, jti: string, subject: string, issuedAt: Int64, now: Instant)
    requires c.failMode.FailClosed?
    ensures !AnswerOf(c, jti, subject, issuedAt, now).revoked
            <==> c.held.Some? && Age(c, now) <= c.maxAge && !Hits(c.held.value, jti, subject, issuedAt, now)
  {
  }

  /** An open fail mode refuses exactly what is listed. */
  lemma OpenMeansListed(c: Cache, jti: string, subject: string, issuedAt: Int64, now: Instant)
    requires c.failMode.FailOpen?
    ensures AnswerOf(c, jti, subject, issuedAt, now).revoked
            <==> c.held.Some? && Hits(c.held.value, jti, subject, issuedAt, now)
  {
  }

  /** A live covering entry answers revoked whatever the age, the policy and every list refused since. */
  lemma AHitDoesNotRot(c: Cache, ops: seq<Op>, jti: string, subject: string, issuedAt: Int64, now: Instant)
    requires c.held.Some? && Hits(c.held.value, jti, subject, issuedAt, now)
    requires forall o | o in ops && o.Offer? :: o.list.asOf < c.held.value.asOf
    ensures AnswerOf(RunFrom(c, ops), jti, subject, issuedAt, now).revoked
    ensures AnswerOf(RunFrom(c, ops), jti, subject, issuedAt, now).basis == Listed
  {
    RefusedKeepTheList(c, ops);
  }

  // ---------------------------------------------------------------- runs

  datatype Op = Offer(list: Snapshot, now: Instant) | SetMaxAge(d: Int64)

  function Step(c: Cache, op: Op): Cache {
    match op
    case Offer(list, now) => Installed(c, list, now)
    case SetMaxAge(d) => c.(maxAge := d)
  }

  function RunFrom(c: Cache, ops: seq<Op>): Cache {
    if ops == [] then c else Step(RunFrom(c, ops[..|ops| - 1]), ops[|ops| - 1])
  }

  lemma {:induction false} RefusedKeepTheList(c: Cache, ops: seq<Op>)
    requires c.held.Some?
    requires forall o | o in ops && o.Offer? :: o.list.asOf < c.held.value.asOf
    ensures RunFrom(c, ops).held == c.held && RunFrom(c, ops).fetchedAt == c.fetchedAt
  {
    if ops != [] {
      RefusedKeepTheList(c, ops[..|ops| - 1]);
      assert ops[|ops| - 1] in ops;
    }
  }

  /** The cursor a step offers, 0 for none: a list without a positive cursor offers none. */
  function Cursor(op: Op): (k: int)
    ensures k >= 0
  {
    if op.Offer? && op.list.asOf > 0 then op.list.asOf else 0
  }

  /** Step k offered the greatest cursor of the run, and no step after it offered as great a one. */
  predicate LastGreatest(ops: seq<Op>, k: nat) {
    && k < |ops| && Cursor(ops[k]) > 0
    && (forall j | 0 <= j < |ops| :: Cursor(ops[j]) <= Cursor(ops[k]))
    && (forall j | k < j < |ops| :: Cursor(ops[j]) < Cursor(ops[k]))
  }

  /** A list from behind one already offered. */
  predicate FromBehind(ops: seq<Op>, j: nat)
    requires j < |ops|
  {
    Cursor(ops[j]) > 0 && exists i | 0 <= i < j :: Cursor(ops[i]) > Cursor(ops[j])
  }

  function CountBehind(ops: seq<Op>): nat {
    if ops == [] then 0
    else CountBehind(ops[..|ops| - 1]) + if FromBehind(ops, |ops| - 1) then 1 else 0
  }

  /** Nothing is held when no cursor was offered; else what is held came with step k. */
  predicate HeldFrom(c: Cache, ops: seq<Op>, k: nat) {
    c.held.Some? && LastGreatest(ops, k) && ops[k] == Offer(c.held.value, c.fetchedAt)
  }

  predicate NoneOffered(ops: seq<Op>) { forall j | 0 <= j < |ops| :: Cursor(ops[j]) == 0 }

  ghost predicate HeldRight(c: Cache, ops: seq<Op>) {
    if c.held.None? then NoneOffered(ops) else exists k: nat :: HeldFrom(c, ops, k)
  }

  lemma HeldStep(c: Cache, ops: seq<Op>, op: Op)
    requires HeldRight(c, ops)
    ensures HeldRight(Step(c, op), ops + [op])
    ensures FromBehind(ops + [op], |ops|) <==> op.Offer? && InstallFault(c, op.list) == Some(CursorWentBackwards)
  {
    var all, n := ops + [op], |ops|;
    assert forall j | 0 <= j < n :: Cursor(all[j]) == Cursor(ops[j]);
    assert all[n] == op;
    if c.held.Some? {
      var k: nat :| HeldFrom(c, ops, k);
      assert Cursor(all[k]) == c.held.value.asOf;
      if Cursor(op) >= Cursor(ops[k]) {
        assert HeldFrom(Step(c, op), all, n);
      } else {
        assert HeldFrom(Step(c, op), all, k);
      }
    } else if Cursor(op) > 0 {
      assert HeldFrom(Step(c, op), all, n);
    }
  }

  lemma CountStep(c: Cache, n: nat, op: Op)
    requires c.rejected == n % TWO64
    ensures Step(c, op).rejected ==
            (n + if op.Offer? && InstallFault(c, op.list) == Some(CursorWentBackwards) then 1 else 0) % TWO64
    ensures Step(c, op).failMode == c.failMode
  {
  }

  lemma HeldMeaning(c: Cache, ops: seq<Op>)
    requires HeldRight(c, ops)
    ensures c.held.None? <==> NoneOffered(ops)
  {
    if c.held.Some? {
      var k: nat :| HeldFrom(c, ops, k);
      assert Cursor(ops[k]) > 0;
    }
  }

  /** Over any run: nothing is held exactly when no cursor was ever offered; what is held, and its age, are those of
      the last offer of the greatest cursor; and the count is the number of lists offered from behind, in 64 bits. */
  lemma {:induction false} HeldIsTheGreatest(maxAge: Int64, failMode: FailMode, ops: seq<Op>)
    ensures var c := RunFrom(New(maxAge, failMode), ops);
            && (c.held.None? <==> NoneOffered(ops))
            && HeldRight(c, ops)
            && c.rejected == CountBehind(ops) % TWO64
            && c.failMode == failMode
  {
    hide Step, FromBehind, HeldFrom;
    if ops != [] {
      var n := |ops| - 1;
      var before := RunFrom(New(maxAge, failMode), ops[..n]);
      HeldIsTheGreatest(maxAge, failMode, ops[..n]);
      assert ops[..n] + [ops[n]] == ops;
      HeldStep(before, ops[..n], ops[n]);
      CountStep(before, CountBehind(ops[..n]), ops[n]);
    }
    HeldMeaning(RunFrom(New(maxAge, failMode), ops), ops);
  }
}
