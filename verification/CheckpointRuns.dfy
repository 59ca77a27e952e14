/** Whole runs of one sidecar writer beside a growing stream: opens, writes, closes, failed appends, failed scans,
    and a process that dies at any byte of a record. */
module CheckpointRuns {
  import opened Bytes
  import opened Wrappers
  import opened Wire
  import opened Scan
  import opened Record
  import opened Checkpoints
  import opened CheckpointState
  import Writer

  /** How many bytes too many the hash was fed for the lines before off: as it runs, and in the state kept at off. */
  datatype Drift = Drift(now: nat, kept: nat)

  /** One record of the sidecar, the bytes its prefix was hashed from, and how many of them were too many. */
  datatype Entry = Entry(record: Record, hashed: Bytes, drift: nat)

  /** When this writer last wrote a record, or opened: the complete lines of the stream then, and the clock. */
  datatype Mark = Mark(lines: nat, clock: int)

  /** The stream, the sidecar and its writer, with the history a reader of the files cannot see. */
  datatype Sys = Sys(stream: Bytes, side: Bytes, ck: Option<Ck>, drift: Drift, log: seq<Entry>, mark: Mark)

  datatype Act =
    | Grow(more: Bytes)        // anybody appends anything to the stream
    | Open(m: Moment)
    | After(m: Moment)         // afterAppend
    | Close(m: Moment)
    | Die                      // the process is gone
    | DieIn(op: Act, k: nat)   // the process dies with k bytes of the record it was writing on disk
    | Fault(n: nat)            // a scan of the stream fails after hashing n bytes

  // ---------------------------------------------------------------- one step

  /** A scan that fails feeds the hash and moves nothing else. */
  function Faulted(d: Drift, fed: nat): Drift { Drift(d.now + fed, d.kept) }

  /** A scan that ends keeps what the hash was fed too many, unless it saw a fragment and no complete line: then
      settle goes back to the state kept at off. */
  function Rescanned(d: Drift, rest: Bytes): Drift {
    if rest == [] then d
    else if Lines(rest) == [] then Drift(d.kept, d.kept)
    else Drift(d.now, d.now)
  }

  /** A scan that fails after n bytes. */
  function FaultAt(s: Sys, c: Ck, n: nat): Sys {
    s.(ck := Some(Drifted(c, s.stream, n)), drift := Faulted(s.drift, |Fed(Rest(c, s.stream), n)|))
  }

  /** The history of a sidecar that grew by a record, or did not. */
  function Noted(log: seq<Entry>, base: Bytes, side: Bytes, rec: Option<Record>, hashed: Bytes, drift: nat)
    : seq<Entry>
  {
    if side == base || rec.None? then log else log + [Entry(rec.value, hashed, drift)]
  }

  /** The record that names a line of the stream. */
  function RecordOf(w: Wire, n: Notary, cfg: Config, c: Ck, kind: string, count: int, head: string, hashed: Bytes,
                    m: Moment): Option<Record>
  {
    RecordFor(n, FieldsFor(cfg, c, kind, count, head, Sha(w, hashed), m.at), m.signer)
  }

  /** The resume record of an open. */
  function ResumeOf(w: Wire, n: Notary, cfg: Config, side: Bytes, stream: Bytes, m: Moment): Option<Record> {
    var k := LastGood(w, Lines(stream));
    if k == 0 then None
    else RecordOf(w, n, cfg, FullRead(w, side, stream, m), RESUME, k, HeadAt(w, stream, k), Through(stream, k), m)
  }

  /** The complete records an open leaves. */
  function Kept(side: Bytes): Bytes { if SidecarFits(side) then Whole(side) else side }

  function Next(w: Wire, n: Notary, cfg: Config, s: Sys, a: Act): Sys
    decreases a
  {
    match a
    case Grow(more) => s.(stream := s.stream + more)
    case Open(m) =>
      if s.ck.Some? then s
      else
        var o := Opened(w, n, cfg, s.side, s.stream, m);
        Sys(s.stream, o.side, if o.ok then Some(o.ck) else None, Drift(0, 0),
            Noted(s.log, Kept(s.side), o.side, ResumeOf(w, n, cfg, s.side, s.stream, m),
                  Through(s.stream, LastGood(w, Lines(s.stream))), 0),
            Mark(|Lines(s.stream)|, if o.side == Kept(s.side) then m.due else m.now))
    case After(m) =>
      if s.ck.None? then s
      else if !AllHashable(w, Rest(s.ck.value, s.stream)) then
        FaultAt(s, s.ck.value, ScanReach(w, Rest(s.ck.value, s.stream)))
      else
        var o := AfterAppended(w, n, cfg, s.ck.value, s.side, s.stream, m);
        var d := Rescanned(s.drift, Rest(s.ck.value, s.stream));
        var rec := RecordOf(w, n, cfg, s.ck.value, CHECKPOINT, o.ck.count, o.ck.head, o.ck.sum, m);
        Sys(s.stream, o.side, Some(o.ck), d, Noted(s.log, s.side, o.side, rec, o.ck.sum, d.now),
            if o.side == s.side then s.mark else Mark(|Lines(s.stream)|, m.now))
    case Close(m) =>
      if s.ck.None? then s
      else if !AllHashable(w, Rest(s.ck.value, s.stream)) then s.(ck := None)
      else
        var o := Closed(w, n, cfg, s.ck.value, s.side, s.stream, m);
        var d := Rescanned(s.drift, Rest(s.ck.value, s.stream));
        var rec := RecordOf(w, n, cfg, s.ck.value, CLOSE_KIND, o.ck.count, o.ck.head, o.ck.sum, m);
        Sys(s.stream, o.side, None, d, Noted(s.log, s.side, o.side, rec, o.ck.sum, d.now), s.mark)
    case Die => s.(ck := None)
    case DieIn(op, k) =>
      var base := if op.Open? && s.ck.None? then Kept(s.side) else s.side;
      var t := Next(w, n, cfg, s, op);
      if op.DieIn? || op.Grow? || !(base <= t.side) then s.(ck := None)
      else
        s.(side := base + Writer.Partial(t.side[|base|..], k), ck := None,
           log := if k < |t.side| - |base| then s.log else t.log)
    case Fault(k) =>
      if s.ck.None? then s else FaultAt(s, s.ck.value, k)
  }

  function Run(w: Wire, n: Notary, cfg: Config, s: Sys, acts: seq<Act>): Sys
    decreases |acts|
  {
    if acts == [] then s
    else Next(w, n, cfg, Run(w, n, cfg, s, acts[..|acts| - 1]), acts[|acts| - 1])
  }

  const START := Sys([], [], None, Drift(0, 0), [], Mark(0, 0))

  // ---------------------------------------------------------------- what the runs must grant

  /** A signer whose signatures the verifier's key for its kid accepts. */
  ghost predicate Honest(n: Notary, keys: map<string, Key>, s: Signer) {
    forall input: Bytes :: Sign(s, input).Signature? && |Sign(s, input).sig| == 64 ==>
      s.kid in keys && Verifies(n, keys[s.kid], input, Sign(s, input).sig)
  }

  ghost predicate GoodMoment(n: Notary, keys: map<string, Key>, m: Moment) {
    IsTimestamp(m.at) && Honest(n, keys, m.signer)
  }

  /** Every record of a run is written at a good moment. Scans may fail. */
  ghost predicate GoodAct(n: Notary, keys: map<string, Key>, a: Act)
    decreases a
  {
    match a
    case Open(m) => GoodMoment(n, keys, m)
    case After(m) => GoodMoment(n, keys, m)
    case Close(m) => GoodMoment(n, keys, m)
    case DieIn(op, _) => GoodAct(n, keys, op)
    case _ => true
  }

  ghost predicate GoodActs(n: Notary, keys: map<string, Key>, acts: seq<Act>) {
    forall i | 0 <= i < |acts| :: GoodAct(n, keys, acts[i])
  }

  /** A record within format v1: what a writer may put in a sidecar. */
  ghost predicate Plain(r: Record, name: string, keys: map<string, Key>) {
    var f := r.fields;
    && (f.kind == CHECKPOINT || f.kind == CLOSE_KIND || f.kind == RESUME)
    && f.stream == name && 1 <= f.count <= MAX_COUNT
    && IsHashText(f.head) && IsHashText(f.prefix) && IsHashText(f.prev) && IsTimestamp(f.at)
    && (r.Signed? ==> r.kid in keys && |r.sig| == 64)
  }

  /** Records of this stream, under these keys, are within the record cap. */
  ghost predicate RecordsFit(n: Notary, name: string, keys: map<string, Key>) {
    forall r: Record :: Plain(r, name, keys) ==> |Encode(n, r)| <= RECORD_CAP
  }

  /** The signer signs and the sidecar takes a record. */
  ghost predicate Signs(m: Moment) {
    && m.accepts > RECORD_CAP
    && forall input: Bytes :: Sign(m.signer, input).Signature? && |Sign(m.signer, input).sig| == 64
  }

  ghost predicate Granted(w: Wire, n: Notary, name: string, keys: map<string, Key>) {
    Lawful(w) && NotaryLaws(n) && RecordsFit(n, name, keys)
  }

  // ---------------------------------------------------------------- the invariant

  /** These bytes are p, or longer than p by so many. */
  ghost predicate Holding(sum: Bytes, extra: nat, p: Bytes) {
    |sum| == |p| + extra && (extra == 0 ==> sum == p)
  }

  /** The writer's state is that of a full rescan up to off, but for what its hash was fed too many. */
  ghost predicate Placed(w: Wire, c: Ck, d: Drift, stream: Bytes) {
    && c.off <= |stream|
    && var p := stream[..c.off];
    && EndsLine(p) && c.count == |Lines(p)| && c.head == LastHead(w, p)
    && Holding(c.sum, d.now, p)
    && (c.last.None? <==> c.off == 0)
    && Holding(if c.last.Some? then c.last.value else [], d.kept, p)
  }

  /** It chains from the sidecar's last record. */
  ghost predicate InStep(w: Wire, c: Ck, side: Bytes) {
    Fragment(side) == [] && c.size == |side| && c.prev == SidecarPrev(w, side)
  }

  /** A line of the sidecar is a record that says the truth about the stream, but for a hash that had drifted. */
  ghost predicate Right(w: Wire, n: Notary, name: string, keys: map<string, Key>, stream: Bytes, raw: Bytes,
                        prev: string, e: Entry)
  {
    var r, f := e.record, e.record.fields;
    && raw == Encode(n, r) && raw != [] && |raw| <= RECORD_CAP && Plain(r, name, keys)
    && f.count <= |Lines(stream)| && f.head == HeadAt(w, stream, f.count)
    && f.prefix == HashText(Sha(w, e.hashed)) && Holding(e.hashed, e.drift, Through(stream, f.count))
    && f.prev == prev
    && (r.Signed? ==> Verifies(n, keys[r.kid], SigningInput(n, f, r.kid), r.sig))
    && (f.kind == RESUME ==> ResumesAt(w, stream, f.count) && e.drift == 0)
  }

  /** Line k is an event and the complete line after it is not. */
  ghost predicate ResumesAt(w: Wire, stream: Bytes, k: int) {
    1 <= k < |Lines(stream)| && HeadAt(w, stream, k) != "" && HeadAt(w, stream, k + 1) == ""
  }

  /** The prev of line i of a sidecar. */
  function PrevAt(w: Wire, lines: seq<Bytes>, i: nat): string
    requires i <= |lines|
  {
    if i == 0 then Genesis() else PrevAfter(w, lines[i - 1])
  }

  /** The history accounts for the sidecar, record by record. */
  ghost predicate Logged(w: Wire, n: Notary, name: string, keys: map<string, Key>, stream: Bytes, lines: seq<Bytes>,
                         log: seq<Entry>)
  {
    && |lines| == |log|
    && forall i | 0 <= i < |lines| ::
         Right(w, n, name, keys, stream, lines[i], PrevAt(w, lines, i), log[i])
  }

  ghost predicate Inv(w: Wire, n: Notary, cfg: Config, keys: map<string, Key>, s: Sys) {
    && Logged(w, n, cfg.name, keys, s.stream, Lines(s.side), s.log)
    && (s.ck.Some? ==> Placed(w, s.ck.value, s.drift, s.stream) && InStep(w, s.ck.value, s.side))
  }

  // ---------------------------------------------------------------- one record more

  lemma PrevIsHashText(w: Wire, side: Bytes)
    requires Lawful(w)
    ensures IsHashText(SidecarPrev(w, side))
  {
    hide Lines, HashText, IsHashText;
    GenesisForm();
    if Lines(side) != [] {
      HashTextForm(Sha(w, Lines(side)[|Lines(side)| - 1]));
    }
  }

  lemma GenesisForm()
    ensures IsHashText(Genesis())
  {
  }

  lemma PrevIsLast(w: Wire, side: Bytes)
    ensures PrevAt(w, Lines(side), |Lines(side)|) == SidecarPrev(w, side)
  {
    hide Lines, PrevAfter;
  }

  /** One right record more keeps the history. */
  lemma LogGrows(w: Wire, n: Notary, name: string, keys: map<string, Key>, stream: Bytes, lines: seq<Bytes>,
                 log: seq<Entry>, raw: Bytes, e: Entry)
    requires Logged(w, n, name, keys, stream, lines, log)
    requires Right(w, n, name, keys, stream, raw, PrevAt(w, lines, |lines|), e)
    ensures Logged(w, n, name, keys, stream, lines + [raw], log + [e])
  {
    hide Right, PrevAt;
    var ls, lg := lines + [raw], log + [e];
    forall i | 0 <= i < |ls|
      ensures Right(w, n, name, keys, stream, ls[i], PrevAt(w, ls, i), lg[i])
    {
      PrevAtPrefix(w, lines, raw, i);
      if i < |lines| {
        assert ls[i] == lines[i] && lg[i] == log[i];
        assert Right(w, n, name, keys, stream, lines[i], PrevAt(w, lines, i), log[i]);
      }
    }
  }

  lemma PrevAtPrefix(w: Wire, lines: seq<Bytes>, raw: Bytes, i: nat)
    requires i <= |lines|
    ensures PrevAt(w, lines + [raw], i) == PrevAt(w, lines, i)
  {
    hide PrevAfter;
  }

  /** What is right of a stream is right of every extension. */
  lemma RightGrows(w: Wire, n: Notary, name: string, keys: map<string, Key>, stream: Bytes, more: Bytes, raw: Bytes,
                   prev: string, e: Entry)
    requires Right(w, n, name, keys, stream, raw, prev, e)
    ensures Right(w, n, name, keys, stream + more, raw, prev, e)
  {
    hide Lines, HeadAt, Through, Holding, HashText, IsHashText, IsTimestamp;
    var k := e.record.fields.count;
    LineStable(w, stream, more, k);
    ThroughStable(stream, more, k);
    if e.record.fields.kind == RESUME {
      LineStable(w, stream, more, k + 1);
    }
  }

  lemma LogStable(w: Wire, n: Notary, name: string, keys: map<string, Key>, stream: Bytes, more: Bytes,
                  lines: seq<Bytes>, log: seq<Entry>)
    requires Logged(w, n, name, keys, stream, lines, log)
    ensures Logged(w, n, name, keys, stream + more, lines, log)
  {
    hide Right, PrevAt;
    forall i | 0 <= i < |lines|
      ensures Right(w, n, name, keys, stream + more, lines[i], PrevAt(w, lines, i), log[i])
    {
      RightGrows(w, n, name, keys, stream, more, lines[i], PrevAt(w, lines, i), log[i]);
    }
  }

  lemma LogFits(w: Wire, n: Notary, name: string, keys: map<string, Key>, stream: Bytes, side: Bytes, log: seq<Entry>)
    requires Logged(w, n, name, keys, stream, Lines(side), log)
    ensures SidecarFits(side) && Kept(side) == Whole(side)
    ensures forall i | 0 <= i < |Lines(side)| :: Lines(side)[i] != []
  {
    hide Lines, Join, Plain, Holding, HashText, HeadAt, Through, PrevAt;
    forall i | 0 <= i < |Lines(side)|
      ensures |Lines(side)[i]| <= RECORD_CAP && Lines(side)[i] != []
    {
      assert Right(w, n, name, keys, stream, Lines(side)[i], PrevAt(w, Lines(side), i), log[i]);
    }
  }

  // ---------------------------------------------------------------- writeRecord

  /** A record a writer in step may write: what it names is in the stream, but for a hash that had drifted. */
  ghost predicate Names(w: Wire, stream: Bytes, kind: string, count: int, head: string,
                        hashed: Bytes, drift: nat)
  {
    && (kind == CHECKPOINT || kind == CLOSE_KIND || kind == RESUME)
    && 1 <= count <= |Lines(stream)| <= MAX_COUNT
    && head != "" && head == HeadAt(w, stream, count)
    && Holding(hashed, drift, Through(stream, count))
    && (kind == RESUME ==> ResumesAt(w, stream, count) && drift == 0)
  }

  lemma RecordIsRight(w: Wire, n: Notary, cfg: Config, keys: map<string, Key>, stream: Bytes, c: Ck,
                      kind: string, count: int, head: string, hashed: Bytes, drift: nat, m: Moment)
    requires Granted(w, n, cfg.name, keys) && GoodMoment(n, keys, m)
    requires Names(w, stream, kind, count, head, hashed, drift) && IsHashText(c.prev)
    ensures var rec := RecordOf(w, n, cfg, c, kind, count, head, hashed, m);
            rec.Some? ==>
              Right(w, n, cfg.name, keys, stream, Encode(n, rec.value), c.prev, Entry(rec.value, hashed, drift))
  {
    hide Lines, HeadAt, Through, IsHashText, HashText, IsTimestamp, Holding;
    HeadTexts(w, stream, count);
    HashTextForm(Sha(w, hashed));
    var rec := RecordOf(w, n, cfg, c, kind, count, head, hashed, m);
    if rec.Some? {
      EncodedIsLine(n, rec.value);
      assert Plain(rec.value, cfg.name, keys);
    }
  }

  lemma EncodedIsLine(n: Notary, r: Record)
    requires NotaryLaws(n)
    ensures Encode(n, r) != [] && NoLF(Encode(n, r))
  {
  }

  /** A torn record is not a record: it changes no line of the sidecar. */
  lemma TornKeepsRecords(side: Bytes, raw: Bytes, k: nat)
    requires Fragment(side) == [] && NoLF(raw) && k <= |raw|
    ensures Lines(side + (raw + [LF])[..k]) == Lines(side)
  {
    hide Lines, Fragment;
    assert (raw + [LF])[..k] == raw[..k];
    SplitGrow(side, raw[..k]);
  }

  lemma WholeRecord(w: Wire, side: Bytes, raw: Bytes)
    requires Fragment(side) == [] && NoLF(raw) && raw != []
    ensures var now := side + (raw + [LF]);
            Lines(now) == Lines(side) + [raw] && Fragment(now) == [] && SidecarPrev(w, now) == HashText(Sha(w, raw))
  {
    hide Lines, Fragment, HashText;
    SplitClose(side, raw);
    assert [] + raw == raw;
  }

  /** An operation kept the history, and would have had the process died at any byte of its write. */
  ghost predicate Survives(w: Wire, n: Notary, name: string, keys: map<string, Key>, stream: Bytes,
                           base: Bytes, log: seq<Entry>, side: Bytes, now: seq<Entry>)
  {
    && base <= side
    && Logged(w, n, name, keys, stream, Lines(side), now)
    && forall k: nat :: Logged(w, n, name, keys, stream, Lines(base + Writer.Partial(side[|base|..], k)),
                               if k < |side| - |base| then log else now)
  }

  /** An operation that wrote nothing. */
  lemma NothingWritten(w: Wire, n: Notary, name: string, keys: map<string, Key>, stream: Bytes, side: Bytes,
                       log: seq<Entry>)
    requires Logged(w, n, name, keys, stream, Lines(side), log)
    ensures Survives(w, n, name, keys, stream, side, log, side, log)
  {
    hide Logged, Lines;
    assert forall k: nat :: Writer.Partial(side[|side|..], k) == [];
    assert side + [] == side;
  }

  /** A whole record that is right. */
  lemma RecordSurvives(w: Wire, n: Notary, name: string, keys: map<string, Key>, stream: Bytes, side: Bytes,
                       log: seq<Entry>, raw: Bytes, e: Entry)
    requires Fragment(side) == [] && NoLF(raw)
    requires Logged(w, n, name, keys, stream, Lines(side), log)
    requires Logged(w, n, name, keys, stream, Lines(side + (raw + [LF])), log + [e])
    ensures Survives(w, n, name, keys, stream, side, log, side + (raw + [LF]), log + [e])
  {
    hide Logged, Lines, Fragment;
    var line := raw + [LF];
    assert (side + line)[|side|..] == line;
    forall k: nat
      ensures Logged(w, n, name, keys, stream, Lines(side + Writer.Partial(line, k)),
                     if k < |line| then log else log + [e])
    {
      if k < |line| {
        TornKeepsRecords(side, raw, k);
      } else {
        assert Writer.Partial(line, k) == line;
      }
    }
  }

  /** writeRecord by a writer in step, whatever the sidecar accepts of it: one whole record that is right, or none. */
  lemma WrittenSurvives(w: Wire, n: Notary, cfg: Config, keys: map<string, Key>, stream: Bytes, side: Bytes,
                        log: seq<Entry>, c: Ck, kind: string, count: int, head: string, hashed: Bytes, drift: nat,
                        m: Moment)
    requires Granted(w, n, cfg.name, keys) && GoodMoment(n, keys, m)
    requires Logged(w, n, cfg.name, keys, stream, Lines(side), log) && InStep(w, c, side)
    requires Names(w, stream, kind, count, head, hashed, drift)
    ensures var o := Written(w, n, cfg, c, side, kind, count, head, Sha(w, hashed), m);
            var rec := RecordOf(w, n, cfg, c, kind, count, head, hashed, m);
            && Survives(w, n, cfg.name, keys, stream, side, log, o.side, Noted(log, side, o.side, rec, hashed, drift))
            && InStep(w, o.ck, o.side)
            && o.ck == c.(size := o.ck.size, prev := o.ck.prev, lastAt := o.ck.lastAt, pending := o.ck.pending)
  {
    hide Lines, Fragment, Logged, Names, HashText, RecordsFit, GoodMoment, SidecarPrev, Right, Survives, FieldsFor,
      PrevAt;
    var o := Written(w, n, cfg, c, side, kind, count, head, Sha(w, hashed), m);
    var rec := RecordOf(w, n, cfg, c, kind, count, head, hashed, m);
    PrevIsHashText(w, side);
    PrevIsLast(w, side);
    RecordIsRight(w, n, cfg, keys, stream, c, kind, count, head, hashed, drift, m);
    NothingWritten(w, n, cfg.name, keys, stream, side, log);
    if rec.Some? && m.accepts >= |RecordBytes(n, rec.value)| {
      var raw, e := Encode(n, rec.value), Entry(rec.value, hashed, drift);
      EncodedIsLine(n, rec.value);
      WholeRecord(w, side, raw);
      LogGrows(w, n, cfg.name, keys, stream, Lines(side), log, raw, e);
      RecordSurvives(w, n, cfg.name, keys, stream, side, log, raw, e);
      assert |o.side| > |side|;
    } else {
      if rec.Some? { assert (side + RecordBytes(n, rec.value)[..m.accepts])[..|side|] == side; }
      assert o.side == side;
    }
  }

  // ---------------------------------------------------------------- the scan

  /** A writer that hashed the stream in full. */
  lemma UpToIsPlaced(w: Wire, c: Ck, stream: Bytes)
    requires UpTo(w, c, stream)
    ensures Placed(w, c, Drift(0, 0), stream)
  {
    hide Lines, Fragment, Join, LastHead;
    var p := stream[..c.off];
    EndsLineMeaning(p);
    WholeOfWhole(p);
  }

  /** What a scan of the rest does to the hash and to the state kept at off. */
  lemma HashMoves(w: Wire, c: Ck, d: Drift, p: Bytes, rest: Bytes)
    requires c.off == |p| && Holding(c.sum, d.now, p)
    requires (c.last.None? <==> c.off == 0) && Holding(if c.last.Some? then c.last.value else [], d.kept, p)
    ensures var a, r := Advanced(w, c, p + rest), Rescanned(d, rest);
            && a.off == |p + Whole(rest)| && a.count == c.count + |Lines(rest)|
            && a.head == (if Lines(rest) == [] then c.head else LastHead(w, rest))
            && Holding(a.sum, r.now, p + Whole(rest))
            && (a.last.None? <==> a.off == 0)
            && Holding(if a.last.Some? then a.last.value else [], r.kept, p + Whole(rest))
  {
    hide Lines, Fragment, Whole, LastHead;
    NothingHashed(w);
    WholeOfWhole(rest);
    assert (p + rest)[c.off..] == rest;
    assert c.sum + [] == c.sum && p + [] == p;
  }

  /** A scan that ends: the fields are those of a full rescan, but for what the hash holds too many. */
  lemma AdvancePlaced(w: Wire, c: Ck, d: Drift, stream: Bytes)
    requires Placed(w, c, d, stream)
    ensures var a, r := Advanced(w, c, stream), Rescanned(d, Rest(c, stream));
            && Placed(w, a, r, stream)
            && a.count == |Lines(stream)| && a.head == LastHead(w, stream) && Holding(a.sum, r.now, Whole(stream))
  {
    hide Lines, Fragment, Whole, LastHead, Advanced, Holding, Rescanned, EndsLine;
    var p, rest := stream[..c.off], Rest(c, stream);
    assert stream == p + rest;
    HashMoves(w, c, d, p, rest);
    EndsLineMeaning(p);
    WholeOfWhole(p);
    WholeConcat(p, rest);
    LastHeadConcat(w, p, rest, stream);
    FirstBytes(stream);
    WholeAgain(stream);
    LastHeadOfWhole(w, stream);
    assert p + Whole(rest) == Whole(stream);
    assert stream[..Advanced(w, c, stream).off] == Whole(stream);
  }

  lemma FirstBytes(stream: Bytes)
    ensures Whole(stream) <= stream
  {
    hide Lines, Fragment;
    WholeIsThrough(stream);
  }

  lemma FaultPlaced(w: Wire, c: Ck, d: Drift, stream: Bytes, k: nat)
    requires Placed(w, c, d, stream)
    ensures Placed(w, Drifted(c, stream, k), Faulted(d, |Fed(Rest(c, stream), k)|), stream)
  {
    hide Lines, LastHead, EndsLine;
    var fed := Fed(Rest(c, stream), k);
    assert c.sum + [] == c.sum;
  }

  lemma PlacedGrows(w: Wire, c: Ck, d: Drift, stream: Bytes, more: Bytes)
    requires Placed(w, c, d, stream)
    ensures Placed(w, c, d, stream + more)
  {
    assert (stream + more)[..c.off] == stream[..c.off];
  }

  /** The writer's own bookkeeping does not move its place. */
  lemma PlacedSame(w: Wire, c: Ck, o: Ck, d: Drift, stream: Bytes)
    requires Placed(w, c, d, stream)
    requires o == c.(size := o.size, prev := o.prev, lastAt := o.lastAt, pending := o.pending)
    ensures Placed(w, o, d, stream)
  {
  }

  // ---------------------------------------------------------------- the operations

  lemma WholeNames(w: Wire, stream: Bytes, kind: string, hashed: Bytes, drift: nat)
    requires kind == CHECKPOINT || kind == CLOSE_KIND
    requires 1 <= |Lines(stream)| <= MAX_COUNT && LastHead(w, stream) != "" && Holding(hashed, drift, Whole(stream))
    ensures Names(w, stream, kind, |Lines(stream)|, LastHead(w, stream), hashed, drift)
  {
    hide Lines, HeadOf, Holding;
    WholeIsThrough(stream);
  }

  lemma GoodNames(w: Wire, stream: Bytes)
    requires ResumeDue(w, stream) && |Lines(stream)| <= MAX_COUNT
    ensures var k := LastGood(w, Lines(stream));
            Names(w, stream, RESUME, k, HeadAt(w, stream, k), Through(stream, k), 0)
    ensures HeadAt(w, stream, LastGood(w, Lines(stream))) != ""
  {
    hide Lines, HeadOf, Through, LastGood;
    LastGoodMeaning(w, Lines(stream));
  }

  /** One operation that may write, and the state it leaves. */
  ghost predicate Leaves(w: Wire, n: Notary, cfg: Config, keys: map<string, Key>, stream: Bytes, base: Bytes,
                        log: seq<Entry>, o: Step, d: Drift, now: seq<Entry>)
  {
    && Survives(w, n, cfg.name, keys, stream, base, log, o.side, now)
    && Placed(w, o.ck, d, stream) && InStep(w, o.ck, o.side)
  }

  lemma NoRecordLeaves(w: Wire, n: Notary, cfg: Config, keys: map<string, Key>, stream: Bytes, side: Bytes,
                       log: seq<Entry>, c: Ck, d: Drift, ok: bool)
    requires Logged(w, n, cfg.name, keys, stream, Lines(side), log) && Placed(w, c, d, stream) && InStep(w, c, side)
    ensures Leaves(w, n, cfg, keys, stream, side, log, Step(c, side, ok), d, log)
  {
    hide Logged, Placed, InStep, Lines, Survives;
    NothingWritten(w, n, cfg.name, keys, stream, side, log);
  }

  lemma WrittenLeaves(w: Wire, n: Notary, cfg: Config, keys: map<string, Key>, stream: Bytes, side: Bytes,
                      log: seq<Entry>, c: Ck, d: Drift, kind: string, count: int, head: string, hashed: Bytes,
                      drift: nat, m: Moment)
    requires Granted(w, n, cfg.name, keys) && GoodMoment(n, keys, m)
    requires Logged(w, n, cfg.name, keys, stream, Lines(side), log) && Placed(w, c, d, stream) && InStep(w, c, side)
    requires Names(w, stream, kind, count, head, hashed, drift)
    ensures var o := Written(w, n, cfg, c, side, kind, count, head, Sha(w, hashed), m);
            var rec := RecordOf(w, n, cfg, c, kind, count, head, hashed, m);
            && Leaves(w, n, cfg, keys, stream, side, log, o, d, Noted(log, side, o.side, rec, hashed, drift))
            && o.ck.sum == c.sum && o.ck.count == c.count && o.ck.head == c.head
  {
    hide Logged, Placed, InStep, Lines, Survives, Names, Written, Granted, GoodMoment, RecordOf, Noted;
    WrittenSurvives(w, n, cfg, keys, stream, side, log, c, kind, count, head, hashed, drift, m);
    var o := Written(w, n, cfg, c, side, kind, count, head, Sha(w, hashed), m);
    PlacedSame(w, c, o.ck, d, stream);
  }

  /** A record chains from prev and from nothing else of the state. */
  lemma SameRecord(w: Wire, n: Notary, cfg: Config, c: Ck, a: Ck, kind: string, count: int, head: string, hashed: Bytes,
                   m: Moment)
    requires c.prev == a.prev
    ensures RecordOf(w, n, cfg, c, kind, count, head, hashed, m) == RecordOf(w, n, cfg, a, kind, count, head, hashed, m)
  {
  }

  lemma AfterLeaves(w: Wire, n: Notary, cfg: Config, keys: map<string, Key>, s: Sys, c: Ck, m: Moment)
    requires Granted(w, n, cfg.name, keys) && GoodMoment(n, keys, m) && |Lines(s.stream)| <= MAX_COUNT
    requires Logged(w, n, cfg.name, keys, s.stream, Lines(s.side), s.log) && Placed(w, c, s.drift, s.stream)
             && InStep(w, c, s.side)
    ensures var o, d := AfterAppended(w, n, cfg, c, s.side, s.stream, m), Rescanned(s.drift, Rest(c, s.stream));
            var rec := RecordOf(w, n, cfg, c, CHECKPOINT, o.ck.count, o.ck.head, o.ck.sum, m);
            Leaves(w, n, cfg, keys, s.stream, s.side, s.log, o, d, Noted(s.log, s.side, o.side, rec, o.ck.sum, d.now))
  {
    hide Logged, Placed, Lines, Advanced, Leaves, Written, Granted, GoodMoment, Names, Fragment, SidecarPrev, LastHead,
      Holding, Whole, Rescanned, RecordOf;
    var d := Rescanned(s.drift, Rest(c, s.stream));
    var a := Advanced(w, c, s.stream);
    var p := a.(pending := a.pending + |Lines(Rest(c, s.stream))|);
    AdvancePlaced(w, c, s.drift, s.stream);
    PlacedSame(w, a, p, d, s.stream);
    AdvancedKeeps(w, c, s.stream);
    NoRecordLeaves(w, n, cfg, keys, s.stream, s.side, s.log, p, d, true);
    if p.head != "" {
      HeadNeedsLines(w, s.stream);
      WholeNames(w, s.stream, CHECKPOINT, p.sum, d.now);
      SameRecord(w, n, cfg, c, p, CHECKPOINT, p.count, p.head, p.sum, m);
      WrittenLeaves(w, n, cfg, keys, s.stream, s.side, s.log, p, d, CHECKPOINT, p.count, p.head, p.sum, d.now, m);
    }
  }

  lemma CloseLeaves(w: Wire, n: Notary, cfg: Config, keys: map<string, Key>, s: Sys, c: Ck, m: Moment)
    requires Granted(w, n, cfg.name, keys) && GoodMoment(n, keys, m) && |Lines(s.stream)| <= MAX_COUNT
    requires Logged(w, n, cfg.name, keys, s.stream, Lines(s.side), s.log) && Placed(w, c, s.drift, s.stream)
             && InStep(w, c, s.side)
    ensures var o, d := Closed(w, n, cfg, c, s.side, s.stream, m), Rescanned(s.drift, Rest(c, s.stream));
            var rec := RecordOf(w, n, cfg, c, CLOSE_KIND, o.ck.count, o.ck.head, o.ck.sum, m);
            Leaves(w, n, cfg, keys, s.stream, s.side, s.log, o, d, Noted(s.log, s.side, o.side, rec, o.ck.sum, d.now))
  {
    hide Logged, Placed, Lines, Advanced, Leaves, Written, Granted, GoodMoment, Names, Fragment, SidecarPrev, LastHead,
      Holding, Whole, Rescanned, RecordOf;
    var d := Rescanned(s.drift, Rest(c, s.stream));
    var a := Advanced(w, c, s.stream);
    AdvancePlaced(w, c, s.drift, s.stream);
    AdvancedKeeps(w, c, s.stream);
    NoRecordLeaves(w, n, cfg, keys, s.stream, s.side, s.log, a, d, true);
    if a.head != "" {
      HeadNeedsLines(w, s.stream);
      WholeNames(w, s.stream, CLOSE_KIND, a.sum, d.now);
      SameRecord(w, n, cfg, c, a, CLOSE_KIND, a.count, a.head, a.sum, m);
      WrittenLeaves(w, n, cfg, keys, s.stream, s.side, s.log, a, d, CLOSE_KIND, a.count, a.head, a.sum, d.now, m);
    }
  }

  lemma AdvancedKeeps(w: Wire, c: Ck, stream: Bytes)
    ensures var a := Advanced(w, c, stream); a.size == c.size && a.prev == c.prev
  {
    hide Lines, Fragment, Whole, LastHead;
  }

  lemma HeadNeedsLines(w: Wire, stream: Bytes)
    ensures LastHead(w, stream) != "" ==> |Lines(stream)| >= 1
  {
  }

  /** Cutting the torn tail of a sidecar and reading the stream in full puts a writer in step, drifted by nothing. */
  lemma FullReadPlaced(w: Wire, side: Bytes, stream: Bytes, m: Moment)
    ensures var c := FullRead(w, side, stream, m);
            Placed(w, c, Drift(0, 0), stream) && InStep(w, c, Whole(side)) && Lines(Whole(side)) == Lines(side)
  {
    hide Lines, Fragment, Join, LastHead;
    WholeAgain(side);
    var c := FullRead(w, side, stream, m);
    ScratchIsUpTo(w, c, stream);
    UpToIsPlaced(w, c, stream);
  }

  lemma OpenLeaves(w: Wire, n: Notary, cfg: Config, keys: map<string, Key>, s: Sys, m: Moment)
    requires Granted(w, n, cfg.name, keys) && GoodMoment(n, keys, m) && |Lines(s.stream)| <= MAX_COUNT
    requires Logged(w, n, cfg.name, keys, s.stream, Lines(s.side), s.log)
    ensures Kept(s.side) == Whole(s.side)
    ensures var o := Opened(w, n, cfg, s.side, s.stream, m);
            Leaves(w, n, cfg, keys, s.stream, Whole(s.side), s.log, o, Drift(0, 0),
                   Noted(s.log, Whole(s.side), o.side, ResumeOf(w, n, cfg, s.side, s.stream, m),
                         Through(s.stream, LastGood(w, Lines(s.stream))), 0))
  {
    hide Logged, Placed, InStep, Lines, Whole, Leaves, Written, Granted, GoodMoment, Names, FullRead, LastGood,
      LastHead, SidecarFits, AllHashable, HeadAt, Through, RecordOf;
    var c, k := FullRead(w, s.side, s.stream, m), LastGood(w, Lines(s.stream));
    LogFits(w, n, cfg.name, keys, s.stream, s.side, s.log);
    FullReadPlaced(w, s.side, s.stream, m);
    NoRecordLeaves(w, n, cfg, keys, s.stream, Whole(s.side), s.log, c, Drift(0, 0), true);
    NoRecordLeaves(w, n, cfg, keys, s.stream, Whole(s.side), s.log, c, Drift(0, 0), false);
    if ResumeDue(w, s.stream) {
      GoodNames(w, s.stream);
      WrittenLeaves(w, n, cfg, keys, s.stream, Whole(s.side), s.log, c, Drift(0, 0), RESUME, k, HeadAt(w, s.stream, k),
                    Through(s.stream, k), 0, m);
    }
  }

  // ---------------------------------------------------------------- runs

  /** Every step of a writer keeps the history, and so does a death at any byte of its write. */
  lemma OperationKeeps(w: Wire, n: Notary, cfg: Config, keys: map<string, Key>, s: Sys, a: Act)
    requires Granted(w, n, cfg.name, keys) && GoodAct(n, keys, a) && |Lines(s.stream)| <= MAX_COUNT
    requires Inv(w, n, cfg, keys, s)
    requires !a.DieIn? && !a.Grow?
    ensures var t := Next(w, n, cfg, s, a);
            var base := if a.Open? && s.ck.None? then Kept(s.side) else s.side;
            && t.stream == s.stream && Inv(w, n, cfg, keys, t)
            && Survives(w, n, cfg.name, keys, s.stream, base, s.log, t.side, t.log)
  {
    hide Logged, Placed, InStep, Lines, AfterAppended, Closed, Opened, Granted, GoodMoment, Whole, Kept, Survives,
      AllHashable, Drifted, ScanReach, Rescanned, Faulted, LastGood, Through, Noted, Rest, RecordOf, ResumeOf;
    NothingWritten(w, n, cfg.name, keys, s.stream, s.side, s.log);
    var t := Next(w, n, cfg, s, a);
    match a
    case Open(m) =>
      if s.ck.None? {
        OpenLeaves(w, n, cfg, keys, s, m);
        LeavesLogged(w, n, cfg, keys, s.stream, Whole(s.side), s.log, Opened(w, n, cfg, s.side, s.stream, m),
            Drift(0, 0), t.log);
      }
    case After(m) =>
      if s.ck.Some? {
        if AllHashable(w, Rest(s.ck.value, s.stream)) {
          AfterLeaves(w, n, cfg, keys, s, s.ck.value, m);
          LeavesLogged(w, n, cfg, keys, s.stream, s.side, s.log,
              AfterAppended(w, n, cfg, s.ck.value, s.side, s.stream, m), t.drift, t.log);
        } else {
          FaultKeeps(w, s, s.ck.value, ScanReach(w, Rest(s.ck.value, s.stream)));
        }
      }
    case Close(m) =>
      if s.ck.Some? && AllHashable(w, Rest(s.ck.value, s.stream)) {
        CloseLeaves(w, n, cfg, keys, s, s.ck.value, m);
        LeavesLogged(w, n, cfg, keys, s.stream, s.side, s.log, Closed(w, n, cfg, s.ck.value, s.side, s.stream, m),
            t.drift, t.log);
      }
    case Fault(k) =>
      if s.ck.Some? {
        FaultKeeps(w, s, s.ck.value, k);
      }
    case _ =>
  }

  lemma LeavesLogged(w: Wire, n: Notary, cfg: Config, keys: map<string, Key>, stream: Bytes, base: Bytes,
                     log: seq<Entry>, o: Step, d: Drift, now: seq<Entry>)
    requires Leaves(w, n, cfg, keys, stream, base, log, o, d, now)
    ensures Logged(w, n, cfg.name, keys, stream, Lines(o.side), now)
    ensures Survives(w, n, cfg.name, keys, stream, base, log, o.side, now)
    ensures Placed(w, o.ck, d, stream) && InStep(w, o.ck, o.side)
  {
    hide Logged, Placed, InStep, Lines;
  }

  lemma FaultKeeps(w: Wire, s: Sys, c: Ck, k: nat)
    requires Placed(w, c, s.drift, s.stream) && InStep(w, c, s.side)
    ensures var t := FaultAt(s, c, k);
            && t.stream == s.stream && t.side == s.side && t.log == s.log
            && Placed(w, t.ck.value, t.drift, s.stream) && InStep(w, t.ck.value, s.side)
  {
    hide Placed, Fragment, SidecarPrev, Rest;
    FaultPlaced(w, c, s.drift, s.stream, k);
  }

  lemma NextKeeps(w: Wire, n: Notary, cfg: Config, keys: map<string, Key>, s: Sys, a: Act)
    requires Granted(w, n, cfg.name, keys) && GoodAct(n, keys, a) && |Lines(s.stream)| <= MAX_COUNT
    requires Inv(w, n, cfg, keys, s)
    ensures Inv(w, n, cfg, keys, Next(w, n, cfg, s, a))
  {
    hide Logged, Placed, InStep, Lines, AfterAppended, Closed, Opened, Granted, GoodMoment, Kept, FaultAt,
      AllHashable, ScanReach, Rescanned, LastGood, Through, Noted, Rest;
    match a
    case Grow(more) =>
      LogStable(w, n, cfg.name, keys, s.stream, more, Lines(s.side), s.log);
      if s.ck.Some? {
        PlacedGrows(w, s.ck.value, s.drift, s.stream, more);
      }
    case DieIn(op, k) =>
      if !op.DieIn? && !op.Grow? {
        OperationKeeps(w, n, cfg, keys, s, op);
      }
    case _ => OperationKeeps(w, n, cfg, keys, s, a);
  }

  lemma {:induction false} StreamOnlyGrows(w: Wire, n: Notary, cfg: Config, s: Sys, a: Act)
    ensures s.stream <= Next(w, n, cfg, s, a).stream
    ensures |Lines(s.stream)| <= |Lines(Next(w, n, cfg, s, a).stream)|
  {
    hide AfterAppended, Closed, Opened, AllHashable, Kept, Drifted, ScanReach, Rescanned, LastGood, Through, Noted,
      Rest, Lines;
    if a.DieIn? {
      StreamOnlyGrows(w, n, cfg, s, a.op);
    } else if a.Grow? {
      SplitConcat(s.stream, a.more);
    }
  }

  lemma {:induction false} RunsKeepTheLog(w: Wire, n: Notary, cfg: Config, keys: map<string, Key>, s: Sys,
                                          acts: seq<Act>)
    requires Granted(w, n, cfg.name, keys) && GoodActs(n, keys, acts) && Inv(w, n, cfg, keys, s)
    requires |Lines(Run(w, n, cfg, s, acts).stream)| <= MAX_COUNT
    ensures Inv(w, n, cfg, keys, Run(w, n, cfg, s, acts))
    decreases |acts|
  {
    hide Lines, Next, Inv, Granted, GoodAct;
    if acts != [] {
      var before, a := acts[..|acts| - 1], acts[|acts| - 1];
      StreamOnlyGrows(w, n, cfg, Run(w, n, cfg, s, before), a);
      RunsKeepTheLog(w, n, cfg, keys, s, before);
      NextKeeps(w, n, cfg, keys, Run(w, n, cfg, s, before), a);
    }
  }

  lemma StartsLogged(w: Wire, n: Notary, cfg: Config, keys: map<string, Key>)
    ensures Inv(w, n, cfg, keys, START)
  {
  }

  // ---------------------------------------------------------------- the verdicts

  /** A record that is right is accepted exactly when what it was hashed from is what it counts to, or SHA-256 does not
      tell the two apart. */
  lemma RightVerdict(w: Wire, n: Notary, name: string, keys: map<string, Key>, stream: Bytes, raw: Bytes, prev: string,
                     e: Entry)
    requires Lawful(w) && NotaryLaws(n) && Right(w, n, name, keys, stream, raw, prev, e)
    ensures Peek(n, raw) == (e.record.fields.kind, e.record.fields.count)
    ensures var v := VerdictAlone(w, n, stream, RecordLine(raw, false), prev, name, keys);
            var counted := Through(stream, e.record.fields.count);
            && (!v.Refused? <==> e.hashed == counted || Collision(w, e.hashed, counted))
            && (!v.Refused? ==> v == if e.record.Signed? then Valid else UnsignedRecord)
            && (v.Refused? ==> v == Refused(OtherPrefix))
  {
    hide Lines, HeadAt, Through, HashText, IsHashText, IsTimestamp, VerdictAlone, Holding, Lawful;
    var r := e.record;
    PeekEncoded(n, r);
    AcceptedExactlyWhenHolds(w, n, stream, r, prev, name, keys);
    HashTextTellsApart(w, e.hashed, Through(stream, r.fields.count));
    HeadIsSome(w, stream, r.fields.head);
    if VerdictAlone(w, n, stream, RecordLine(raw, false), prev, name, keys).Refused? {
      RefusedForItsPrefix(w, n, stream, r, prev, name, keys, HashText(DigestAt(w, stream, r.fields.count)));
    }
  }

  lemma HeadIsSome(w: Wire, stream: Bytes, head: string)
    requires IsHashText(head)
    ensures head != ""
  {
  }

  lemma PeekEncoded(n: Notary, r: Record)
    requires NotaryLaws(n) && Recordable(r)
    ensures Peek(n, Encode(n, r)) == (r.fields.kind, r.fields.count)
    ensures ViewOf(n, Encode(n, r)).Object? && ViewOf(n, Encode(n, r)).members == MembersOf(n, r)
  {
    assert ViewOf(n, Encode(n, r)) == Object(MembersOf(n, r));
  }

  lemma RecordsAreLines(w: Wire, side: Bytes, i: nat)
    requires SidecarFits(side) && i < |Lines(side)|
    ensures |RecordLines(side)| == |Lines(side)| && RecordLines(side)[i] == RecordLine(Lines(side)[i], false)
    ensures ExpectedPrev(w, RecordLines(side), i) == PrevAt(w, Lines(side), i)
  {
    hide Lines, PrevAfter;
  }

  /** Record i as the verifier sees it against the stream, and as the history has it. */
  ghost predicate Accounted(w: Wire, n: Notary, cfg: Config, keys: map<string, Key>, s: Sys, i: nat)
    requires i < |s.log| == |RecordLines(s.side)|
  {
    var r, e := ResultAlone(w, n, s.stream, RecordLines(s.side), i, cfg.name, keys), s.log[i];
    && r.kind == e.record.fields.kind && r.count == e.record.fields.count
    && 1 <= r.count <= |Lines(s.stream)|
    && Holding(e.hashed, e.drift, Through(s.stream, r.count))
    && (!r.verdict.Refused? <==> e.drift == 0 || Collision(w, e.hashed, Through(s.stream, r.count)))
    && (!r.verdict.Refused? ==> r.verdict == if e.record.Signed? then Valid else UnsignedRecord)
    && (r.verdict.Refused? ==> r.verdict == Refused(OtherPrefix))
    && (r.kind == RESUME ==> e.drift == 0 && ResumesAt(w, s.stream, r.count))
    && !CountsUnhashable(w, s.stream, r.count)
  }

  lemma LoggedIsAccounted(w: Wire, n: Notary, cfg: Config, keys: map<string, Key>, s: Sys, i: nat)
    requires Granted(w, n, cfg.name, keys) && Logged(w, n, cfg.name, keys, s.stream, Lines(s.side), s.log)
    requires i < |s.log|
    ensures |s.log| == |RecordLines(s.side)| && Accounted(w, n, cfg, keys, s, i)
  {
    hide Lines, HeadOf, Through, VerdictAlone, Lawful, NotaryLaws, IsHashText, IsTimestamp, HashText, PrevAt,
      SidecarFits, Unhashable;
    LogFits(w, n, cfg.name, keys, s.stream, s.side, s.log);
    RecordsAreLines(w, s.side, i);
    var prev, f := PrevAt(w, Lines(s.side), i), s.log[i].record.fields;
    assert Right(w, n, cfg.name, keys, s.stream, Lines(s.side)[i], prev, s.log[i]);
    RightVerdict(w, n, cfg.name, keys, s.stream, Lines(s.side)[i], prev, s.log[i]);
    HeadIsSome(w, s.stream, f.head);
    HeadIsHashable(w, Lines(s.stream)[f.count - 1]);
  }

  lemma HeadIsHashable(w: Wire, line: Bytes)
    ensures HeadOf(w, line) != "" ==> !Unhashable(w, line)
  {
    hide TrimSpace;
  }

  /** Over any run of opens, writes, closes, failed appends, failed scans and deaths at any byte, beside a stream
      anybody appends to: VerifyCheckpoints reports on the sidecar, and refuses exactly the records written while the
      hash held bytes too many (or SHA-256 does not tell the two apart). Growth being a step, this is so on the stream
      as it stands and on every extension. */
  lemma RefusedExactlyWhenDrifted(w: Wire, n: Notary, cfg: Config, keys: map<string, Key>, acts: seq<Act>)
    requires Granted(w, n, cfg.name, keys) && GoodActs(n, keys, acts)
    requires |Lines(Run(w, n, cfg, START, acts).stream)| <= MAX_COUNT
    ensures var s := Run(w, n, cfg, START, acts);
            && |s.log| == |RecordLines(s.side)|
            && !NeededUnhashable(w, n, s.stream, RecordLines(s.side))
            && forall i | 0 <= i < |s.log| :: Accounted(w, n, cfg, keys, s, i)
  {
    hide Lines, Run, Granted, GoodActs, RecordLines, Accounted, Logged, CountsUnhashable, ResultAlone;
    StartsLogged(w, n, cfg, keys);
    RunsKeepTheLog(w, n, cfg, keys, START, acts);
    var s := Run(w, n, cfg, START, acts);
    SameNumber(w, n, cfg, keys, s);
    forall i | 0 <= i < |s.log|
      ensures Accounted(w, n, cfg, keys, s, i)
      ensures !CountsUnhashable(w, s.stream, Peek(n, RecordLines(s.side)[i].raw).1)
    {
      LoggedIsAccounted(w, n, cfg, keys, s, i);
      AccountedCounts(w, n, cfg, keys, s, i);
    }
  }

  lemma SameNumber(w: Wire, n: Notary, cfg: Config, keys: map<string, Key>, s: Sys)
    requires Logged(w, n, cfg.name, keys, s.stream, Lines(s.side), s.log)
    ensures |s.log| == |RecordLines(s.side)|
  {
    hide Lines;
  }

  lemma AccountedCounts(w: Wire, n: Notary, cfg: Config, keys: map<string, Key>, s: Sys, i: nat)
    requires i < |s.log| == |RecordLines(s.side)| && Accounted(w, n, cfg, keys, s, i)
    ensures !CountsUnhashable(w, s.stream, Peek(n, RecordLines(s.side)[i].raw).1)
  {
    hide VerdictAlone, Lines, Unhashable, Holding, Through, ResumesAt, RecordLines;
  }

  // ---------------------------------------------------------------- what a failed scan costs

  /** No scan of this act is made to fail. */
  predicate Faultless(a: Act)
    decreases a
  {
    match a
    case Fault(_) => false
    case DieIn(op, _) => Faultless(op)
    case _ => true
  }

  /** Nothing in the history drifted, and the hash holds bytes too many only before a line no scan gets past. */
  ghost predicate Quiet(w: Wire, s: Sys) {
    && (forall i | 0 <= i < |s.log| :: s.log[i].drift == 0)
    && (s.ck.Some? ==> s.drift.kept == 0 && (s.drift.now == 0 || !AllHashable(w, Rest(s.ck.value, s.stream))))
  }

  /** An unhashable line stays one, whatever is appended. */
  lemma UnhashableStays(w: Wire, data: Bytes, more: Bytes)
    requires !AllHashable(w, data)
    ensures !AllHashable(w, data + more)
  {
    hide Lines, Fragment, Unhashable;
    SplitConcat(data, more);
    var i :| 0 <= i < |Lines(data)| && Unhashable(w, Lines(data)[i]);
    assert Lines(data + more)[i] == Lines(data)[i];
  }

  lemma FaultlessStaysQuiet(w: Wire, n: Notary, cfg: Config, s: Sys, a: Act)
    requires Quiet(w, s) && Faultless(a) && (s.ck.Some? ==> s.ck.value.off <= |s.stream|)
    ensures Quiet(w, Next(w, n, cfg, s, a))
  {
    hide Lines, AfterAppended, Closed, Opened, AllHashable, Kept, ScanReach, LastGood, Through;
    match a
    case Grow(more) =>
      if s.ck.Some? && !AllHashable(w, Rest(s.ck.value, s.stream)) {
        UnhashableStays(w, Rest(s.ck.value, s.stream), more);
        assert Rest(s.ck.value, s.stream + more) == Rest(s.ck.value, s.stream) + more;
      }
    case DieIn(op, k) =>
      if !op.DieIn? && !op.Grow? {
        FaultlessStaysQuiet(w, n, cfg, s, op);
      }
    case _ =>
  }

  lemma {:induction false} FaultlessRunsStayQuiet(w: Wire, n: Notary, cfg: Config, keys: map<string, Key>,
                                                  acts: seq<Act>)
    requires Granted(w, n, cfg.name, keys) && GoodActs(n, keys, acts)
    requires forall i | 0 <= i < |acts| :: Faultless(acts[i])
    requires |Lines(Run(w, n, cfg, START, acts).stream)| <= MAX_COUNT
    ensures Quiet(w, Run(w, n, cfg, START, acts))
    decreases |acts|
  {
    hide Lines, Next, Granted, GoodAct, Logged, InStep, Quiet;
    if acts == [] {
      QuietStart(w);
    } else {
      var before, a := acts[..|acts| - 1], acts[|acts| - 1];
      var s := Run(w, n, cfg, START, before);
      StreamOnlyGrows(w, n, cfg, s, a);
      StartsLogged(w, n, cfg, keys);
      RunsKeepTheLog(w, n, cfg, keys, START, before);
      FaultlessRunsStayQuiet(w, n, cfg, keys, before);
      FaultlessStaysQuiet(w, n, cfg, s, a);
    }
  }

  lemma QuietStart(w: Wire)
    ensures Quiet(w, START)
  {
  }

  /** Without a failed scan no record is ever refused: a signed one is valid, an unsigned one unsigned. */
  lemma NoRecordIsEverRefused(w: Wire, n: Notary, cfg: Config, keys: map<string, Key>, acts: seq<Act>, i: nat)
    requires Granted(w, n, cfg.name, keys) && GoodActs(n, keys, acts)
    requires forall i | 0 <= i < |acts| :: Faultless(acts[i])
    requires |Lines(Run(w, n, cfg, START, acts).stream)| <= MAX_COUNT
    requires i < |RecordLines(Run(w, n, cfg, START, acts).side)|
    ensures var s := Run(w, n, cfg, START, acts);
            && |s.log| == |RecordLines(s.side)|
            && ResultAlone(w, n, s.stream, RecordLines(s.side), i, cfg.name, keys).verdict
               == if s.log[i].record.Signed? then Valid else UnsignedRecord
  {
    hide Lines, Run, Granted, GoodActs, RecordLines, ResultAlone, Rest, AllHashable, CountsUnhashable, Through,
      Holding, ResumesAt;
    RefusedExactlyWhenDrifted(w, n, cfg, keys, acts);
    FaultlessRunsStayQuiet(w, n, cfg, keys, acts);
    assert Accounted(w, n, cfg, keys, Run(w, n, cfg, START, acts), i);
  }

  lemma DriftStays(w: Wire, n: Notary, cfg: Config, s: Sys, a: Act)
    requires s.drift.now > 0 && s.drift.kept > 0 && !Reopens(a)
    ensures var t := Next(w, n, cfg, s, a);
            && t.drift.now > 0 && t.drift.kept > 0
            && s.log <= t.log && forall i | |s.log| <= i < |t.log| :: t.log[i].drift > 0
  {
    hide Lines, AfterAppended, Closed, Opened, AllHashable, Kept, ScanReach, LastGood, Through, Drifted, Rest;
    if a.DieIn? && !a.op.DieIn? && !a.op.Grow? {
      DriftStays(w, n, cfg, s, a.op);
    }
  }

  predicate Reopens(a: Act)
    decreases a
  {
    a.Open? || (a.DieIn? && Reopens(a.op))
  }

  /** Once a scan has carried a drift past a complete line it is in the kept state too, and every later record of this
      writer is one that holds bytes too many, however often it is scanned again: only opening anew ends it. */
  lemma {:induction false} DriftOutlivesTheScan(w: Wire, n: Notary, cfg: Config, s: Sys, acts: seq<Act>)
    requires s.drift.now > 0 && s.drift.kept > 0
    requires forall i | 0 <= i < |acts| :: !Reopens(acts[i])
    ensures var t := Run(w, n, cfg, s, acts);
            && t.drift.now > 0 && t.drift.kept > 0
            && s.log <= t.log && forall i | |s.log| <= i < |t.log| :: t.log[i].drift > 0
    decreases |acts|
  {
    hide Next;
    if acts != [] {
      var before, a := acts[..|acts| - 1], acts[|acts| - 1];
      DriftOutlivesTheScan(w, n, cfg, s, before);
      DriftStays(w, n, cfg, Run(w, n, cfg, s, before), a);
    }
  }

  // ---------------------------------------------------------------- what the writer counts and times

  /** A live writer counts the complete lines it hashed since its last record, or its open, and remembers its clock. */
  ghost predicate Timed(s: Sys) {
    s.ck.Some? ==>
      && s.mark.lines <= s.ck.value.count
      && s.ck.value.pending == s.ck.value.count - s.mark.lines
      && s.ck.value.lastAt == s.mark.clock
  }

  /** A record that is written clears the count and takes the clock; one that is not leaves the writer as it was. */
  lemma WrittenTimes(w: Wire, n: Notary, cfg: Config, c: Ck, side: Bytes, kind: string, count: int, head: string,
                     digest: Bytes, m: Moment)
    requires c.size == |side|
    ensures var o := Written(w, n, cfg, c, side, kind, count, head, digest, m);
            && (o.side == side ==> o.ck == c)
            && (o.side != side ==> o.ck.pending == 0 && o.ck.lastAt == m.now && o.ck.count == c.count)
  {
    hide HashText, FieldsFor;
    var rec := RecordFor(n, FieldsFor(cfg, c, kind, count, head, digest, m.at), m.signer);
    if rec.Some? {
      var line := RecordBytes(n, rec.value);
      if m.accepts < |line| {
        assert (side + line[..m.accepts])[..|side|] == side;
      } else {
        assert |side + line| > |side|;
      }
    }
  }

  lemma AfterTimes(w: Wire, n: Notary, cfg: Config, c: Ck, side: Bytes, stream: Bytes, m: Moment)
    requires c.size == |side| && c.off <= |stream|
    ensures var o := AfterAppended(w, n, cfg, c, side, stream, m);
            && o.ck.count == c.count + |Lines(Rest(c, stream))|
            && (o.side == side ==> o.ck.pending == c.pending + |Lines(Rest(c, stream))| && o.ck.lastAt == c.lastAt)
            && (o.side != side ==> o.ck.pending == 0 && o.ck.lastAt == m.now)
  {
    hide Lines, Fragment, Whole, LastHead, Written;
    var a := Advanced(w, c, stream);
    var p := a.(pending := a.pending + |Lines(Rest(c, stream))|);
    WrittenTimes(w, n, cfg, p, side, CHECKPOINT, p.count, p.head, Sha(w, p.sum), m);
  }

  lemma OpenTimes(w: Wire, n: Notary, cfg: Config, side: Bytes, stream: Bytes, m: Moment)
    ensures var o := Opened(w, n, cfg, side, stream, m);
            o.ok ==>
              && o.ck.count == |Lines(stream)| && o.ck.pending == 0
              && o.ck.lastAt == if o.side == Kept(side) then m.due else m.now
  {
    hide Lines, Whole, LastHead, Written, SidecarFits, AllHashable, LastGood, HeadAt, DigestAt, SidecarPrev;
    var c, k := FullRead(w, side, stream, m), LastGood(w, Lines(stream));
    if k > 0 {
      WrittenTimes(w, n, cfg, c, Whole(side), RESUME, k, HeadAt(w, stream, k), DigestAt(w, stream, k), m);
    }
  }

  lemma TimedKeeps(w: Wire, n: Notary, cfg: Config, keys: map<string, Key>, s: Sys, a: Act)
    requires Inv(w, n, cfg, keys, s) && Timed(s)
    ensures Timed(Next(w, n, cfg, s, a))
  {
    hide Lines, Logged, AfterAppended, Closed, Opened, AllHashable, Kept, ScanReach, Rescanned, LastGood, Through,
      Noted, RecordOf, ResumeOf, Fragment, SidecarPrev, LastHead, EndsLine, Holding;
    match a
    case Open(m) =>
      OpenTimes(w, n, cfg, s.side, s.stream, m);
    case After(m) =>
      if s.ck.Some? {
        AfterTimes(w, n, cfg, s.ck.value, s.side, s.stream, m);
        ScanCounts(w, s.ck.value, s.drift, s.stream);
      }
    case _ =>
  }

  lemma ScanCounts(w: Wire, c: Ck, d: Drift, stream: Bytes)
    requires Placed(w, c, d, stream)
    ensures c.count + |Lines(Rest(c, stream))| == |Lines(stream)|
    ensures AfterShrink(c, stream) == c
  {
    hide Lines, Fragment, LastHead, Holding;
    var p := stream[..c.off];
    assert stream == p + Rest(c, stream);
    EndsLineMeaning(p);
    WholeConcat(p, Rest(c, stream));
  }

  /** Over every run a live writer's pending is the number of complete lines it hashed since its last record, or its
      open, and lastAt is the clock of that record, or of the open. */
  lemma {:induction false} RunsStayTimed(w: Wire, n: Notary, cfg: Config, keys: map<string, Key>, acts: seq<Act>)
    requires Granted(w, n, cfg.name, keys) && GoodActs(n, keys, acts)
    requires |Lines(Run(w, n, cfg, START, acts).stream)| <= MAX_COUNT
    ensures Timed(Run(w, n, cfg, START, acts)) && Inv(w, n, cfg, keys, Run(w, n, cfg, START, acts))
    decreases |acts|
  {
    hide Lines, Next, Granted, GoodAct, Inv, Timed;
    StartsLogged(w, n, cfg, keys);
    RunsKeepTheLog(w, n, cfg, keys, START, acts);
    if acts == [] {
      StartTimed();
    } else {
      var before, a := acts[..|acts| - 1], acts[|acts| - 1];
      StreamOnlyGrows(w, n, cfg, Run(w, n, cfg, START, before), a);
      RunsStayTimed(w, n, cfg, keys, before);
      TimedKeeps(w, n, cfg, keys, Run(w, n, cfg, START, before), a);
    }
  }

  lemma StartTimed()
    ensures Timed(START)
  {
  }

  /** afterAppend owes a checkpoint: a line since this writer's last record or its open, and then enough of them, or
      enough time. */
  predicate Due(cfg: Config, s: Sys, m: Moment) {
    var since := |Lines(s.stream)| - s.mark.lines;
    since > 0 && (since >= cfg.every || m.due - s.mark.clock >= cfg.interval)
  }

  // ---------------------------------------------------------------- the record a scan leads to

  lemma RightIsShort(w: Wire, n: Notary, name: string, keys: map<string, Key>, stream: Bytes, raw: Bytes,
                     prev: string, e: Entry)
    requires Right(w, n, name, keys, stream, raw, prev, e)
    ensures |raw| <= RECORD_CAP
  {
    hide Lines, HeadAt, Through, IsHashText, IsTimestamp, HashText, Holding;
  }

  /** A whole record in the sidecar, and one entry more in the history. */
  lemma RecordLands(w: Wire, n: Notary, cfg: Config, keys: map<string, Key>, stream: Bytes, side: Bytes,
                    log: seq<Entry>, c: Ck, p: Ck, kind: string, hashed: Bytes, drift: nat, m: Moment)
    requires Granted(w, n, cfg.name, keys) && GoodMoment(n, keys, m) && Signs(m) && InStep(w, c, side)
             && p.prev == c.prev
    requires Names(w, stream, kind, p.count, p.head, hashed, drift)
    ensures var o := Written(w, n, cfg, p, side, kind, p.count, p.head, Sha(w, hashed), m);
            var rec := RecordOf(w, n, cfg, c, kind, p.count, p.head, hashed, m);
            && o.ok && o.side != side && rec.Some? && rec.value.Signed?
            && Noted(log, side, o.side, rec, hashed, drift) == log + [Entry(rec.value, hashed, drift)]
            && o.ck.count == p.count && o.ck.head == p.head && o.ck.sum == p.sum
            && rec.value.fields.kind == kind && rec.value.fields.count == p.count
  {
    hide Lines, HashText, Names, Right, Lawful, NotaryLaws, RecordsFit, GoodMoment, SidecarPrev, Fragment;
    PrevIsHashText(w, side);
    RecordIsRight(w, n, cfg, keys, stream, c, kind, p.count, p.head, hashed, drift, m);
    SameRecord(w, n, cfg, c, p, kind, p.count, p.head, hashed, m);
    var rec := RecordOf(w, n, cfg, c, kind, p.count, p.head, hashed, m);
    assert rec.Some? && rec.value.Signed?;
    RightIsShort(w, n, cfg.name, keys, stream, Encode(n, rec.value), c.prev, Entry(rec.value, hashed, drift));
  }

  /** A writer whose scan ends writes one record, exactly when the last complete line is an event and the record is
      due, as a close record always is; the record counts every complete line, and holds what the hash held. */
  lemma OneRecordExactlyWhenDue(w: Wire, n: Notary, cfg: Config, keys: map<string, Key>, s: Sys, a: Act, m: Moment)
    requires Granted(w, n, cfg.name, keys) && GoodMoment(n, keys, m) && Signs(m) && |Lines(s.stream)| <= MAX_COUNT
    requires Inv(w, n, cfg, keys, s) && Timed(s) && s.ck.Some? && AllHashable(w, Rest(s.ck.value, s.stream))
    requires a == After(m) || a == Close(m)
    ensures var t, d := Next(w, n, cfg, s, a), Rescanned(s.drift, Rest(s.ck.value, s.stream));
            if LastHead(w, s.stream) != "" && (a.Close? || Due(cfg, s, m)) then
              && |t.log| == |s.log| + 1 && s.log <= t.log && t.log[|s.log|].drift == d.now
              && var f := t.log[|s.log|].record.fields;
              f.kind == (if a.Close? then "close" else "checkpoint") && f.count == |Lines(s.stream)|
            else t.log == s.log
  {
    hide Lines, Advanced, Placed, Logged, Written, Lawful, NotaryLaws, RecordsFit, GoodMoment, Signs, AllHashable,
      Names, LastHead, Holding, Whole, Rescanned, RecordOf, SidecarPrev, Fragment, InStep, Rest, FaultAt, Noted;
    var c := s.ck.value;
    var b, d := Advanced(w, c, s.stream), Rescanned(s.drift, Rest(c, s.stream));
    AdvancePlaced(w, c, s.drift, s.stream);
    AdvancedKeeps(w, c, s.stream);
    AdvancedPending(w, c, s.stream);
    RestIs(c, s.stream);
    HeadNeedsLines(w, s.stream);
    ScanCounts(w, c, s.drift, s.stream);
    NotedNothing(s.log, s.side);
    if b.head != "" {
      var kind := if a.Close? then CLOSE_KIND else CHECKPOINT;
      var p := if a.Close? then b else b.(pending := b.pending + |Lines(Rest(c, s.stream))|);
      WholeNames(w, s.stream, kind, b.sum, d.now);
      RecordLands(w, n, cfg, keys, s.stream, s.side, s.log, c, p, kind, b.sum, d.now, m);
    }
  }

  lemma RestIs(c: Ck, stream: Bytes)
    ensures Rest(c, stream) == stream[AfterShrink(c, stream).off..]
  {
  }

  lemma NotedNothing(log: seq<Entry>, side: Bytes)
    ensures forall rec, hashed, drift :: Noted(log, side, side, rec, hashed, drift) == log
  {
  }

  lemma AdvancedPending(w: Wire, c: Ck, stream: Bytes)
    ensures Advanced(w, c, stream).pending == c.pending && Advanced(w, c, stream).lastAt == c.lastAt
  {
    hide Lines, Fragment, Whole, LastHead;
  }

  /** A scan that fails after feeding something, with nothing carried yet: if the next scan that ends sees only a
      fragment, settle makes the hash whole again; if it sees a complete line, the drift is there to stay, and the
      record that scan leads to holds it. */
  lemma AFailedScanIsHealedOnlyByAFragment(w: Wire, n: Notary, cfg: Config, s: Sys, k: nat, more: Bytes, m: Moment)
    requires s.ck.Some? && s.drift == Drift(0, 0) && s.ck.value.off <= |s.stream|
    requires k > 0 && Rest(s.ck.value, s.stream) != []
    requires AllHashable(w, Rest(s.ck.value, s.stream + more))
    ensures var t := Next(w, n, cfg, Next(w, n, cfg, Next(w, n, cfg, s, Fault(k)), Grow(more)), After(m));
            && (t.drift == Drift(0, 0) <==> Lines(Rest(s.ck.value, s.stream + more)) == [])
            && (t.drift.now > 0 && t.drift.kept > 0 <==> Lines(Rest(s.ck.value, s.stream + more)) != [])
            && forall i | |s.log| <= i < |t.log| ::
                 t.log[i].drift > 0 <==> Lines(Rest(s.ck.value, s.stream + more)) != []
  {
    hide Lines, AfterAppended, AllHashable, ScanReach;
    assert Rest(s.ck.value, s.stream + more) == Rest(s.ck.value, s.stream) + more;
  }

  // ---------------------------------------------------------------- two records of one writer

  /** afterAppend writes only what is due, and its record counts every complete line. */
  lemma AfterWrites(w: Wire, n: Notary, cfg: Config, keys: map<string, Key>, s: Sys, m: Moment)
    requires Inv(w, n, cfg, keys, s) && Timed(s) && s.ck.Some?
    ensures var t := Next(w, n, cfg, s, After(m));
            if t.log == s.log then t.mark == s.mark
            else
              && Due(cfg, s, m) && |t.log| == |s.log| + 1 && s.log <= t.log
              && t.log[|s.log|].record.fields.count == |Lines(s.stream)| && t.mark == Mark(|Lines(s.stream)|, m.now)
  {
    hide Lines, Logged, AllHashable, ScanReach, Rescanned, Fragment, SidecarPrev, LastHead, EndsLine, Holding, Drifted,
      Rest, AfterAppended, RecordOf, Placed, InStep;
    var c := s.ck.value;
    ScanCounts(w, c, s.drift, s.stream);
    InStepSize(w, c, s.side);
    AfterNotes(w, n, cfg, c, s.side, s.stream, m);
    var o := AfterAppended(w, n, cfg, c, s.side, s.stream, m);
    RecordOfSays(w, n, cfg, c, CHECKPOINT, o.ck.count, o.ck.head, o.ck.sum, m);
  }

  lemma InStepSize(w: Wire, c: Ck, side: Bytes)
    requires InStep(w, c, side)
    ensures c.size == |side|
  {
    hide Fragment, SidecarPrev;
  }

  lemma RecordOfSays(w: Wire, n: Notary, cfg: Config, c: Ck, kind: string, count: int, head: string, hashed: Bytes,
                     m: Moment)
    ensures var rec := RecordOf(w, n, cfg, c, kind, count, head, hashed, m);
            rec.Some? ==> rec.value.fields.kind == kind && rec.value.fields.count == count
  {
    hide HashText;
  }

  lemma AfterNotes(w: Wire, n: Notary, cfg: Config, c: Ck, side: Bytes, stream: Bytes, m: Moment)
    requires c.size == |side|
    ensures var o, pending := AfterAppended(w, n, cfg, c, side, stream, m), c.pending + |Lines(Rest(c, stream))|;
            o.side != side ==>
              && pending > 0 && (pending >= cfg.every || m.due - c.lastAt >= cfg.interval)
              && RecordOf(w, n, cfg, c, CHECKPOINT, o.ck.count, o.ck.head, o.ck.sum, m).Some?
              && o.ck.count == AfterShrink(c, stream).count + |Lines(Rest(c, stream))|
  {
    hide Lines, Fragment, Whole, LastHead, Written, RecordOf;
    var a := Advanced(w, c, stream);
    var p := a.(pending := a.pending + |Lines(Rest(c, stream))|);
    WrittenNotes(w, n, cfg, p, side, CHECKPOINT, p.count, p.head, p.sum, m);
    SameRecord(w, n, cfg, c, p, CHECKPOINT, p.count, p.head, p.sum, m);
  }

  lemma WrittenNotes(w: Wire, n: Notary, cfg: Config, c: Ck, side: Bytes, kind: string, count: int, head: string,
                     hashed: Bytes, m: Moment)
    requires c.size == |side|
    ensures var o := Written(w, n, cfg, c, side, kind, count, head, Sha(w, hashed), m);
            && (o.side != side ==> RecordOf(w, n, cfg, c, kind, count, head, hashed, m).Some?)
            && o.ck.count == c.count && o.ck.head == c.head && o.ck.sum == c.sum
  {
    hide HashText, FieldsFor;
  }

  /** While the history does not grow and nobody reopens, the mark stays where it is. */
  lemma MarkStays(w: Wire, n: Notary, cfg: Config, keys: map<string, Key>, s: Sys, a: Act)
    requires Inv(w, n, cfg, keys, s) && Timed(s) && !Reopens(a)
    ensures var t := Next(w, n, cfg, s, a);
            && s.log <= t.log
            && (t.log == s.log && t.ck.Some? ==> s.ck.Some? && t.mark == s.mark)
  {
    hide Lines, AfterAppended, Closed, Opened, AllHashable, Kept, ScanReach, LastGood, Through, Drifted, Rest, RecordOf,
      ResumeOf, Rescanned, Inv, Timed;
    if a.After? && s.ck.Some? {
      AfterWrites(w, n, cfg, keys, s, a.m);
    }
  }

  lemma {:induction false} MarkStaysLong(w: Wire, n: Notary, cfg: Config, keys: map<string, Key>, s: Sys,
                                         acts: seq<Act>)
    requires Granted(w, n, cfg.name, keys) && GoodActs(n, keys, acts) && Inv(w, n, cfg, keys, s) && Timed(s)
    requires forall i | 0 <= i < |acts| :: !Reopens(acts[i])
    requires |Lines(Run(w, n, cfg, s, acts).stream)| <= MAX_COUNT
    ensures var t := Run(w, n, cfg, s, acts);
            && s.log <= t.log && Inv(w, n, cfg, keys, t) && Timed(t) && |Lines(s.stream)| <= |Lines(t.stream)|
            && (t.log == s.log && t.ck.Some? ==> s.ck.Some? && t.mark == s.mark)
    decreases |acts|
  {
    hide Lines, Next, Granted, GoodAct, Inv, Timed;
    if acts != [] {
      var before, a := acts[..|acts| - 1], acts[|acts| - 1];
      StreamOnlyGrows(w, n, cfg, Run(w, n, cfg, s, before), a);
      MarkStaysLong(w, n, cfg, keys, s, before);
      MarkStays(w, n, cfg, keys, Run(w, n, cfg, s, before), a);
      NextKeeps(w, n, cfg, keys, Run(w, n, cfg, s, before), a);
      TimedKeeps(w, n, cfg, keys, Run(w, n, cfg, s, before), a);
    }
  }

  /** Of two consecutive checkpoint records of one writer, the later counts more lines, and at least every of them more,
      or comes at least the interval after the earlier one was written. */
  lemma CheckpointsAreApart(w: Wire, n: Notary, cfg: Config, keys: map<string, Key>, acts: seq<Act>, m: Moment,
                            between: seq<Act>, later: Moment)
    requires Granted(w, n, cfg.name, keys) && GoodActs(n, keys, acts) && GoodActs(n, keys, between)
    requires GoodMoment(n, keys, m) && forall i | 0 <= i < |between| :: !Reopens(between[i])
    requires var s := Run(w, n, cfg, START, acts);
             var t := Next(w, n, cfg, s, After(m));
             var u := Run(w, n, cfg, t, between);
             && t.log != s.log && u.log == t.log && Next(w, n, cfg, u, After(later)).log != u.log
             && |Lines(u.stream)| <= MAX_COUNT
    ensures var s := Run(w, n, cfg, START, acts);
            var t := Next(w, n, cfg, s, After(m));
            var v := Next(w, n, cfg, Run(w, n, cfg, t, between), After(later));
            && |v.log| == |s.log| + 2
            && var one, two := v.log[|s.log|].record.fields.count, v.log[|s.log| + 1].record.fields.count;
            two > one && (two >= one + cfg.every || later.due - m.now >= cfg.interval)
  {
    hide Lines, Next, Granted, GoodActs, GoodMoment, Inv, Timed, Run;
    var s := Run(w, n, cfg, START, acts);
    var t := Next(w, n, cfg, s, After(m));
    var u := Run(w, n, cfg, t, between);
    RunGrows(w, n, cfg, t, between);
    StreamOnlyGrows(w, n, cfg, s, After(m));
    RunsStayTimed(w, n, cfg, keys, acts);
    NextKeeps(w, n, cfg, keys, s, After(m));
    TimedKeeps(w, n, cfg, keys, s, After(m));
    MarkStaysLong(w, n, cfg, keys, t, between);
    NoWriterNoRecord(w, n, cfg, s, m);
    NoWriterNoRecord(w, n, cfg, u, later);
    AfterWrites(w, n, cfg, keys, s, m);
    AfterWrites(w, n, cfg, keys, u, later);
  }

  lemma NoWriterNoRecord(w: Wire, n: Notary, cfg: Config, s: Sys, m: Moment)
    ensures Next(w, n, cfg, s, After(m)).log != s.log ==> s.ck.Some?
    ensures Next(w, n, cfg, s, After(m)).stream == s.stream
  {
    hide AfterAppended, AllHashable, Rest, ScanReach, Drifted;
  }

  lemma {:induction false} RunGrows(w: Wire, n: Notary, cfg: Config, s: Sys, acts: seq<Act>)
    ensures |Lines(s.stream)| <= |Lines(Run(w, n, cfg, s, acts).stream)|
    decreases |acts|
  {
    hide Lines, Next;
    if acts != [] {
      RunGrows(w, n, cfg, s, acts[..|acts| - 1]);
      StreamOnlyGrows(w, n, cfg, Run(w, n, cfg, s, acts[..|acts| - 1]), acts[|acts| - 1]);
    }
  }
}
