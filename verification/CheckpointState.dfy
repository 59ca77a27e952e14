/** What the sidecar writer of one stream does to its state and its file, operation by operation. */
module CheckpointState {
  import opened Bytes
  import opened Wrappers
  import opened Wire
  import opened Scan
  import opened Record
  import opened Checkpoints

  // ---------------------------------------------------------------- signing

  datatype SignOutcome = Signature(sig: Bytes) | Expired | SignFailed

  datatype Signer = Signer(kid: string, sign: Bytes -> SignOutcome)

  function Sign(s: Signer, input: Bytes): SignOutcome { s.sign(input) }

  /** encodeCheckpoint: signed, unsigned when the key has expired, none when the signer fails. */
  function RecordFor(n: Notary, f: Fields, s: Signer): Option<Record> {
    match Sign(s, SigningInput(n, f, s.kid))
    case Expired => Some(Unsigned(f))
    case SignFailed => None
    case Signature(sig) => if |sig| != 64 then None else Some(Signed(f, s.kid, sig))
  }

  /** What becomes of a record: no signer of 64 bytes, no record; an expired key, the record with its reason in place of
      a signature; else the signature of the record's own signing input, under the signer's kid. */
  lemma RecordForMeaning(n: Notary, f: Fields, s: Signer)
    ensures var r, input := RecordFor(n, f, s), SigningInput(n, f, s.kid);
            && (r.None? <==> s.sign(input).SignFailed? || (s.sign(input).Signature? && |s.sign(input).sig| != 64))
            && (r.Some? && r.value.Unsigned? <==> s.sign(input).Expired?)
            && (r.Some? ==> r.value.fields == f)
            && (r.Some? && r.value.Signed? ==>
                  r.value.kid == s.kid && s.sign(input) == Signature(r.value.sig) && |r.value.sig| == 64)
  {
  }

  // ---------------------------------------------------------------- the state

  const DEFAULT_EVERY: nat := 64
  const DEFAULT_INTERVAL: int := 10_000_000_000

  datatype Config = Config(name: string, every: int, interval: int)

  /** Every setting in force is positive: one asked for that is not is the default. */
  function WithDefaults(cfg: Config): (r: Config)
    ensures r.name == cfg.name && r.every > 0 && r.interval > 0
    ensures r.every == if cfg.every >= 1 then cfg.every else 64
    ensures r.interval == if cfg.interval >= 1 then cfg.interval else 10 * 1_000_000_000
  {
    Config(cfg.name,
           if cfg.every <= 0 then DEFAULT_EVERY else cfg.every,
           if cfg.interval <= 0 then DEFAULT_INTERVAL else cfg.interval)
  }

  /** The fields of a checkpointer. */
  datatype Ck = Ck(
    sum: Bytes,            // what the hash has been fed
    last: Option<Bytes>,   // the hash's state at off; None for a fresh hash
    off: nat,              // stream bytes hashed, through the last LF
    count: nat,            // stream lines through off
    head: string,          // chain hash of line count, "" when it is not an event
    prev: string,          // the previous record's bytes, hashed
    pending: nat,          // lines since the last record
    lastAt: int,
    size: nat)             // the sidecar's length

  /** What the environment gives one operation: three readings of the clock, the signer, and how many
      bytes of a record the sidecar accepts. */
  datatype Moment = Moment(due: int, at: string, now: int, signer: Signer, accepts: nat)

  // ---------------------------------------------------------------- writeRecord

  function FieldsFor(cfg: Config, c: Ck, kind: string, count: int, head: string, digest: Bytes, at: string): Fields {
    Fields(kind, cfg.name, count, head, HashText(digest), at, c.prev)
  }

  function RecordBytes(n: Notary, r: Record): Bytes { Encode(n, r) + [LF] }

  /** os.File.Truncate. */
  function Truncate(b: Bytes, size: nat): Bytes {
    if size <= |b| then b[..size] else b + seq(size - |b|, _ => 0)
  }

  datatype Step = Step(ck: Ck, side: Bytes, ok: bool)

  /** writeRecord: the record in full and the chain moved on to it, or nothing at all. */
  function Written(w: Wire, n: Notary, cfg: Config, c: Ck, side: Bytes, kind: string, count: int, head: string,
                   digest: Bytes, m: Moment): Step
  {
    match RecordFor(n, FieldsFor(cfg, c, kind, count, head, digest, m.at), m.signer)
    case None => Step(c, side, false)
    case Some(r) =>
      var line := RecordBytes(n, r);
      if m.accepts < |line| then Step(c, Truncate(side + line[..m.accepts], c.size), false)
      else Step(c.(size := c.size + |line|, prev := HashText(Sha(w, Encode(n, r))), lastAt := m.now, pending := 0),
                side + line, true)
  }

  // ---------------------------------------------------------------- advance

  predicate AllHashable(w: Wire, data: Bytes) {
    forall i | 0 <= i < |Lines(data)| :: !Unhashable(w, Lines(data)[i])
  }

  /** The state advance hashes on from: as it is, or from byte zero when the stream shrank. */
  function AfterShrink(c: Ck, stream: Bytes): (r: Ck)
    ensures r.off <= |stream|
  {
    if |stream| < c.off then c.(sum := [], off := 0, count := 0, head := "", last := None) else c
  }

  function LastHead(w: Wire, data: Bytes): string {
    if Lines(data) == [] then "" else HeadOf(w, Lines(data)[|Lines(data)| - 1])
  }

  /** advance, when no scan fails: the stream hashed on through its last LF. */
  function Advanced(w: Wire, c: Ck, stream: Bytes): Ck {
    var b := AfterShrink(c, stream);
    var data := stream[b.off..];
    var last := if Lines(data) == [] then b.last else Some(b.sum + Whole(data));
    b.(sum := if Fragment(data) == [] then b.sum + data else if last.None? then [] else last.value,
       last := last,
       off := b.off + |Whole(data)|,
       count := b.count + |Lines(data)|,
       head := if Lines(data) == [] then b.head else LastHead(w, data))
  }

  /** The state of a writer that hashed this stream from its first byte and nothing else. */
  ghost predicate FromScratch(w: Wire, c: Ck, stream: Bytes) {
    && c.sum == Whole(stream)
    && c.off == |c.sum|
    && c.count == |Lines(stream)|
    && c.head == LastHead(w, stream)
    && c.last == (if c.off == 0 then None else Some(c.sum))
  }

  /** The stream still begins with the bytes this writer hashed, and what it holds is what a scan of those
      bytes from the first one would give. */
  ghost predicate UpTo(w: Wire, c: Ck, stream: Bytes) {
    c.off <= |stream| && EndsLine(stream[..c.off]) && FromScratch(w, c, stream[..c.off])
  }

  /** The incremental state is the from-scratch one: after advance, the fields are those of a full rescan of
      the stream as it is, if it kept the bytes hashed before or is now shorter than they are. */
  lemma AdvanceIsRescan(w: Wire, c: Ck, stream: Bytes)
    requires UpTo(w, c, stream) || |stream| < c.off
    ensures FromScratch(w, Advanced(w, c, stream), stream)
    ensures UpTo(w, Advanced(w, c, stream), stream)
  {
    hide FromScratch, Advanced;
    ShrinkStartsOver(w, c, stream);
    var b := AfterShrink(c, stream);
    RescanFrom(w, b, stream[..b.off], stream[b.off..]);
    assert stream == stream[..b.off] + stream[b.off..];
    AdvancedUnshrunk(w, c, stream);
    ScratchIsUpTo(w, Advanced(w, c, stream), stream);
  }

  lemma ShrinkStartsOver(w: Wire, c: Ck, stream: Bytes)
    requires UpTo(w, c, stream) || |stream| < c.off
    ensures UpTo(w, AfterShrink(c, stream), stream)
  {
    hide Lines, Join, Fragment;
    NothingHashed(w);
    assert stream[..0] == [];
  }

  lemma AdvancedUnshrunk(w: Wire, c: Ck, stream: Bytes)
    ensures Advanced(w, AfterShrink(c, stream), stream) == Advanced(w, c, stream)
  {
    hide Lines, Fragment, Whole, LastHead;
  }

  lemma RescanFrom(w: Wire, b: Ck, p: Bytes, data: Bytes)
    requires b.off == |p| && EndsLine(p) && FromScratch(w, b, p)
    ensures FromScratch(w, Advanced(w, b, p + data), p + data)
  {
    hide Lines, Fragment, Whole, LastHead;
    var stream := p + data;
    assert stream[b.off..] == data;
    EndsLineMeaning(p);
    WholeOfWhole(p);
    WholeConcat(p, data);
    WholeOfWhole(data);
    LastHeadConcat(w, p, data, stream);
    assert p + [] == p;
  }

  lemma ScratchIsUpTo(w: Wire, c: Ck, stream: Bytes)
    requires FromScratch(w, c, stream)
    ensures UpTo(w, c, stream)
  {
    hide Lines, Fragment, Join, LastHead;
    WholeIsThrough(stream);
    WholeAgain(stream);
    assert stream[..c.off] == Whole(stream);
    LastHeadOfWhole(w, stream);
  }

  lemma WholeConcat(p: Bytes, data: Bytes)
    requires Fragment(p) == []
    ensures Lines(p + data) == Lines(p) + Lines(data)
    ensures Fragment(p + data) == Fragment(data)
    ensures Whole(p + data) == Whole(p) + Whole(data)
  {
    hide Lines, Fragment;
    SplitConcat(p, data);
    assert [] + data == data;
    JoinConcat(Lines(p), Lines(data));
  }

  lemma WholeOfWhole(data: Bytes)
    ensures Fragment(data) == [] ==> Whole(data) == data
    ensures Lines(data) == [] ==> Whole(data) == []
    ensures Whole(data) == [] ==> Lines(data) == []
  {
    hide Lines, Fragment;
    WholeIsThrough(data);
    assert Whole(data) + [] == Whole(data);
    JoinEndsLF(Lines(data));
  }

  lemma NothingHashed(w: Wire)
    ensures Lines([]) == [] && Fragment([]) == [] && Join([]) == [] && LastHead(w, []) == ""
  {
  }

  lemma WholeAgain(s: Bytes)
    ensures Lines(Whole(s)) == Lines(s) && Fragment(Whole(s)) == [] && Whole(Whole(s)) == Whole(s) && EndsLine(Whole(s))
  {
    SplitNoLF(s);
    SplitUnique(Lines(s), []);
    assert Join(Lines(s)) + [] == Join(Lines(s));
    JoinEndsLF(Lines(s));
  }

  lemma LastHeadOfWhole(w: Wire, s: Bytes)
    ensures LastHead(w, Whole(s)) == LastHead(w, s)
  {
    hide Lines, Fragment, Join, HeadOf;
    WholeAgain(s);
  }

  lemma LastHeadConcat(w: Wire, p: Bytes, data: Bytes, stream: Bytes)
    requires stream == p + data && Fragment(p) == []
    ensures LastHead(w, stream) == if Lines(data) == [] then LastHead(w, p) else LastHead(w, data)
  {
    hide Lines, Fragment, Join, HeadOf;
    SplitConcat(p, data);
    assert [] + data == data;
    assert Lines(data) == [] ==> Lines(p) + Lines(data) == Lines(p);
  }

  // ---------------------------------------------------------------- a scan that fails

  /** What the stream holds beyond the lines hashed. */
  function Rest(c: Ck, stream: Bytes): Bytes { stream[AfterShrink(c, stream).off..] }

  /** The first n bytes of the rest, or all of it. */
  function Fed(rest: Bytes, n: nat): Bytes { if n <= |rest| then rest[..n] else rest }

  /** The hash after a scan that failed: fed past off, while every other field stays. */
  function Drifted(c: Ck, stream: Bytes, n: nat): Ck {
    var b := AfterShrink(c, stream);
    b.(sum := b.sum + Fed(Rest(c, stream), n))
  }

  /** The first event line that cannot be hashed, the number of lines when there is none. */
  function FirstUnhashable(w: Wire, lines: seq<Bytes>): (k: nat)
    ensures k <= |lines|
    ensures forall i | 0 <= i < k :: !Unhashable(w, lines[i])
    ensures k < |lines| ==> Unhashable(w, lines[k])
  {
    if lines == [] then 0
    else
      var n := |lines| - 1;
      var k := FirstUnhashable(w, lines[..n]);
      if k < n || Unhashable(w, lines[n]) then k else |lines|
  }

  /** How far a scan of data gets: through that line, or to the end. */
  function ScanReach(w: Wire, data: Bytes): nat {
    var stop := FirstUnhashable(w, Lines(data));
    if stop < |Lines(data)| then |Through(data, stop + 1)| else |data|
  }

  // ---------------------------------------------------------------- afterAppend, closeLocked

  function AfterAppended(w: Wire, n: Notary, cfg: Config, c: Ck, side: Bytes, stream: Bytes, m: Moment): Step {
    var a := Advanced(w, c, stream);
    var added := |Lines(stream[AfterShrink(c, stream).off..])|;
    var p := a.(pending := a.pending + added);
    if p.pending == 0 then Step(p, side, true)
    else if p.pending < cfg.every && m.due - p.lastAt < cfg.interval then Step(p, side, true)
    else if p.head == "" then Step(p, side, true)
    else Written(w, n, cfg, p, side, CHECKPOINT, p.count, p.head, Sha(w, p.sum), m)
  }

  function Closed(w: Wire, n: Notary, cfg: Config, c: Ck, side: Bytes, stream: Bytes, m: Moment): Step {
    var a := Advanced(w, c, stream);
    if a.count == 0 || a.head == "" then Step(a, side, true)
    else Written(w, n, cfg, a, side, CLOSE_KIND, a.count, a.head, Sha(w, a.sum), m)
  }

  // ---------------------------------------------------------------- openCheckpointer

  /** The last line with a head, 0 when there is none. */
  function LastGood(w: Wire, lines: seq<Bytes>): (k: nat)
    ensures k <= |lines|
  {
    if lines == [] then 0
    else if HeadOf(w, lines[|lines| - 1]) != "" then |lines|
    else LastGood(w, lines[..|lines| - 1])
  }

  lemma {:induction false} LastGoodMeaning(w: Wire, lines: seq<Bytes>)
    ensures var k := LastGood(w, lines);
            && (k > 0 ==> HeadOf(w, lines[k - 1]) != "")
            && forall i | k <= i < |lines| :: HeadOf(w, lines[i]) == ""
  {
    hide HeadOf;
    if lines != [] && HeadOf(w, lines[|lines| - 1]) == "" {
      LastGoodMeaning(w, lines[..|lines| - 1]);
    }
  }

  /** The prev of the next record: chained from the last complete one. */
  function SidecarPrev(w: Wire, side: Bytes): string {
    if Lines(side) == [] then Genesis() else PrevAfter(w, Lines(side)[|Lines(side)| - 1])
  }

  predicate SidecarFits(side: Bytes) {
    forall i | 0 <= i < |Lines(side)| :: |Lines(side)[i]| <= RECORD_CAP
  }

  /** The state right after the stream's one full read, before any resume record. */
  function FullRead(w: Wire, side: Bytes, stream: Bytes, m: Moment): Ck {
    var whole := Whole(stream);
    Ck(whole, if whole == [] then None else Some(whole), |whole|, |Lines(stream)|, LastHead(w, stream),
       SidecarPrev(w, side), 0, m.due, |Whole(side)|)
  }

  /** A resume record is due: the last newline-terminated line is not an event, and an earlier one is. */
  predicate ResumeDue(w: Wire, stream: Bytes) {
    Lines(stream) != [] && LastHead(w, stream) == "" && LastGood(w, Lines(stream)) > 0
  }

  /** openCheckpointer: the torn tail of the sidecar cut, the stream hashed, a resume record if one is due.
      ok is false when the writer could not be opened. */
  function Opened(w: Wire, n: Notary, cfg: Config, side: Bytes, stream: Bytes, m: Moment): Step {
    var c := FullRead(w, side, stream, m);
    if !SidecarFits(side) then Step(c, side, false)
    else if !AllHashable(w, stream) then Step(c, Whole(side), false)
    else if ResumeDue(w, stream) then
      var k := LastGood(w, Lines(stream));
      Written(w, n, cfg, c, Whole(side), RESUME, k, HeadAt(w, stream, k), DigestAt(w, stream, k), m)
    else Step(c, Whole(side), true)
  }
}
