/** VerifyCheckpoints: every record of a sidecar against the stream it names, in one pass over the stream. */
module Checkpoints {
  import opened Bytes
  import opened Wrappers
  import opened Wire
  import opened Tail
  import opened Scan
  import opened Record

  datatype RecordLine = RecordLine(raw: Bytes, long: bool)

  /** The complete lines of a sidecar. A line over the cap keeps no bytes. */
  function RecordLines(side: Bytes): (r: seq<RecordLine>)
    ensures |r| == |Lines(side)|
  {
    seq(|Lines(side)|, i requires 0 <= i < |Lines(side)| => RecordLineOf(Lines(side)[i]))
  }

  function RecordLineOf(line: Bytes): RecordLine {
    RecordLine(if |line| > RECORD_CAP then [] else line, |line| > RECORD_CAP)
  }

  /** The prev a record after raw must carry; an empty line is no record to chain from. */
  function PrevAfter(w: Wire, raw: Bytes): string {
    if raw == [] then Genesis() else HashText(Sha(w, raw))
  }

  function ExpectedPrev(w: Wire, recs: seq<RecordLine>, i: nat): string
    requires i <= |recs|
  {
    if i == 0 then Genesis() else PrevAfter(w, recs[i - 1].raw)
  }

  // ---------------------------------------------------------------- the reference: one record, the whole stream

  /** The head of a line: its chain hash, "" when it is not a well-formed event. */
  function HeadOf(w: Wire, line: Bytes): string {
    if WellFormedLine(w, line) && ChainHashRaw(w, TrimSpace(line)).Some?
    then ChainHashRaw(w, TrimSpace(line)).value else ""
  }

  function HeadAt(w: Wire, stream: Bytes, k: int): string
    requires 1 <= k <= |Lines(stream)|
  {
    HeadOf(w, Lines(stream)[k - 1])
  }

  function DigestAt(w: Wire, stream: Bytes, k: int): Bytes
    requires 1 <= k <= |Lines(stream)|
  {
    Sha(w, Through(stream, k))
  }

  /** The head of every line of a stream, by splitting the whole stream. */
  function AllHeads(w: Wire, stream: Bytes): map<int, string> {
    map k: int | 1 <= k <= |Lines(stream)| :: HeadAt(w, stream, k)
  }

  /** The digest of the stream through each line, hashed from its first byte. */
  function AllPrefixes(w: Wire, stream: Bytes): map<int, Bytes> {
    map k: int | 1 <= k <= |Lines(stream)| :: DigestAt(w, stream, k)
  }

  /** The verdict on one record alone: split and hash the whole stream for it. */
  function VerdictAlone(w: Wire, n: Notary, stream: Bytes, rec: RecordLine, expectPrev: string,
                        name: string, keys: map<string, Key>): Verdict
  {
    CheckRecord(n, rec.raw, rec.long, |Lines(stream)|, AllHeads(w, stream), AllPrefixes(w, stream), expectPrev, name,
        keys)
  }

  datatype CheckpointResult = CheckpointResult(index: nat, kind: string, count: int, verdict: Verdict)

  datatype Outcome =
    | SidecarUnreadable
    | NoCheckpoints
    | StreamUnreadable
    | Report(streamLines: nat, records: seq<CheckpointResult>)

  function ResultAlone(w: Wire, n: Notary, stream: Bytes, recs: seq<RecordLine>, i: nat,
                       name: string, keys: map<string, Key>): CheckpointResult
    requires i < |recs|
  {
    CheckpointResult(i + 1, Peek(n, recs[i].raw).0, Peek(n, recs[i].raw).1,
                     VerdictAlone(w, n, stream, recs[i], ExpectedPrev(w, recs, i), name, keys))
  }

  /** A line some record counts to is an event whose hash cannot be taken. */
  ghost predicate NeededUnhashable(w: Wire, n: Notary, stream: Bytes, recs: seq<RecordLine>) {
    exists i | 0 <= i < |recs| :: CountsUnhashable(w, stream, Peek(n, recs[i].raw).1)
  }

  predicate CountsUnhashable(w: Wire, stream: Bytes, k: int) {
    1 <= k <= |Lines(stream)| && Unhashable(w, Lines(stream)[k - 1])
  }

  predicate Unhashable(w: Wire, line: Bytes) {
    WellFormedLine(w, line) && ChainHashRaw(w, TrimSpace(line)).None?
  }

  // ---------------------------------------------------------------- what a verdict rests on

  /** Everything a record written by a writer must satisfy to be accepted, and nothing else. */
  ghost predicate Holds(w: Wire, n: Notary, stream: Bytes, r: Record, expectPrev: string, name: string,
                        keys: map<string, Key>) {
    var f := r.fields;
    && (f.kind == CHECKPOINT || f.kind == CLOSE_KIND || f.kind == RESUME)
    && f.stream == name
    && 1 <= f.count <= |Lines(stream)|
    && f.head != "" && f.head == HeadAt(w, stream, f.count)
    && f.prefix == HashText(DigestAt(w, stream, f.count))
    && f.prev == expectPrev
    && IsTimestamp(f.at)
    && (r.Signed? ==> |r.sig| == 64 && r.kid in keys && Verifies(n, keys[r.kid], SigningInput(n, f, r.kid), r.sig))
  }

  lemma HeadIsHashText(w: Wire, line: Bytes)
    requires Lawful(w)
    ensures HeadOf(w, line) != "" ==> IsHashText(HeadOf(w, line))
  {
    hide IsHashText, HashText, TrimSpace;
    var c := CanonicalizeRaw(w, TrimSpace(line));
    if c.Some? { HashTextForm(Sha(w, c.value)); }
  }

  /** A record as encoded is accepted exactly when all of Holds does: no check is missing, none is extra. */
  lemma AcceptedExactlyWhenHolds(w: Wire, n: Notary, stream: Bytes, r: Record, expectPrev: string,
                                 name: string, keys: map<string, Key>)
    requires Lawful(w) && NotaryLaws(n) && Recordable(r)
    ensures var v := VerdictAlone(w, n, stream, RecordLine(Encode(n, r), false), expectPrev, name, keys);
            && (v == (if r.Signed? then Valid else UnsignedRecord) <==> Holds(w, n, stream, r, expectPrev, name, keys))
            && (v.Refused? <==> !Holds(w, n, stream, r, expectPrev, name, keys))
  {
    hide IsHashText, IsTimestamp, HashText, Lines, HeadAt, DigestAt;
    var c := r.fields.count;
    if 1 <= c <= |Lines(stream)| {
      HeadTexts(w, stream, c);
    }
  }

  /** A record whose prefix alone is wrong is refused for its prefix. */
  lemma RefusedForItsPrefix(w: Wire, n: Notary, stream: Bytes, r: Record, expectPrev: string,
                            name: string, keys: map<string, Key>, digest: string)
    requires Lawful(w) && NotaryLaws(n) && Recordable(r) && IsHashText(r.fields.prefix)
    requires 1 <= r.fields.count <= |Lines(stream)|
    requires r.fields.prefix != digest && digest == HashText(DigestAt(w, stream, r.fields.count))
    requires && (r.fields.kind == CHECKPOINT || r.fields.kind == CLOSE_KIND || r.fields.kind == RESUME)
             && r.fields.stream == name && r.fields.head != "" && r.fields.head == HeadAt(w, stream, r.fields.count)
    ensures VerdictAlone(w, n, stream, RecordLine(Encode(n, r), false), expectPrev, name, keys) == Refused(OtherPrefix)
  {
    hide IsHashText, IsTimestamp, HashText, Lines, HeadAt, DigestAt, CheckSignature;
    HeadTexts(w, stream, r.fields.count);
  }

  lemma HeadTexts(w: Wire, stream: Bytes, k: int)
    requires Lawful(w) && 1 <= k <= |Lines(stream)|
    ensures HeadAt(w, stream, k) != "" ==> IsHashText(HeadAt(w, stream, k))
    ensures IsHashText(HashText(DigestAt(w, stream, k)))
  {
    hide IsHashText, HashText, Lines, Through, HeadOf;
    HeadIsHashText(w, Lines(stream)[k - 1]);
    HashTextForm(DigestAt(w, stream, k));
  }

  /** The line a record counts to, and the bytes through it, are the same in every extension. */
  lemma LineStable(w: Wire, stream: Bytes, more: Bytes, k: int)
    requires 1 <= k <= |Lines(stream)|
    ensures k <= |Lines(stream + more)|
    ensures HeadAt(w, stream + more, k) == HeadAt(w, stream, k)
    ensures DigestAt(w, stream + more, k) == DigestAt(w, stream, k)
  {
    hide Lines, Through, HeadOf;
    ThroughStable(stream, more, k);
    assert Lines(stream)[k - 1] == Lines(stream)[..k][k - 1];
    assert Lines(stream + more)[k - 1] == Lines(stream + more)[..k][k - 1];
  }

  /** Whatever the verdict on a record is, unless it is a truncation, no extension of the stream changes it. */
  lemma VerdictStable(w: Wire, n: Notary, stream: Bytes, more: Bytes, rec: RecordLine, expectPrev: string,
                      name: string, keys: map<string, Key>)
    requires VerdictAlone(w, n, stream, rec, expectPrev, name, keys) != Refused(Truncation)
    ensures VerdictAlone(w, n, stream + more, rec, expectPrev, name, keys) ==
            VerdictAlone(w, n, stream, rec, expectPrev, name, keys)
  {
    hide IsHashText, IsTimestamp, HashText, CheckSignature, Lines, HeadAt, DigestAt;
    SplitConcat(stream, more);
    var v := ViewOf(n, rec.raw);
    if v.Object? && v.members.count.Some? {
      var c := v.members.count.value;
      if 1 <= c <= |Lines(stream)| {
        LineStable(w, stream, more, c);
      }
    }
  }

  /** A record accepted against two streams forces them to be byte-equal through its last line. */
  lemma AcceptedFixesThePrefix(w: Wire, n: Notary, s1: Bytes, s2: Bytes, rec: RecordLine,
                               prev1: string, prev2: string, name1: string, name2: string,
                               keys1: map<string, Key>, keys2: map<string, Key>)
    requires PeekLaw(n)
    requires !VerdictAlone(w, n, s1, rec, prev1, name1, keys1).Refused?
    requires !VerdictAlone(w, n, s2, rec, prev2, name2, keys2).Refused?
    ensures var c := Peek(n, rec.raw).1;
            && 1 <= c <= |Lines(s1)| && c <= |Lines(s2)|
            && ((Through(s1, c) == Through(s2, c) && Lines(s1)[..c] == Lines(s2)[..c])
                || Collision(w, Through(s1, c), Through(s2, c)))
  {
    hide IsHashText, IsTimestamp, CheckSignature, Lines, HeadAt, HashText, Through;
    var c := Peek(n, rec.raw).1;
    assert HashText(DigestAt(w, s1, c)) == HashText(DigestAt(w, s2, c));
    HashTextTellsApart(w, Through(s1, c), Through(s2, c));
    if Through(s1, c) == Through(s2, c) {
      ThroughDetermines(s1, s2, c);
    }
  }

  // ---------------------------------------------------------------- what a verdict says of the bytes read

  /** The hash SPEC 6.5 gives a line that is an event of at most 4 MiB. */
  function EventHash(w: Wire, line: Bytes): Option<string> {
    if |line| <= 0x40_0000 && Unmarshal(w, TrimSpace(line)).Some? then ChainHashRaw(w, TrimSpace(line)) else None
  }

  predicate SignedForm(m: Members) { m.alg.Some? && m.kid.Some? && m.sig.Some? && m.reason.None? }

  predicate UnsignedForm(m: Members) { m.alg.None? && m.kid.None? && m.sig.None? && m.reason.Some? }

  /** The members of a record, if it is read as one. */
  function MembersIn(n: Notary, raw: Bytes): Members {
    if ViewOf(n, raw).Object? then ViewOf(n, raw).members
    else Members(None, None, None, None, None, None, None, None, None, None, None, None)
  }

  /** A record of format v1, for this stream. */
  ghost predicate Formed(n: Notary, rec: RecordLine, name: string) {
    && !rec.long && ViewOf(n, rec.raw).Object?
    && var m := ViewOf(n, rec.raw).members;
    && m.v == Some(1) && m.kind in {Some("checkpoint"), Some("close"), Some("resume")} && m.stream == Some(name)
    && m.count.Some? && m.count.value >= 1
    && m.head.Some? && m.prefix.Some? && m.at.Some? && m.prev.Some?
    && (SignedForm(m) || UnsignedForm(m))
  }

  /** Its head is the chain hash of the line it counts to. */
  ghost predicate HeadRight(w: Wire, stream: Bytes, m: Members)
    requires m.count.Some? && 1 <= m.count.value <= |Lines(stream)|
  {
    m.head.Some? && EventHash(w, Lines(stream)[m.count.value - 1]) == m.head
  }

  /** Its prefix is the digest of the stream through that line's LF. */
  ghost predicate PrefixRight(w: Wire, stream: Bytes, m: Members)
    requires m.count.Some? && 1 <= m.count.value <= |Lines(stream)|
  {
    m.prefix == Some("sha256:" + Hex(Sha(w, Through(stream, m.count.value))))
  }

  ghost predicate TimeRight(m: Members) { m.at.Some? && IsTimestamp(m.at.value) }

  /** An ES256 signature of 64 bytes, over the record without it, under a key the verifier holds. */
  ghost predicate SignatureRight(n: Notary, raw: Bytes, m: Members, keys: map<string, Key>) {
    && m.alg == Some("ES256") && m.kid.Some? && m.kid.value in keys && m.sig.Some?
    && Unbase64(n, m.sig.value).Some? && |Unbase64(n, m.sig.value).value| == 64
    && WithoutSig(n, raw).Some?
    && Verifies(n, keys[m.kid.value], WithoutSig(n, raw).value, Unbase64(n, m.sig.value).value)
  }

  /** The verdict on any line of a sidecar, whoever wrote it. The refusal is that of the first of these that fails, in
      the order of SPEC 6.5.1: form, count against the stream, head, prefix, prev, time, signature or reason. */
  lemma VerdictMeaning(w: Wire, n: Notary, stream: Bytes, rec: RecordLine, expectPrev: string,
                       name: string, keys: map<string, Key>)
    requires Lawful(w)
    ensures var v, m := VerdictAlone(w, n, stream, rec, expectPrev, name, keys), MembersIn(n, rec.raw);
            var misformed :=
              {OverCap, NotAnObject, NonCanonical, BadType, BadMembers, BadVersion, BadKind, OtherStream, BadCount};
            && (!Formed(n, rec, name) <==> v.Refused? && v.why in misformed)
            && (Formed(n, rec, name) && m.count.value > |Lines(stream)| <==> v == Refused(Truncation))
            && (Formed(n, rec, name) && m.count.value <= |Lines(stream)| ==>
                  var head, prefix := HeadRight(w, stream, m), PrefixRight(w, stream, m);
                  && (!head <==> v.Refused? && v.why in {BadHead, NoHead, OtherHead})
                  && (head && !prefix <==> v.Refused? && v.why in {BadPrefix, OtherPrefix})
                  && (head && prefix ==> JudgedLast(n, rec.raw, m, expectPrev, keys, v)))
  {
    hide Lines, Through, TrimSpace, IsHashText, IsTimestamp, HashText, CheckSignature, JudgedLast, CheckRecord;
    var view := ViewOf(n, rec.raw);
    if Formed(n, rec, name) {
      FormedIsChecked(w, n, stream, rec, expectPrev, name, keys);
      if view.members.count.value <= |Lines(stream)| {
        HeadIsEventHash(w, Lines(stream)[view.members.count.value - 1]);
        HeadTexts(w, stream, view.members.count.value);
        PrefixText(w, Through(stream, view.members.count.value));
        SignatureLast(n, rec.raw, view.members, expectPrev, keys);
      }
    } else {
      MisformedIsRefused(w, n, stream, rec, expectPrev, name, keys);
    }
  }

  /** The last checks: prev, time, then the signature, or the one reason v1 has for none. */
  ghost predicate JudgedLast(n: Notary, raw: Bytes, m: Members, expectPrev: string, keys: map<string, Key>,
                             v: Verdict) {
    && (v == Refused(OtherPrev) <==> m.prev != Some(expectPrev))
    && (v == Refused(BadAt) <==> m.prev == Some(expectPrev) && !TimeRight(m))
    && (m.prev == Some(expectPrev) && TimeRight(m) ==>
          if SignedForm(m) then
            && (v == Valid <==> SignatureRight(n, raw, m, keys)) && v != UnsignedRecord
            && (v.Refused? ==> v.why in {BadAlg, BadSig, UnknownKey, NotSerializable, BadSignature})
          else v == if m.reason == Some("key_expired") then UnsignedRecord else Refused(BadReason))
  }

  /** The checks after the prefix. */
  function LastChecks(n: Notary, raw: Bytes, m: Members, expectPrev: string, keys: map<string, Key>): Verdict
    requires m.at.Some? && m.prev.Some? && (SignedForm(m) || UnsignedForm(m))
  {
    if m.prev.value != expectPrev then Refused(OtherPrev)
    else if !IsTimestamp(m.at.value) then Refused(BadAt)
    else if UnsignedForm(m) then
      if m.reason.value != KEY_EXPIRED then Refused(BadReason) else UnsignedRecord
    else CheckSignature(n, raw, m.alg.value, m.kid.value, m.sig.value, keys)
  }

  lemma SignatureLast(n: Notary, raw: Bytes, m: Members, expectPrev: string, keys: map<string, Key>)
    requires m.at.Some? && m.prev.Some? && (SignedForm(m) || UnsignedForm(m))
    ensures JudgedLast(n, raw, m, expectPrev, keys, LastChecks(n, raw, m, expectPrev, keys))
    ensures var v := LastChecks(n, raw, m, expectPrev, keys);
            v.Refused? ==> v.why in {OtherPrev, BadAt, BadReason, BadAlg, BadSig, UnknownKey, NotSerializable,
                BadSignature}
  {
    hide IsTimestamp;
  }

  lemma FormedIsChecked(w: Wire, n: Notary, stream: Bytes, rec: RecordLine, expectPrev: string,
                        name: string, keys: map<string, Key>)
    requires Formed(n, rec, name)
    ensures var v, m := VerdictAlone(w, n, stream, rec, expectPrev, name, keys), ViewOf(n, rec.raw).members;
            var c := m.count.value;
            v == if c > |Lines(stream)| then Refused(Truncation)
                 else if !IsHashText(m.head.value) then Refused(BadHead)
                 else if HeadAt(w, stream, c) == "" then Refused(NoHead)
                 else if m.head.value != HeadAt(w, stream, c) then Refused(OtherHead)
                 else if !IsHashText(m.prefix.value) then Refused(BadPrefix)
                 else if m.prefix.value != HashText(DigestAt(w, stream, c)) then Refused(OtherPrefix)
                 else LastChecks(n, rec.raw, m, expectPrev, keys)
  {
    hide Lines, HeadAt, DigestAt, IsHashText, IsTimestamp, HashText, CheckSignature;
  }

  lemma MisformedIsRefused(w: Wire, n: Notary, stream: Bytes, rec: RecordLine, expectPrev: string,
                           name: string, keys: map<string, Key>)
    requires !Formed(n, rec, name)
    ensures var v := VerdictAlone(w, n, stream, rec, expectPrev, name, keys);
            v.Refused?
            && v.why in {OverCap, NotAnObject, NonCanonical, BadType, BadMembers, BadVersion, BadKind, OtherStream,
                BadCount}
  {
    hide Lines, HeadAt, DigestAt, IsHashText, IsTimestamp, HashText, CheckSignature, AllHeads, AllPrefixes;
  }

  lemma HeadIsEventHash(w: Wire, line: Bytes)
    ensures HeadOf(w, line) != "" <==> EventHash(w, line).Some?
    ensures EventHash(w, line).Some? ==> HeadOf(w, line) == EventHash(w, line).value
  {
    hide TrimSpace;
  }

  lemma PrefixText(w: Wire, b: Bytes)
    ensures HashText(Sha(w, b)) == "sha256:" + Hex(Sha(w, b))
  {
  }

  /** The hash the record after these bytes must carry. */
  function ChainsFrom(w: Wire, recs: seq<RecordLine>, i: nat): string
    requires i < |recs|
  {
    if i == 0 || recs[i - 1].raw == [] then "sha256:" + seq(64, _ => '0') else "sha256:" + Hex(Sha(w, recs[i - 1].raw))
  }

  /** VerifyCheckpoints' verdict on record i of any sidecar, accepted or not: valid exactly when it is formed, counts
      within the stream, names the right head, prefix, prev and a time, and is signed under a held key; unsigned
      exactly when all this holds and it carries, instead of a signature, the one reason v1 has. */
  lemma AcceptedMeans(w: Wire, n: Notary, stream: Bytes, recs: seq<RecordLine>, i: nat, name: string,
                      keys: map<string, Key>)
    requires Lawful(w) && i < |recs|
    ensures var v, view := ResultAlone(w, n, stream, recs, i, name, keys).verdict, ViewOf(n, recs[i].raw);
            var told := Formed(n, recs[i], name) && Tells(w, stream, view.members, ChainsFrom(w, recs, i));
            && (v == Valid <==> told && SignedForm(view.members) && SignatureRight(n, recs[i].raw, view.members, keys))
            && (v == UnsignedRecord <==>
                  told && UnsignedForm(view.members) && view.members.reason == Some("key_expired"))
  {
    hide Formed, HeadRight, PrefixRight, TimeRight, SignatureRight, VerdictAlone, HashText, Lines;
    VerdictMeaning(w, n, stream, recs[i], ExpectedPrev(w, recs, i), name, keys);
    SamePrev(w, recs, i);
    if Formed(n, recs[i], name) {
      FormOrForm(n, recs[i], name);
    }
  }

  /** What a formed record says of the stream and of the record before it. */
  ghost predicate Tells(w: Wire, stream: Bytes, m: Members, prev: string) {
    && m.count.Some? && 1 <= m.count.value <= |Lines(stream)|
    && HeadRight(w, stream, m) && PrefixRight(w, stream, m) && m.prev == Some(prev) && TimeRight(m)
  }

  lemma SamePrev(w: Wire, recs: seq<RecordLine>, i: nat)
    requires i < |recs|
    ensures ExpectedPrev(w, recs, i) == ChainsFrom(w, recs, i)
  {
  }

  lemma FormOrForm(n: Notary, rec: RecordLine, name: string)
    requires Formed(n, rec, name)
    ensures ViewOf(n, rec.raw).Object? && ViewOf(n, rec.raw).members.count.Some?
    ensures ViewOf(n, rec.raw).members.count.value >= 1
    ensures var m := ViewOf(n, rec.raw).members; SignedForm(m) <==> !UnsignedForm(m)
  {
  }

  /** One record accepted in two sidecars, as record i of the one and j of the other, makes the records before it the
      same, or exhibits a collision: the sidecar cannot be cut or altered behind a record that stays. */
  lemma AcceptedFixesTheRecordBefore(w: Wire, n: Notary, s1: Bytes, s2: Bytes, a: seq<RecordLine>, b: seq<RecordLine>,
                                     i: nat, j: nat, name: string, keys: map<string, Key>)
    requires Lawful(w) && 0 < i < |a| && 0 < j < |b| && a[i] == b[j] && a[i - 1].raw != [] && b[j - 1].raw != []
    requires !ResultAlone(w, n, s1, a, i, name, keys).verdict.Refused?
    requires !ResultAlone(w, n, s2, b, j, name, keys).verdict.Refused?
    ensures a[i - 1].raw == b[j - 1].raw || Collision(w, a[i - 1].raw, b[j - 1].raw)
  {
    hide Formed, SignatureRight, ResultAlone, Lines, HeadRight, PrefixRight, TimeRight, SignedForm, UnsignedForm, Hex;
    AcceptedMeans(w, n, s1, a, i, name, keys);
    AcceptedMeans(w, n, s2, b, j, name, keys);
    HashTextTellsApart(w, a[i - 1].raw, b[j - 1].raw);
  }

  // ---------------------------------------------------------------- the single pass

  /** What the pass has collected: the right head and digest for every line it was told it will need. */
  ghost predicate Collected(w: Wire, stream: Bytes, done: nat, needed: set<nat>,
                            headAt: map<int, string>, prefixAt: map<int, Bytes>)
    requires done <= |Lines(stream)|
  {
    forall k: nat :: k in needed && 1 <= k <= done ==>
      TextAt(headAt, k) == HeadAt(w, stream, k) && BytesAt(prefixAt, k) == DigestAt(w, stream, k)
  }

  method VerifyCheckpoints(w: Wire, n: Notary, streamReads: seq<Bytes>, streamFaults: bool,
                           sideReads: seq<Bytes>, sideFaults: bool, name: string, keys: map<string, Key>)
    returns (r: Outcome)
    requires PeekLaw(n)
    ensures var stream, recs := Concat(streamReads), RecordLines(Concat(sideReads));
            && (r == SidecarUnreadable <==> sideFaults)
            && (r == NoCheckpoints <==> !sideFaults && recs == [])
            && (r == StreamUnreadable <==>
                  !sideFaults && recs != [] && (streamFaults || NeededUnhashable(w, n, stream, recs)))
            && (r.Report? ==>
                  && r.streamLines == |Lines(stream)|
                  && |r.records| == |recs|
                  && forall i | 0 <= i < |recs| :: r.records[i] == ResultAlone(w, n, stream, recs, i, name, keys))
  {
    hide Lines, Concat, RecordLines, FirstRefused, Through, PeekLaw, NeededUnhashable, EmittedFrom, ResultAlone;
    ghost var stream := Concat(streamReads);
    var recs, readable := ReadSidecar(sideReads, sideFaults);
    if !readable {
      return SidecarUnreadable;
    }
    if recs == [] {
      return NoCheckpoints;
    }
    var needed := Needed(n, recs);
    var ss := new LineScanner([], 0, None, 0, RESUME_WINDOW, false);
    var emitted, ok := ss.Run(streamReads, streamFaults, OnlyHashableAmong(w, needed));
    NeededRefused(w, n, stream, recs);
    if !ok {
      return StreamUnreadable;
    }
    var headAt, prefixAt := Collect(w, stream, needed, emitted);
    var records := JudgeRecords(w, n, stream, |emitted|, recs, headAt, prefixAt, name, keys);
    return Report(|emitted|, records);
  }

  method JudgeRecords(w: Wire, n: Notary, ghost stream: Bytes, lines: nat, recs: seq<RecordLine>,
                      headAt: map<int, string>, prefixAt: map<int, Bytes>, name: string, keys: map<string, Key>)
    returns (records: seq<CheckpointResult>)
    requires PeekLaw(n) && lines == |Lines(stream)|
    requires Collected(w, stream, lines, Needed(n, recs), headAt, prefixAt)
    ensures |records| == |recs|
    ensures forall i | 0 <= i < |recs| :: records[i] == ResultAlone(w, n, stream, recs, i, name, keys)
  {
    hide Lines, CheckRecord, PeekLaw, Collected, Needed, Genesis, ResultAlone;
    records := [];
    var i := 0;
    while i < |recs|
      invariant i <= |recs| && |records| == i
      invariant forall j | 0 <= j < i :: records[j] == ResultAlone(w, n, stream, recs, j, name, keys)
    {
      var peeked := Peek(n, recs[i].raw);
      var expectPrev := Genesis();
      if i > 0 && recs[i - 1].raw != [] {
        expectPrev := HashText(Sha(w, recs[i - 1].raw));
      }
      JudgedAlone(w, n, stream, recs, i, headAt, prefixAt, name, keys);
      var verdict := CheckRecord(n, recs[i].raw, recs[i].long, lines, headAt, prefixAt, expectPrev, name, keys);
      records := records + [CheckpointResult(i + 1, peeked.0, peeked.1, verdict)];
      i := i + 1;
    }
  }

  lemma JudgedAlone(w: Wire, n: Notary, stream: Bytes, recs: seq<RecordLine>, i: nat,
                    headAt: map<int, string>, prefixAt: map<int, Bytes>, name: string, keys: map<string, Key>)
    requires PeekLaw(n) && i < |recs|
    requires Collected(w, stream, |Lines(stream)|, Needed(n, recs), headAt, prefixAt)
    ensures ResultAlone(w, n, stream, recs, i, name, keys)
            == CheckpointResult(i + 1, Peek(n, recs[i].raw).0, Peek(n, recs[i].raw).1,
                                CheckRecord(n, recs[i].raw, recs[i].long, |Lines(stream)|, headAt, prefixAt,
                                            ExpectedPrev(w, recs, i), name, keys))
  {
    hide Lines, CheckRecord, PeekLaw, Collected, Needed, VerdictAlone, ExpectedPrev;
    CollectedIsEnough(w, n, stream, recs, i, headAt, prefixAt, name, keys);
  }

  /** readSidecar: the complete lines, in order; a torn last line is not a record. */
  method ReadSidecar(chunks: seq<Bytes>, faults: bool) returns (recs: seq<RecordLine>, readable: bool)
    ensures readable <==> !faults
    ensures readable ==> recs == RecordLines(Concat(chunks))
  {
    hide Lines, Concat, Through, FirstRefused;
    ghost var side := Concat(chunks);
    var sc := new LineScanner([], 0, None, 0, RECORD_CAP, false);
    var emitted;
    emitted, readable := sc.Run(chunks, faults, Any);
    AnyAccepts(EmittedFrom([], 0, RECORD_CAP, side));
    recs := [];
    if readable {
      recs := seq(|emitted|, i requires 0 <= i < |emitted| => RecordLine(emitted[i].line, emitted[i].long));
      assert forall i | 0 <= i < |emitted| :: emitted[i] == EmittedAt([], 0, RECORD_CAP, side, i);
    }
  }

  lemma AnyAccepts(emitted: seq<Emitted>)
    ensures FirstRefused(Any, 0, emitted) == |emitted|
  {
    FirstRefusedIs(Any, 0, emitted, |emitted|);
  }

  /** The counts the records name. */
  function Needed(n: Notary, recs: seq<RecordLine>): set<nat> {
    set i | 0 <= i < |recs| && Peek(n, recs[i].raw).1 >= 1 :: Peek(n, recs[i].raw).1 as nat
  }

  method Collect(w: Wire, ghost stream: Bytes, needed: set<nat>, emitted: seq<Emitted>)
    returns (headAt: map<int, string>, prefixAt: map<int, Bytes>)
    requires emitted == EmittedFrom([], 0, RESUME_WINDOW, stream)
    requires forall k: nat :: k in needed ==> !CountsUnhashable(w, stream, k)
    ensures Collected(w, stream, |Lines(stream)|, needed, headAt, prefixAt)
  {
    hide Lines, HeadAt, DigestAt, TrimSpace, EmittedFrom, WellFormedLine, Collected;
    headAt, prefixAt := map[], map[];
    NothingCollected(w, stream, needed);
    var i := 0;
    while i < |emitted|
      invariant i <= |emitted|
      invariant forall k :: k in headAt ==> 1 <= k <= i
      invariant Collected(w, stream, i, needed, headAt, prefixAt)
    {
      HeadOfEmitted(w, stream, i);
      ghost var heads, prefixes := headAt, prefixAt;
      var e := emitted[i];
      i := i + 1;
      if i in needed {
        prefixAt := prefixAt[i := Sha(w, e.sum)];
        if !e.long && WellFormedLine(w, e.line) {
          var h := ChainHashRaw(w, TrimSpace(e.line));
          if h.Some? {
            headAt := headAt[i := h.value];
          }
        }
      }
      OneCollected(w, stream, needed, i - 1, heads, prefixes, headAt, prefixAt);
    }
  }

  lemma NothingCollected(w: Wire, stream: Bytes, needed: set<nat>)
    ensures Collected(w, stream, 0, needed, map[], map[])
  {
  }

  lemma OneCollected(w: Wire, stream: Bytes, needed: set<nat>, i: nat, heads: map<int, string>,
                     prefixes: map<int, Bytes>, headAt: map<int, string>, prefixAt: map<int, Bytes>)
    requires i < |Lines(stream)| && Collected(w, stream, i, needed, heads, prefixes)
    requires forall k | k != i + 1 ::
               TextAt(headAt, k) == TextAt(heads, k) && BytesAt(prefixAt, k) == BytesAt(prefixes, k)
    requires i + 1 in needed ==>
               && TextAt(headAt, i + 1) == HeadAt(w, stream, i + 1)
               && BytesAt(prefixAt, i + 1) == DigestAt(w, stream, i + 1)
    ensures Collected(w, stream, i + 1, needed, headAt, prefixAt)
  {
    hide Lines, HeadAt, DigestAt;
  }

  /** The hash and the line at emit are those of the whole stream through that line. */
  lemma HeadOfEmitted(w: Wire, stream: Bytes, i: nat)
    requires i < |Lines(stream)|
    ensures var e := EmittedFrom([], 0, RESUME_WINDOW, stream)[i];
            && Sha(w, e.sum) == DigestAt(w, stream, i + 1)
            && HeadAt(w, stream, i + 1) ==
               (if !e.long && WellFormedLine(w, e.line) && ChainHashRaw(w, TrimSpace(e.line)).Some?
                then ChainHashRaw(w, TrimSpace(e.line)).value else "")
  {
    hide Lines, Through, TrimSpace;
    assert EmittedFrom([], 0, RESUME_WINDOW, stream)[i] == EmittedAt([], 0, RESUME_WINDOW, stream, i);
    assert [] + Through(stream, i + 1) == Through(stream, i + 1);
  }

  /** emit refuses a line exactly when a record needs it and its hash cannot be taken. */
  lemma NeededRefused(w: Wire, n: Notary, stream: Bytes, recs: seq<RecordLine>)
    ensures var emitted := EmittedFrom([], 0, RESUME_WINDOW, stream);
            (FirstRefused(OnlyHashableAmong(w, Needed(n, recs)), 0, emitted) == |Lines(stream)|)
            <==> !NeededUnhashable(w, n, stream, recs)
    ensures !NeededUnhashable(w, n, stream, recs) ==>
            forall k: nat :: k in Needed(n, recs) ==> !CountsUnhashable(w, stream, k)
  {
    hide Lines, CountsUnhashable, EmittedFrom, Needed, Accepts, FirstRefused;
    var needed := Needed(n, recs);
    NeededMeaning(n, recs);
    if NeededUnhashable(w, n, stream, recs) {
      var i :| 0 <= i < |recs| && CountsUnhashable(w, stream, Peek(n, recs[i].raw).1);
      var k := Peek(n, recs[i].raw).1;
      assert 1 <= k <= |Lines(stream)| by { CountsMeaning(w, stream, k); }
      EmittedUnhashable(w, needed, stream, k - 1);
      RefusedOnce(OnlyHashableAmong(w, needed), 0, EmittedFrom([], 0, RESUME_WINDOW, stream), k - 1);
    } else {
      var emitted := EmittedFrom([], 0, RESUME_WINDOW, stream);
      forall i | 0 <= i < |emitted|
        ensures Accepts(OnlyHashableAmong(w, needed), i + 1, emitted[i].line, emitted[i].long)
      {
        EmittedUnhashable(w, needed, stream, i);
      }
      FirstRefusedIs(OnlyHashableAmong(w, needed), 0, emitted, |emitted|);
    }
  }

  lemma NeededMeaning(n: Notary, recs: seq<RecordLine>)
    ensures forall k: nat :: k in Needed(n, recs) <==>
              k >= 1 && exists i | 0 <= i < |recs| :: Peek(n, recs[i].raw).1 == k
  {
  }

  lemma CountsMeaning(w: Wire, stream: Bytes, k: int)
    requires CountsUnhashable(w, stream, k)
    ensures 1 <= k <= |Lines(stream)|
  {
    hide Lines;
  }

  lemma EmittedUnhashable(w: Wire, needed: set<nat>, stream: Bytes, i: nat)
    requires i < |Lines(stream)|
    ensures var e := EmittedFrom([], 0, RESUME_WINDOW, stream)[i];
            Accepts(OnlyHashableAmong(w, needed), i + 1, e.line, e.long) <==>
            !(i + 1 in needed && CountsUnhashable(w, stream, i + 1))
  {
    hide Lines, Through, TrimSpace, ChainHashRaw;
    assert EmittedFrom([], 0, RESUME_WINDOW, stream)[i] == EmittedAt([], 0, RESUME_WINDOW, stream, i);
  }

  lemma {:induction false} RefusedOnce(emit: Emit, before: nat, emitted: seq<Emitted>, i: nat)
    requires i < |emitted| && !Accepts(emit, before + i + 1, emitted[i].line, emitted[i].long)
    ensures FirstRefused(emit, before, emitted) <= i
  {
    hide Accepts;
    var n := |emitted| - 1;
    if i < n {
      RefusedOnce(emit, before, emitted[..n], i);
    }
  }

  /** The needed lines are all a verdict ever looks at. */
  lemma CollectedIsEnough(w: Wire, n: Notary, stream: Bytes, recs: seq<RecordLine>, i: nat,
                          headAt: map<int, string>, prefixAt: map<int, Bytes>, name: string, keys: map<string, Key>)
    requires PeekLaw(n) && i < |recs|
    requires Collected(w, stream, |Lines(stream)|, Needed(n, recs), headAt, prefixAt)
    ensures CheckRecord(n, recs[i].raw, recs[i].long, |Lines(stream)|, headAt, prefixAt,
                        ExpectedPrev(w, recs, i), name, keys) ==
            VerdictAlone(w, n, stream, recs[i], ExpectedPrev(w, recs, i), name, keys)
  {
    hide Lines, Through, HeadAt, DigestAt, CheckRecord, PeekLaw, Needed;
    var c := Peek(n, recs[i].raw).1;
    NeededMeaning(n, recs);
    if 1 <= c <= |Lines(stream)| {
      var k: nat := c;
      assert k in Needed(n, recs);
    }
    CheckIsLocal(n, recs[i].raw, recs[i].long, |Lines(stream)|, headAt, AllHeads(w, stream),
                 prefixAt, AllPrefixes(w, stream), ExpectedPrev(w, recs, i), name, keys);
  }
}
