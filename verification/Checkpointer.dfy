/** checkpointer: the sidecar writer of one ChainedWriter, used under the stream's lock. */
module Checkpointer {
  import opened Bytes
  import opened Wrappers
  import opened Wire
  import opened Tail
  import opened Scan
  import opened Record
  import opened Checkpoints
  import opened CheckpointState
  import Writer

  /** The lines a scan emitted, seen as the lines of the data it read. */
  lemma EmittedHead(w: Wire, base: Bytes, off: nat, data: Bytes, i: nat)
    requires i < |Lines(data)|
    ensures var e := EmittedFrom(base, off, RESUME_WINDOW, data)[i];
            && HeadOf(w, Lines(data)[i]) ==
               (if !e.long && WellFormedLine(w, e.line) && ChainHashRaw(w, TrimSpace(e.line)).Some?
                then ChainHashRaw(w, TrimSpace(e.line)).value else "")
            && (HashTaken(w, e.line, e.long) <==> !Unhashable(w, Lines(data)[i]))
            && e.sum == base + Through(data, i + 1)
  {
    hide Lines, Through, TrimSpace;
    assert EmittedFrom(base, off, RESUME_WINDOW, data)[i] == EmittedAt(base, off, RESUME_WINDOW, data, i);
  }

  /** The scan runs to its end exactly when every line that is an event can be hashed. */
  lemma RefusesUnhashable(w: Wire, base: Bytes, off: nat, before: nat, data: Bytes)
    ensures var stop := FirstRefused(OnlyHashable(w), before, EmittedFrom(base, off, RESUME_WINDOW, data));
            stop == FirstUnhashable(w, Lines(data)) && (stop == |Lines(data)| <==> AllHashable(w, data))
  {
    hide Lines, EmittedFrom, Unhashable, HashTaken, FirstRefused;
    var emitted := EmittedFrom(base, off, RESUME_WINDOW, data);
    forall i | 0 <= i < |emitted|
      ensures HashTaken(w, emitted[i].line, emitted[i].long) <==> !Unhashable(w, Lines(data)[i])
    {
      EmittedHead(w, base, off, data, i);
    }
    FirstRefusedIs(OnlyHashable(w), before, emitted, FirstUnhashable(w, Lines(data)));
  }

  class Checkpointer {
    const w: Wire
    const n: Notary
    const cfg: Config
    const file: Writer.SharedFile
    var sum: Bytes
    var last: Option<Bytes>
    var off: nat
    var count: nat
    var head: string
    var prev: string
    var pending: nat
    var lastAt: int
    var size: nat

    ghost function State(): Ck
      reads this
    {
      Ck(sum, last, off, count, head, prev, pending, lastAt, size)
    }

    constructor (w: Wire, n: Notary, cfg: Config, file: Writer.SharedFile, prev: string, size: nat, at: int)
      ensures this.w == w && this.n == n && this.cfg == cfg && this.file == file
      ensures State() == Ck([], None, 0, 0, "", prev, 0, at, size)
    {
      this.w, this.n, this.cfg, this.file := w, n, cfg, file;
      this.sum, this.last, this.off, this.count, this.head := [], None, 0, 0, "";
      this.prev, this.pending, this.lastAt, this.size := prev, 0, at, size;
    }

    /** writeRecord: builds, signs and appends one record, then chains the next one from it. A failed
        append is cut off again. */
    method WriteRecord(kind: string, count: int, head: string, digest: Bytes, m: Moment) returns (ok: bool)
      modifies this, file
      ensures Step(State(), file.bytes, ok) ==
              Written(w, n, cfg, old(State()), old(file.bytes), kind, count, head, digest, m)
    {
      hide HashText;
      var f := Fields(kind, cfg.name, count, head, HashText(digest), m.at, prev);
      var rec := RecordFor(n, f, m.signer);
      if rec.None? {
        return false;
      }
      var line := Encode(n, rec.value) + [LF];
      if m.accepts < |line| {
        file.bytes := file.bytes + line[..m.accepts];
        file.bytes := Truncate(file.bytes, size);
        return false;
      }
      file.bytes := file.bytes + line;
      size := size + |line|;
      prev := HashText(Sha(w, Encode(n, rec.value)));
      lastAt := m.now;
      pending := 0;
      return true;
    }

    /** advance: hashes the stream from off through its last LF. chunks are what the reads of the rest of
        the stream return, faults that a read failed. When a read fails or a line cannot be hashed, the hash
        keeps what it was fed while every other field stays. */
    method Advance(stream: Bytes, chunks: seq<Bytes>, faults: bool) returns (added: nat, ok: bool, ghost read: Bytes)
      requires Concat(chunks) <= stream[AfterShrink(State(), stream).off..]
      requires !faults ==> Concat(chunks) == stream[AfterShrink(State(), stream).off..]
      modifies this
      ensures var b := AfterShrink(old(State()), stream);
              var data := stream[b.off..];
              && (ok <==> data == [] || (!faults && AllHashable(w, data)))
              && (ok ==> State() == Advanced(w, old(State()), stream) && added == |Lines(data)|)
              && (!ok ==> added == 0 && read <= data && State() == b.(sum := b.sum + read))
              && (!ok && !faults ==> |read| == ScanReach(w, data))
    {
      hide Lines, Fragment, Whole, Unhashable, AllHashable, FirstRefused, EmittedFrom, Through, Concat, Advanced,
        LastHead, ScanReach;
      read := [];
      if |stream| < off {
        sum, off, count, head, last := [], 0, 0, "", None;
      }
      ghost var data := stream[off..];
      ghost var b := State();
      assert b == AfterShrink(old(State()), stream);
      AdvancedUnshrunk(w, old(State()), stream);
      if |stream| == off {
        EmptyData(b, stream);
        return 0, true, [];
      }
      var sc := new LineScanner(sum, off, last, count, RESUME_WINDOW, true);
      var emitted;
      emitted, ok := sc.Run(chunks, faults, OnlyHashable(w));
      read := sc.data;
      ScanOutcome(w, b, data, Concat(chunks), faults, sc.data, ok);
      if !ok {
        sum := sc.sum;
        return 0, false, read;
      }
      added := |emitted|;
      var newHead := HeadAfter(data, emitted);
      sc.Settle();
      sum, last, off := sc.sum, sc.last, sc.off;
      count := count + added;
      if added > 0 {
        head := newHead;
      }
      HashedOn(b, stream, State());
    }

    lemma EmptyData(b: Ck, stream: Bytes)
      requires b.off == |stream|
      ensures Advanced(w, b, stream) == b && stream[b.off..] == [] && Lines(stream[b.off..]) == []
    {
      NothingHashed(w);
      assert b.sum + [] == b.sum;
      assert stream[b.off..] == [];
    }

    /** The fields a scan of the rest of the stream leaves are those Advanced gives. */
    lemma HashedOn(b: Ck, stream: Bytes, c: Ck)
      requires b.off <= |stream|
      requires var data := stream[b.off..];
               && c.last == (if Lines(data) == [] then b.last else Some(b.sum + Whole(data)))
               && c.sum == (if Fragment(data) == [] then b.sum + data else if c.last.None? then [] else c.last.value)
               && c.off == b.off + |Whole(data)|
               && c.count == b.count + |Lines(data)|
               && c.head == (if Lines(data) == [] then b.head else LastHead(w, data))
               && c == b.(last := c.last, sum := c.sum, off := c.off, count := c.count, head := c.head)
      ensures c == Advanced(w, b, stream)
    {
    }

    lemma ScanOutcome(w: Wire, b: Ck, data: Bytes, got: Bytes, faults: bool, read: Bytes, ok: bool)
      requires got <= data && (!faults ==> got == data) && data != []
      requires var stop := FirstRefused(OnlyHashable(w), b.count, EmittedFrom(b.sum, b.off, RESUME_WINDOW, got));
               && read == (if stop < |Lines(got)| then Through(got, stop + 1) else got)
               && (ok <==> !faults && stop == |Lines(got)|)
      ensures ok <==> !faults && AllHashable(w, data)
      ensures ok ==> read == data
      ensures read <= data
      ensures !ok && !faults ==> |read| == ScanReach(w, data)
    {
      hide Lines, Join, FirstRefused, EmittedFrom, AllHashable;
      var stop := FirstRefused(OnlyHashable(w), b.count, EmittedFrom(b.sum, b.off, RESUME_WINDOW, got));
      RefusesUnhashable(w, b.sum, b.off, b.count, got);
      if stop < |Lines(got)| {
        ThroughStable(got, [], stop + 1);
        JoinEndsLF(Lines(got)[..stop + 1]);
      }
    }

    /** What emit leaves behind: the head of the last line it was called for. */
    method HeadAfter(ghost data: Bytes, emitted: seq<Emitted>) returns (newHead: string)
      requires exists base, start :: emitted == EmittedFrom(base, start, RESUME_WINDOW, data)
      ensures emitted != [] ==> newHead == LastHead(w, data)
    {
      hide Lines, HeadOf, EmittedFrom, TrimSpace, WellFormedLine;
      ghost var base, start :| emitted == EmittedFrom(base, start, RESUME_WINDOW, data);
      newHead := "";
      var i := 0;
      while i < |emitted|
        invariant i <= |emitted|
        invariant i > 0 ==> newHead == HeadOf(w, Lines(data)[i - 1])
      {
        EmittedHead(w, base, start, data, i);
        newHead := "";
        if !emitted[i].long && WellFormedLine(w, emitted[i].line) {
          var h := ChainHashRaw(w, TrimSpace(emitted[i].line));
          if h.Some? {
            newHead := h.value;
          }
        }
        i := i + 1;
      }
    }

    /** The one full read of the stream, at open. */
    method HashAll(stream: Bytes, chunks: seq<Bytes>, faults: bool)
      returns (ok: bool, goodCount: nat, goodHead: string, goodState: Bytes)
      requires Concat(chunks) <= stream && (!faults ==> Concat(chunks) == stream)
      requires sum == [] && off == 0 && last.None? && count == 0 && head == ""
      modifies this
      ensures ok <==> !faults && AllHashable(w, stream)
      ensures ok ==>
                && State() == Ck(Whole(stream), if Whole(stream) == [] then None else Some(Whole(stream)),
                    |Whole(stream)|,
                                 |Lines(stream)|, LastHead(w, stream), old(prev), old(pending), old(lastAt), old(size))
                && goodCount == LastGood(w, Lines(stream))
                && (goodCount > 0 ==>
                      goodHead == HeadAt(w, stream, goodCount) && Sha(w, goodState) == DigestAt(w, stream, goodCount))
    {
      hide Lines, Fragment, Whole, Concat, AllHashable, EmittedFrom, FirstRefused, LastGood, LastHead, HeadAt, DigestAt;
      goodCount, goodHead, goodState := 0, "", [];
      var sc := new LineScanner(sum, 0, None, 0, RESUME_WINDOW, true);
      var emitted;
      emitted, ok := sc.Run(chunks, faults, OnlyHashable(w));
      RefusesUnhashable(w, [], 0, 0, Concat(chunks));
      if !ok {
        return;
      }
      var lastHead;
      lastHead, goodCount, goodHead, goodState := Heads(w, stream, emitted);
      sc.Settle();
      sum, last, off, count, head := sc.sum, sc.last, sc.off, sc.lines, lastHead;
      StreamRead(stream);
    }

    /** The state after a scan that failed is the one the failed bytes drifted. */
    lemma FailedScan(c: Ck, stream: Bytes, read: Bytes)
      requires read <= Rest(c, stream)
      ensures var b := AfterShrink(c, stream); b.(sum := b.sum + read) == Drifted(c, stream, |read|)
    {
      assert Fed(Rest(c, stream), |read|) == read;
    }

    /** afterAppend: writes a checkpoint when one is due. */
    method AfterAppend(stream: Bytes, chunks: seq<Bytes>, faults: bool, m: Moment) returns (ok: bool)
      requires Concat(chunks) <= stream[AfterShrink(State(), stream).off..]
      requires !faults ==> Concat(chunks) == stream[AfterShrink(State(), stream).off..]
      modifies this, file
      ensures var data := stream[AfterShrink(old(State()), stream).off..];
              if data == [] || (!faults && AllHashable(w, data))
              then Step(State(), file.bytes, ok) == AfterAppended(w, n, cfg, old(State()), old(file.bytes), stream, m)
              else !ok && file.bytes == old(file.bytes)
                   && (exists k: nat :: State() == Drifted(old(State()), stream, k))
                   && (!faults ==> State() == Drifted(old(State()), stream, ScanReach(w, data)))
    {
      hide Advanced, Written, AllHashable, ScanReach, Drifted, Lines, FieldsFor;
      var added, advanced, read := Advance(stream, chunks, faults);
      if !advanced {
        FailedScan(old(State()), stream, read);
        assert State() == Drifted(old(State()), stream, |read|);
        return false;
      }
      pending := pending + added;
      if pending == 0 {
        return true;
      }
      if pending < cfg.every && m.due - lastAt < cfg.interval {
        return true;
      }
      if head == "" {
        return true;
      }
      ok := WriteRecord(CHECKPOINT, count, head, Sha(w, sum), m);
    }

    /** closeLocked: writes the close record. */
    method CloseLocked(stream: Bytes, chunks: seq<Bytes>, faults: bool, m: Moment) returns (ok: bool)
      requires Concat(chunks) <= stream[AfterShrink(State(), stream).off..]
      requires !faults ==> Concat(chunks) == stream[AfterShrink(State(), stream).off..]
      modifies this, file
      ensures var data := stream[AfterShrink(old(State()), stream).off..];
              if data == [] || (!faults && AllHashable(w, data))
              then Step(State(), file.bytes, ok) == Closed(w, n, cfg, old(State()), old(file.bytes), stream, m)
              else !ok && file.bytes == old(file.bytes)
    {
      hide Advanced, Written, AllHashable;
      var added, advanced, read := Advance(stream, chunks, faults);
      if !advanced {
        return false;
      }
      if count == 0 || head == "" {
        return true;
      }
      ok := WriteRecord(CLOSE_KIND, count, head, Sha(w, sum), m);
    }
  }

  /** sidecarTail: the hash of the last complete record, and the length of the complete ones. */
  method SidecarTail(w: Wire, side: Bytes, chunks: seq<Bytes>, faults: bool)
    returns (prev: string, complete: nat, ok: bool)
    requires Concat(chunks) <= side && (!faults ==> Concat(chunks) == side)
    ensures ok <==> !faults && SidecarFits(side)
    ensures ok ==> complete == |Whole(side)|
    ensures ok ==> SidecarPrev(w, side) == if prev == "" then Genesis() else prev
  {
    hide Lines, Whole, FirstRefused, EmittedFrom, Through, HashText, SidecarFits, Concat, SidecarPrev;
    var sc := new LineScanner([], 0, None, 0, RECORD_CAP, false);
    var emitted;
    emitted, ok := sc.Run(chunks, faults, OnlyShort);
    RefusesLong(side);
    prev, complete := "", 0;
    TailOfSidecar(w, side);
    if ok && |emitted| > 0 {
      var e := emitted[|emitted| - 1];
      complete := e.end;
      if e.line != [] {
        prev := HashText(Sha(w, e.line));
      }
    }
  }

  lemma TailOfSidecar(w: Wire, side: Bytes)
    ensures Lines(side) == [] ==> Whole(side) == [] && SidecarPrev(w, side) == Genesis()
    ensures Lines(side) != [] && SidecarFits(side) ==>
              var e := EmittedFrom([], 0, RECORD_CAP, side)[|Lines(side)| - 1];
              && e.end == |Whole(side)|
              && SidecarPrev(w, side) == (if e.line == [] then Genesis() else HashText(Sha(w, e.line)))
              && HashText(Sha(w, e.line)) != ""
  {
    hide Lines, Join, EmittedFrom, Hex;
    WholeOfWhole(side);
    if Lines(side) != [] && SidecarFits(side) {
      LastEmitted(side);
    }
  }

  lemma RefusesLong(side: Bytes)
    ensures FirstRefused(OnlyShort, 0, EmittedFrom([], 0, RECORD_CAP, side)) == |Lines(side)| <==> SidecarFits(side)
  {
    hide Lines, Through, FirstRefused;
    var emitted := EmittedFrom([], 0, RECORD_CAP, side);
    assert forall i | 0 <= i < |emitted| :: emitted[i] == EmittedAt([], 0, RECORD_CAP, side, i);
    if SidecarFits(side) {
      FirstRefusedIs(OnlyShort, 0, emitted, |emitted|);
    } else {
      var i :| 0 <= i < |Lines(side)| && |Lines(side)[i]| > RECORD_CAP;
      RefusedOnce(OnlyShort, 0, emitted, i);
    }
  }

  lemma LastEmitted(side: Bytes)
    requires Lines(side) != [] && SidecarFits(side)
    ensures var n := |Lines(side)| - 1;
            var e := EmittedFrom([], 0, RECORD_CAP, side)[n];
            e.line == Lines(side)[n] && e.end == |Whole(side)|
  {
    hide Lines, Join;
    var n := |Lines(side)| - 1;
    assert EmittedFrom([], 0, RECORD_CAP, side)[n] == EmittedAt([], 0, RECORD_CAP, side, n);
    WholeIsThrough(side);
  }

  /** openCheckpointer: cuts a torn record off the sidecar, hashes the whole stream once, and writes the
      resume record if one is due. */
  method Open(w: Wire, n: Notary, asked: Config, file: Writer.SharedFile, sideChunks: seq<Bytes>,
              sideFaults: bool, stream: Bytes, chunks: seq<Bytes>, faults: bool, m: Moment)
    returns (ck: Checkpointer?)
    requires Concat(sideChunks) <= file.bytes && (!sideFaults ==> Concat(sideChunks) == file.bytes)
    requires Concat(chunks) <= stream && (!faults ==> Concat(chunks) == stream)
    modifies file
    ensures sideFaults ==> ck == null && file.bytes == old(file.bytes)
    ensures !sideFaults && faults ==>
              ck == null
              && file.bytes == if SidecarFits(old(file.bytes)) then Whole(old(file.bytes)) else old(file.bytes)
    ensures !sideFaults && !faults ==>
              var o := Opened(w, n, WithDefaults(asked), old(file.bytes), stream, m);
              && file.bytes == o.side
              && (ck != null <==> o.ok)
              && (ck != null ==> fresh(ck) && ck.file == file && ck.w == w && ck.n == n
                                 && ck.cfg == WithDefaults(asked) && ck.State() == o.ck)
  {
    hide Lines, Whole, Concat, SidecarFits, AllHashable, Written, LastGood, LastHead, SidecarPrev, HeadAt, DigestAt,
      Genesis;
    var cfg := WithDefaults(asked);
    var prev, complete, fits := SidecarTail(w, file.bytes, sideChunks, sideFaults);
    if !fits {
      return null;
    }
    ck := new Checkpointer(w, n, cfg, file, if prev == "" then Genesis() else prev, complete, m.due);
    CutTorn(file.bytes);
    if |file.bytes| > complete {
      file.bytes := file.bytes[..complete];
    }
    var ok, goodCount, goodHead, goodState := ck.HashAll(stream, chunks, faults);
    if !ok {
      return null;
    }
    assert ck.State() == FullRead(w, old(file.bytes), stream, m);
    if ck.count > 0 && ck.head == "" && goodCount > 0 {
      ok := ck.WriteRecord(RESUME, goodCount, goodHead, Sha(w, goodState), m);
      if !ok {
        return null;
      }
    }
  }

  lemma CutTorn(side: Bytes)
    ensures |Whole(side)| <= |side| && side[..|Whole(side)|] == Whole(side)
    ensures |side| == |Whole(side)| ==> side == Whole(side)
  {
    hide Lines, Fragment;
    WholeIsThrough(side);
  }

  lemma StreamRead(stream: Bytes)
    ensures [] + Whole(stream) == Whole(stream)
    ensures Lines(stream) == [] <==> Whole(stream) == []
  {
    hide Lines, Fragment;
    WholeOfWhole(stream);
  }

  /** What emit leaves behind at open: the head of the last line, and the last line that has one. */
  method Heads(w: Wire, stream: Bytes, emitted: seq<Emitted>)
    returns (lastHead: string, goodCount: nat, goodHead: string, goodState: Bytes)
    requires emitted == EmittedFrom([], 0, RESUME_WINDOW, stream)
    ensures lastHead == LastHead(w, stream) && goodCount == LastGood(w, Lines(stream))
    ensures goodCount > 0 ==>
              goodHead == HeadAt(w, stream, goodCount) && Sha(w, goodState) == DigestAt(w, stream, goodCount)
  {
    hide Lines, HeadOf, EmittedFrom, TrimSpace, WellFormedLine, Through, LastGood;
    lastHead, goodCount, goodHead, goodState := "", 0, "", [];
    var i := 0;
    assert Lines(stream)[..0] == [];
    GoodSoFar(w, Lines(stream), 0);
    while i < |emitted|
      invariant i <= |emitted|
      invariant lastHead == if i == 0 then "" else HeadOf(w, Lines(stream)[i - 1])
      invariant goodCount == LastGood(w, Lines(stream)[..i])
      invariant goodCount > 0 ==> goodHead == HeadAt(w, stream, goodCount) && goodState == Through(stream, goodCount)
    {
      EmittedHead(w, [], 0, stream, i);
      assert [] + Through(stream, i + 1) == Through(stream, i + 1);
      GoodSoFar(w, Lines(stream), i + 1);
      lastHead := "";
      if !emitted[i].long && WellFormedLine(w, emitted[i].line) {
        var h := ChainHashRaw(w, TrimSpace(emitted[i].line));
        if h.Some? {
          lastHead := h.value;
          goodCount, goodHead, goodState := i + 1, h.value, emitted[i].sum;
        }
      }
      i := i + 1;
    }
    assert Lines(stream)[..i] == Lines(stream);
  }

  lemma GoodSoFar(w: Wire, lines: seq<Bytes>, i: nat)
    requires i <= |lines|
    ensures LastGood(w, lines[..i]) ==
            if i == 0 then 0 else if HeadOf(w, lines[i - 1]) != "" then i else LastGood(w, lines[..i - 1])
  {
    hide HeadOf;
    if i > 0 { assert lines[..i][..i - 1] == lines[..i - 1]; }
  }
}
