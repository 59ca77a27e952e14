/** lineScanner: one pass over a stream, hashing every byte and emitting each newline-terminated line. */
module Scan {
  import opened Bytes
  import opened Wrappers
  import opened Wire
  import opened Tail

  /** One call of emit: the line (no bytes when it is long), the offset after its LF, and the bytes the
      hash held at that moment. */
  datatype Emitted = Emitted(line: Bytes, long: bool, end: nat, sum: Bytes)

  /** Which lines the caller's emit accepts; the scan stops at the first it does not. */
  datatype Emit =
    | Any
    | OnlyShort
    | OnlyHashable(w: Wire)
    | OnlyHashableAmong(w: Wire, needed: set<nat>)

  /** wellFormedLine: at most the window long, and an event. */
  predicate WellFormedLine(w: Wire, line: Bytes) {
    |line| <= RESUME_WINDOW && Unmarshal(w, TrimSpace(line)).Some?
  }

  /** What a head of this line would have to be hashed from: the line is a well-formed event with a hash,
      or not a well-formed event at all. */
  predicate HashTaken(w: Wire, line: Bytes, long: bool) {
    long || !WellFormedLine(w, line) || ChainHashRaw(w, TrimSpace(line)).Some?
  }

  /** Whether emit returns no error for the n-th line of the scan. */
  predicate Accepts(emit: Emit, n: nat, line: Bytes, long: bool) {
    match emit
    case Any => true
    case OnlyShort => !long
    case OnlyHashable(w) => HashTaken(w, line, long)
    case OnlyHashableAmong(w, needed) => n !in needed || HashTaken(w, line, long)
  }

  // ---------------------------------------------------------------- what a scan emits

  /** What a scan that began with the bytes of base hashed emits for line i of the data it reads. */
  function EmittedAt(base: Bytes, off: nat, maxLen: nat, data: Bytes, i: nat): Emitted
    requires i < |Lines(data)|
  {
    var line, end := Lines(data)[i], Through(data, i + 1);
    Emitted(if |line| > maxLen then [] else line, |line| > maxLen, off + |end|, base + end)
  }

  function EmittedFrom(base: Bytes, off: nat, maxLen: nat, data: Bytes): (r: seq<Emitted>)
    ensures |r| == |Lines(data)|
  {
    seq(|Lines(data)|, i requires 0 <= i < |Lines(data)| => EmittedAt(base, off, maxLen, data, i))
  }

  /** The bytes through the last LF. */
  function Whole(data: Bytes): Bytes { Join(Lines(data)) }

  lemma WholeIsThrough(data: Bytes)
    ensures Whole(data) == Through(data, |Lines(data)|)
    ensures Whole(data) + Fragment(data) == data
  {
    SplitJoin(data);
    assert Lines(data)[..|Lines(data)|] == Lines(data);
  }

  /** Reading more never changes what was emitted. */
  lemma EmittedStable(base: Bytes, off: nat, maxLen: nat, data: Bytes, more: Bytes)
    ensures EmittedFrom(base, off, maxLen, data) <= EmittedFrom(base, off, maxLen, data + more)
  {
    hide Lines, Join;
    SplitConcat(data, more);
    forall i | 0 <= i < |Lines(data)|
      ensures EmittedAt(base, off, maxLen, data, i) == EmittedAt(base, off, maxLen, data + more, i)
    {
      ThroughStable(data, more, i + 1);
      assert Lines(data)[i] == Lines(data)[..i + 1][i];
      assert Lines(data + more)[i] == Lines(data + more)[..i + 1][i];
    }
  }

  /** Closing a line emits that line, with the hash holding exactly the bytes through its LF. */
  lemma EmittedCloses(base: Bytes, off: nat, maxLen: nat, data: Bytes, p: Bytes)
    requires NoLF(p)
    ensures var now, line := data + (p + [LF]), Fragment(data) + p;
            && EmittedFrom(base, off, maxLen, now) ==
               EmittedFrom(base, off, maxLen, data) +
               [Emitted(if |line| > maxLen then [] else line, |line| > maxLen, off + |now|, base + now)]
            && Whole(now) == now && Fragment(now) == []
            && Lines(now) == Lines(data) + [line]
  {
    hide Lines, Join, Fragment;
    var now := data + (p + [LF]);
    SplitClose(data, p);
    EmittedStable(base, off, maxLen, data, p + [LF]);
    WholeIsThrough(now);
    assert now + [] == now;
    var n, all := |Lines(data)|, EmittedFrom(base, off, maxLen, now);
    assert all == all[..n] + [all[n]];
    assert all[n] == EmittedAt(base, off, maxLen, now, n);
    assert Through(now, n + 1) == now;
  }

  /** Bytes without an LF emit nothing. */
  lemma EmittedKeeps(base: Bytes, off: nat, maxLen: nat, data: Bytes, p: Bytes)
    requires NoLF(p)
    ensures EmittedFrom(base, off, maxLen, data + p) == EmittedFrom(base, off, maxLen, data)
    ensures Whole(data + p) == Whole(data)
  {
    SplitGrow(data, p);
    EmittedStable(base, off, maxLen, data, p);
  }

  /** The first line emit refuses, the number of lines when it accepts them all. */
  function FirstRefused(emit: Emit, before: nat, emitted: seq<Emitted>): (k: nat)
    ensures k <= |emitted|
  {
    if emitted == [] then 0
    else
      var n := |emitted| - 1;
      var k := FirstRefused(emit, before, emitted[..n]);
      if k == n && Accepts(emit, before + n + 1, emitted[n].line, emitted[n].long) then n + 1 else k
  }

  lemma {:induction false} FirstRefusedIs(emit: Emit, before: nat, emitted: seq<Emitted>, k: nat)
    requires k <= |emitted|
    requires forall i | 0 <= i < k :: Accepts(emit, before + i + 1, emitted[i].line, emitted[i].long)
    requires k < |emitted| ==> !Accepts(emit, before + k + 1, emitted[k].line, emitted[k].long)
    ensures FirstRefused(emit, before, emitted) == k
  {
    hide Accepts;
    if emitted != [] {
      var n := |emitted| - 1;
      FirstRefusedIs(emit, before, emitted[..n], if k < n then k else n);
    }
  }

  /** A scan that stopped at a refused line has read the stream exactly through it. */
  lemma RefusedAt(emit: Emit, base: Bytes, off: nat, before: nat, maxLen: nat, data: Bytes, all: Bytes)
    requires data <= all && EndsLine(data)
    requires var es := EmittedFrom(base, off, maxLen, data);
             && es != []
             && (forall i | 0 <= i < |es| - 1 :: Accepts(emit, before + i + 1, es[i].line, es[i].long))
             && !Accepts(emit, before + |es|, es[|es| - 1].line, es[|es| - 1].long)
    ensures var stop := FirstRefused(emit, before, EmittedFrom(base, off, maxLen, all));
            stop < |Lines(all)| && data == Through(all, stop + 1)
  {
    hide Accepts, FirstRefused, Lines, Join, Fragment, EmittedAt;
    var es, es' := EmittedFrom(base, off, maxLen, data), EmittedFrom(base, off, maxLen, all);
    var more := all[|data|..];
    assert all == data + more;
    EmittedStable(base, off, maxLen, data, more);
    assert forall i | 0 <= i < |es| :: es'[i] == es[i];
    FirstRefusedIs(emit, before, es', |es| - 1);
    ThroughStable(data, more, |es|);
    WholeIsThrough(data);
    EndsLineMeaning(data);
    assert data + [] == data;
  }

  lemma NothingEmitted(base: Bytes, off: nat, maxLen: nat)
    ensures EmittedFrom(base, off, maxLen, []) == []
  {
  }

  /** All the bytes of a sequence of reads. */
  function Concat(chunks: seq<Bytes>): Bytes {
    if chunks == [] then [] else Concat(chunks[..|chunks| - 1]) + chunks[|chunks| - 1]
  }

  lemma ConcatNone(chunks: seq<Bytes>)
    ensures Concat(chunks[..0]) == []
  {
  }

  lemma ConcatGrows(chunks: seq<Bytes>, c: nat)
    requires c < |chunks|
    ensures Concat(chunks[..c + 1]) == Concat(chunks[..c]) + chunks[c]
  {
    assert chunks[..c + 1][..c] == chunks[..c];
  }

  lemma {:induction false} ConcatPrefix(chunks: seq<Bytes>, c: nat)
    requires c <= |chunks|
    ensures Concat(chunks[..c]) <= Concat(chunks)
    decreases |chunks| - c
  {
    if c < |chunks| {
      ConcatGrows(chunks, c);
      ConcatPrefix(chunks, c + 1);
    } else {
      assert chunks[..c] == chunks;
    }
  }

  // ---------------------------------------------------------------- the scanner

  class LineScanner {
    // the bytes the hash has been fed
    var sum: Bytes
    const maxLen: nat
    const keep: bool
    // the line in progress, at most maxLen bytes of it, and whether it is longer
    var cur: Bytes
    var long: bool
    var pos: nat
    var off: nat
    var lines: nat
    // the hash's state at off, when keep is set; None for a fresh hash
    var last: Option<Bytes>
    var partial: bool

    // where the scan began, and what it has read since
    ghost const base: Bytes
    ghost const start: nat
    ghost const startLines: nat
    ghost const startLast: Option<Bytes>
    ghost var data: Bytes

    /** The scanner's fields are a function of the bytes read so far, however they were chunked. */
    ghost predicate Valid()
      reads this
    {
      && sum == base + data
      && pos == start + |data|
      && off == start + |Whole(data)|
      && lines == startLines + |Lines(data)|
      && partial == (Fragment(data) != [])
      && long == (|Fragment(data)| > maxLen)
      && cur == (if long then [] else Fragment(data))
      && last == (if keep && Lines(data) != [] then Some(base + Whole(data)) else startLast)
    }

    constructor (sum: Bytes, off: nat, last: Option<Bytes>, lines: nat, maxLen: nat, keep: bool)
      ensures Valid() && data == []
      ensures this.sum == sum && base == sum && start == off && startLines == lines && startLast == last
      ensures this.maxLen == maxLen && this.keep == keep
    {
      this.sum, this.off, this.pos, this.last, this.lines := sum, off, off, last, lines;
      this.maxLen, this.keep := maxLen, keep;
      this.cur, this.long, this.partial := [], false, false;
      this.base, this.start, this.startLines, this.startLast := sum, off, lines, last;
      this.data := [];
      new;
      assert Lines([]) == [] && Fragment([]) == [] && Join([]) == [];
    }

    lemma NoLinesYet()
      requires Valid() && data == []
      ensures lines == startLines
    {
    }

    method Add(b: Bytes)
      modifies this`cur, this`long
      ensures long == (old(long) || |old(cur)| + |b| > maxLen)
      ensures cur == if old(long) then old(cur) else if long then [] else old(cur) + b
    {
      if long {
        return;
      }
      if |cur| + |b| > maxLen {
        long := true;
        cur := [];
        return;
      }
      cur := cur + b;
    }

    /** The bytes of p up to the next LF, or all of them, and whether there was one. */
    method Feed(p: Bytes)
      requires Valid() && NoLF(p) && p != []
      modifies this`sum, this`pos, this`cur, this`long, this`partial, this`data
      ensures Valid() && data == old(data) + p
      ensures EmittedFrom(base, start, maxLen, data) == EmittedFrom(base, start, maxLen, old(data))
    {
      hide Lines, Fragment, Join;
      SplitGrow(data, p);
      EmittedKeeps(base, start, maxLen, data, p);
      Assoc(base, data, p);
      sum := sum + p;
      pos := pos + |p|;
      Add(p);
      partial := true;
      data := data + p;
    }

    /** A segment that ends in its LF: the line is complete. */
    method Close(p: Bytes) returns (e: Emitted)
      requires Valid() && NoLF(p)
      modifies this
      ensures Valid() && data == old(data) + (p + [LF]) && EndsLine(data)
      ensures EmittedFrom(base, start, maxLen, data) == EmittedFrom(base, start, maxLen, old(data)) + [e]
      ensures lines == old(lines) + 1
    {
      hide Lines, Fragment, Join, Whole, EmittedFrom;
      var seg := p + [LF];
      EmittedCloses(base, start, maxLen, data, p);
      Assoc(base, data, seg);
      sum := sum + seg;
      pos := pos + |seg|;
      Add(p);
      off := pos;
      partial := false;
      if keep {
        last := Some(sum);
      }
      e := Emitted(cur, long, off, sum);
      cur, long := [], false;
      lines := lines + 1;
      data := data + seg;
    }

    /** run: reads the chunks a reader hands out, in order, until emit refuses a line, the reader ends, or
        it fails (faults). The emitted lines are a function of the bytes read alone. */
    method Run(chunks: seq<Bytes>, faults: bool, emit: Emit) returns (emitted: seq<Emitted>, ok: bool)
      requires Valid() && data == []
      modifies this
      ensures Valid()
      ensures emitted == EmittedFrom(base, start, maxLen, data)
      ensures var all := Concat(chunks);
              var stop := FirstRefused(emit, startLines, EmittedFrom(base, start, maxLen, all));
              && data == (if stop < |Lines(all)| then Through(all, stop + 1) else all)
              && (ok <==> !faults && stop == |Lines(all)|)
    {
      hide Lines, Fragment, Join, Accepts, EmittedFrom, Valid, Concat, FirstRefused;
      ghost var all := Concat(chunks);
      emitted := [];
      NothingEmitted(base, start, maxLen);
      ConcatNone(chunks);
      NoLinesYet();
      var c := 0;
      while c < |chunks|
        invariant c <= |chunks|
        invariant Valid() && data == Concat(chunks[..c])
        invariant emitted == EmittedFrom(base, start, maxLen, data) && lines == startLines + |emitted|
        invariant forall i | 0 <= i < |emitted| :: Accepts(emit, startLines + i + 1, emitted[i].line, emitted[i].long)
      {
        ConcatGrows(chunks, c);
        ghost var before := data;
        var p := chunks[c];
        assert data + p == before + chunks[c];
        while p != []
          invariant Valid() && before + chunks[c] == data + p
          invariant emitted == EmittedFrom(base, start, maxLen, data) && lines == startLines + |emitted|
          invariant forall i | 0 <= i < |emitted| :: Accepts(emit, startLines + i + 1, emitted[i].line, emitted[i].long)
          decreases |p|
        {
          var i := FirstLF(p);
          if i == |p| {
            assert p[..i] == p;
            Feed(p);
            p := [];
            assert data + p == data;
          } else {
            assert p == (p[..i] + [LF]) + p[i + 1..];
            Assoc(data, p[..i] + [LF], p[i + 1..]);
            var e := Close(p[..i]);
            emitted := emitted + [e];
            p := p[i + 1..];
            if !Accepts(emit, lines, e.line, e.long) {
              ConcatPrefix(chunks, c + 1);
              assert data <= data + p;
              RefusedAt(emit, base, start, startLines, maxLen, data, all);
              return emitted, false;
            }
          }
        }
        c := c + 1;
      }
      assert chunks[..c] == chunks;
      FirstRefusedIs(emit, startLines, emitted, |emitted|);
      ok := !faults;
    }

    /** settle: back to the state at off. */
    method Settle()
      requires Valid()
      modifies this`sum, this`partial
      ensures !partial
      ensures keep && startLast == (if base == [] then None else Some(base)) ==> sum == base + Whole(data)
      ensures sum == if !old(partial) then old(sum) else if last.None? then [] else last.value
    {
      hide Lines, Fragment, Join;
      WholeIsThrough(data);
      assert base + [] == base && Whole(data) + [] == Whole(data);
      JoinCons([], []);
      if !partial {
        return;
      }
      partial := false;
      sum := if last.None? then [] else last.value;
    }
  }
}
