/** The readers between watch-dir and a file: a cap on each line, a cap on the whole, and what they let through. */
module Capped {
  import opened Bytes
  import opened Wrappers
  import opened Wire
  import Chain

  // ---------------------------------------------------------------- what gets through

  /** No line in these bytes, the last one included, is longer than max. */
  ghost predicate Within(max: nat, s: Bytes) {
    (forall i | 0 <= i < |Lines(s)| :: |Lines(s)[i]| <= max) && |Fragment(s)| <= max
  }

  /** The first k bytes, and no more, are within the cap. */
  ghost predicate Longest(max: nat, s: Bytes, k: nat) {
    k <= |s| && Within(max, s[..k]) && (k < |s| ==> !Within(max, s[..k + 1]))
  }

  /** One more byte either closes the last line or lengthens it. */
  lemma OneByte(s: Bytes, b: byte)
    ensures b == LF ==> Lines(s + [b]) == Lines(s) + [Fragment(s)] && Fragment(s + [b]) == []
    ensures b != LF ==> Lines(s + [b]) == Lines(s) && Fragment(s + [b]) == Fragment(s) + [b]
  {
    if b == LF {
      SplitClose(s, []);
      assert [] + [LF] == [b];
      assert Fragment(s) + [] == Fragment(s);
    } else {
      SplitGrow(s, [b]);
    }
  }

  lemma WithinGrows(max: nat, s: Bytes, b: byte)
    requires Within(max, s)
    ensures Within(max, s + [b]) <==> b == LF || |Fragment(s)| < max
  {
    hide Lines, Fragment;
    OneByte(s, b);
  }

  /** What is within the cap was within it all along: past a line over the cap nothing is within it again. */
  lemma {:induction false} WithinBefore(max: nat, s: Bytes, k: nat)
    requires k <= |s| && Within(max, s)
    ensures Within(max, s[..k])
  {
    if k < |s| {
      var n := |s| - 1;
      assert s[..n] + [s[n]] == s;
      ByteBefore(max, s[..n], s[n]);
      WithinBefore(max, s[..n], k);
      assert s[..n][..k] == s[..k];
    } else {
      assert s[..k] == s;
    }
  }

  lemma ByteBefore(max: nat, s: Bytes, b: byte)
    requires Within(max, s + [b])
    ensures Within(max, s)
  {
    hide Lines, Fragment;
    OneByte(s, b);
    var t := Lines(s + [b]);
    assert forall i | 0 <= i < |Lines(s)| :: Lines(s)[i] == t[i];
    assert b == LF ==> t[|Lines(s)|] == Fragment(s);
  }

  /** There is one longest prefix. */
  lemma OneLongest(max: nat, s: Bytes, j: nat, k: nat)
    requires Longest(max, s, j) && Longest(max, s, k)
    ensures j == k
  {
    NotPast(max, s, j, k);
    NotPast(max, s, k, j);
  }

  lemma NotPast(max: nat, s: Bytes, j: nat, k: nat)
    requires Longest(max, s, j) && Longest(max, s, k)
    ensures k <= j
  {
    hide Within;
    if j < k {
      assert s[..k][..j + 1] == s[..j + 1];
      WithinBefore(max, s[..k], j + 1);
    }
  }

  // ---------------------------------------------------------------- the readers

  /** A file being read: each read hands out at most what is asked for and at least one byte, until the end. */
  class Source {
    var rest: Bytes

    constructor (file: Bytes)
      ensures rest == file
    {
      rest := file;
    }

    method Read(room: nat, generous: nat) returns (p: Bytes)
      modifies this
      ensures old(rest) == p + rest
      ensures |p| <= room
      ensures room > 0 && old(rest) != [] ==> p != []
    {
      var n := if generous == 0 then 1 else generous;
      if n > room {
        n := room;
      }
      if n > |rest| {
        n := |rest|;
      }
      p, rest := rest[..n], rest[n..];
    }
  }

  /** byteCapReader: the first max bytes, and whether there was more. */
  class ByteCapReader {
    const r: Source
    const max: nat
    var n: nat
    var truncated: bool

    constructor (r: Source, max: nat)
      ensures this.r == r && this.max == max && n == 0 && !truncated
    {
      this.r, this.max, n, truncated := r, max, 0, false;
    }

    method Read(room: nat, generous: nat) returns (p: Bytes, eof: bool)
      requires n <= max && room > 0
      modifies this, r
      ensures old(n) < max ==>
                n == old(n) + |p| <= max && old(r.rest) == p + r.rest && truncated == old(truncated)
                && (eof <==> old(r.rest) == []) && (eof <==> p == [])
      ensures old(n) == max ==>
                eof && p == [] && n == max && (truncated <==> old(truncated) || old(r.rest) != [])
    {
      if n >= max {
        var one := r.Read(1, generous);
        if |one| > 0 {
          truncated := true;
        }
        return [], true;
      }
      var want := room;
      if want > max - n {
        want := max - n;
      }
      p := r.Read(want, generous);
      n := n + |p|;
      eof := p == [];
    }
  }

  /** lineCapReader: fails the read the moment one line passes the cap. */
  class LineCapReader {
    const max: nat
    var run: nat
    var line: nat
    // the bytes handed on so far
    ghost var passed: Bytes

    ghost predicate Valid()
      reads this
    {
      Within(max, passed) && run == |Fragment(passed)| && line == |Lines(passed)| + 1
    }

    constructor (max: nat)
      ensures Valid() && this.max == max && passed == []
    {
      this.max, run, line, passed := max, 0, 1, [];
    }

    /** What a read of p hands on: all of it, or what precedes the byte that makes a line too long. */
    method Read(p: Bytes) returns (n: nat, tooLong: Option<nat>)
      requires Valid()
      modifies this
      ensures n <= |p| && passed == old(passed) + p[..n] && Within(max, passed)
      ensures tooLong.None? ==> n == |p| && Valid()
      ensures tooLong.Some? ==> n < |p| && !Within(max, passed + [p[n]]) && tooLong.value == |Lines(passed)| + 1
    {
      hide Within, Lines, Fragment;
      var i := 0;
      assert passed + p[..0] == passed;
      while i < |p|
        invariant i <= |p| && passed == old(passed) + p[..i] && Valid()
      {
        WithinGrows(max, passed, p[i]);
        OneByte(passed, p[i]);
        assert old(passed) + p[..i] + [p[i]] == old(passed) + p[..i + 1];
        if p[i] == LF {
          run := 0;
          line := line + 1;
        } else {
          run := run + 1;
          if run > max {
            return i, Some(line);
          }
        }
        passed := passed + [p[i]];
        i := i + 1;
      }
      assert p[..|p|] == p;
      return |p|, None;
    }
  }

  // ---------------------------------------------------------------- one stream, bounded

  /** The part of a file within the byte cap. */
  function Head(file: Bytes, maxFile: nat): Bytes { if |file| <= maxFile then file else file[..maxFile] }

  datatype ReadError = NoError | LineTooLong(line: nat) | ScannerFull | FileTooLarge

  /** How a bounded read of a file ends. The scanner gives up at the first line it cannot hold and reads no further, so
      that comes before anything the readers would say of what lies behind. */
  ghost function EndOf(file: Bytes, maxFile: nat, seen: Bytes): ReadError {
    if Chain.Scanned(Tokens(seen)) != Tokens(seen) then ScannerFull
    else if |seen| < |Head(file, maxFile)| then LineTooLong(|Lines(seen)| + 1)
    else if |file| > maxFile then FileTooLarge
    else NoError
  }

  /** verifyStream on an open file, whatever sizes its reads have: the chain of the longest part of it within both
      caps is verified, and the file was read to its end exactly when that part is all of it. */
  method VerifyStream(w: Wire, file: Bytes, maxLine: nat, maxFile: nat, room: nat, generous: nat)
    returns (report: Chain.ChainReport, restarts: seq<Chain.Restart>, err: ReadError, seen: Bytes)
    requires room > 0
    ensures seen <= file && Longest(maxLine, Head(file, maxFile), |seen|)
    ensures report == Chain.ReportOf(w, Chain.Scanned(Tokens(seen)))
    ensures restarts == Chain.RestartsOf(Chain.Classes(w, Chain.Scanned(Tokens(seen))))
    ensures err == EndOf(file, maxFile, seen)
    ensures err == NoError <==> seen == file && Chain.Scanned(Tokens(file)) == Tokens(file)
  {
    hide Within, Longest, Lines, Fragment, Tokens, Chain.Scanned, Chain.Classes, Chain.ReportOf, Chain.RestartsOf;
    var all, tooLong, truncated := Drain(file, maxLine, maxFile, room, generous);
    seen := all;
    var complete;
    report, restarts, complete := Chain.VerifyChain(w, all);
    err := if !complete then ScannerFull
           else if tooLong.Some? then LineTooLong(tooLong.value)
           else if truncated then FileTooLarge
           else NoError;
  }

  /** What the scanner gets to read through both readers, and how it ends. */
  method Drain(file: Bytes, maxLine: nat, maxFile: nat, room: nat, generous: nat)
    returns (all: Bytes, tooLong: Option<nat>, truncated: bool)
    requires room > 0
    ensures all <= file && Longest(maxLine, Head(file, maxFile), |all|)
    ensures tooLong.Some? <==> |all| < |Head(file, maxFile)|
    ensures tooLong.Some? ==> all != file && tooLong.value == |Lines(all)| + 1
    ensures tooLong.None? ==> (truncated <==> all != file) && (truncated <==> |file| > maxFile)
  {
    hide Within, Lines, Fragment;
    var source := new Source(file);
    var capped := new ByteCapReader(source, maxFile);
    var lines := new LineCapReader(maxLine);
    all, tooLong := [], None;
    var eof := false;
    while !eof
      invariant lines.Valid() && lines.max == maxLine && capped.max == maxFile && capped.r == source
      invariant all == lines.passed && capped.n == |all| <= maxFile && tooLong.None?
      invariant !eof ==> file == all + source.rest && !capped.truncated
      invariant eof ==> all <= file && (if |all| < maxFile then all == file && !capped.truncated
                                        else capped.truncated <==> |file| > maxFile)
      decreases !eof, |source.rest|
    {
      var p;
      p, eof := capped.Read(room, generous);
      if !eof {
        var n;
        ghost var before, rest := all, source.rest;
        n, tooLong := lines.Read(p);
        all := all + p[..n];
        if tooLong.Some? {
          TooLongHere(maxLine, file, maxFile, before, p, rest, n);
          return all, tooLong, false;
        }
        assert p[..n] == p;
      }
    }
    AllOfIt(maxLine, file, maxFile, all);
    truncated := capped.truncated;
  }

  /** A read to the end, or to the byte cap. */
  lemma AllOfIt(max: nat, file: Bytes, maxFile: nat, all: Bytes)
    requires all <= file && |all| <= maxFile && (all == file || |all| == maxFile) && Within(max, all)
    ensures Longest(max, Head(file, maxFile), |all|)
  {
    hide Within;
    assert Head(file, maxFile)[..|all|] == all;
  }

  /** A read cut before the byte that makes a line too long. */
  lemma TooLongHere(max: nat, file: Bytes, maxFile: nat, before: Bytes, p: Bytes, rest: Bytes, n: nat)
    requires file == before + p + rest && |before + p| <= maxFile && n < |p|
    requires Within(max, before + p[..n]) && !Within(max, before + p[..n] + [p[n]])
    ensures var all := before + p[..n];
            all <= file && all != file && |all| < |Head(file, maxFile)| && Longest(max, Head(file, maxFile), |all|)
  {
    hide Within;
    var all, whole := before + p[..n], Head(file, maxFile);
    assert whole[..|before + p|] == before + p;
    assert whole[..|all|] == all && whole[..|all| + 1] == all + [p[n]];
  }

  /** What is said of a complete line of the part that was read is what verifying the whole file would say of it. */
  lemma PartIsNotMisjudged(w: Wire, file: Bytes, seen: Bytes, i: nat)
    requires seen <= file && i < |Lines(seen)|
    ensures i < |Tokens(seen)| && i < |Tokens(file)|
    ensures Chain.ClassAt(w, Tokens(seen), i) == Chain.ClassAt(w, Tokens(file), i)
  {
    hide Lines, Fragment, Chain.Judge, Chain.PrevLine, TrimSpace;
    assert file == seen + file[|seen|..];
    SplitConcat(seen, file[|seen|..]);
    assert Tokens(seen)[..i + 1] == Tokens(file)[..i + 1];
    assert Tokens(seen)[..i + 1][..i] == Tokens(seen)[..i] && Tokens(file)[..i + 1][..i] == Tokens(file)[..i];
    assert Tokens(seen)[..i + 1][i] == Tokens(seen)[i] && Tokens(file)[..i + 1][i] == Tokens(file)[i];
  }
}
