/** readTail: the last event line of a file, found by reading backwards from its end. */
module Tail {
  import opened Bytes
  import opened Wrappers
  import opened Wire

  /** The longest last line a writer looks back for. */
  const RESUME_WINDOW: nat := 0x40_0000

  /** The first read from the end of the file. */
  const TAIL_CHUNK: nat := 0x2000

  datatype Tail = Tail(line: Option<Bytes>, endsNewline: bool)

  // ---------------------------------------------------------------- what the tail is

  /** The index of the last line that is not blank. */
  function LastNonBlank(tokens: seq<Bytes>): (r: Option<nat>)
    ensures r.Some? ==> r.value < |tokens|
  {
    if tokens == [] then None
    else if !Blank(tokens[|tokens| - 1]) then Some(|tokens| - 1)
    else LastNonBlank(tokens[..|tokens| - 1])
  }

  lemma {:induction false} LastNonBlankMeaning(tokens: seq<Bytes>)
    ensures var r := LastNonBlank(tokens);
            && (r.Some? ==> !Blank(tokens[r.value]))
            && forall i | (if r.Some? then r.value + 1 else 0) <= i < |tokens| :: Blank(tokens[i])
  {
    hide TrimSpace;
    if tokens != [] && Blank(tokens[|tokens| - 1]) {
      LastNonBlankMeaning(tokens[..|tokens| - 1]);
    }
  }

  /** Whether line i and the LF before it, or the whole file, lie within the window. */
  predicate Reaches(file: Bytes, i: nat)
    requires i <= |Tokens(file)|
  {
    || |file| <= RESUME_WINDOW
    || (i > 0 && |file| - |Join(Tokens(file)[..i])| + 1 <= RESUME_WINDOW)
  }

  /** The last non-blank line of the whole file, when it is an event within reach. */
  function TailLine(w: Wire, file: Bytes): Option<Bytes> {
    var tokens := Tokens(file);
    match LastNonBlank(tokens)
    case None => None
    case Some(i) =>
      var line := TrimSpace(tokens[i]);
      if Reaches(file, i) && Unmarshal(w, line).Some? then Some(line) else None
  }

  /** The bytes after line i: its LF, if it has one, and the blank lines behind it. */
  function Behind(file: Bytes, i: nat): int
    requires i < |Tokens(file)|
  {
    |file| - |Join(Tokens(file)[..i])| - |Tokens(file)[i]|
  }

  lemma FileOfTokens(file: Bytes, i: nat)
    requires i < |Tokens(file)|
    ensures Behind(file, i) >= 0
    ensures i + 1 == |Tokens(file)| ==> Behind(file, i) <= 1
  {
    hide Lines, Fragment;
    var lines := Lines(file);
    SplitJoin(file);
    if i < |lines| {
      assert Tokens(file)[..i] == lines[..i];
      assert lines == lines[..i] + [lines[i]] + lines[i + 1..];
      JoinConcat(lines[..i] + [lines[i]], lines[i + 1..]);
      JoinConcat(lines[..i], [lines[i]]);
      JoinOne(lines[i]);
      if i + 1 == |Tokens(file)| {
        assert lines[i + 1..] == [];
      }
    } else {
      assert Tokens(file)[..i] == lines;
    }
  }

  /** How long an event line may be for a writer to chain from it: the whole file within the window, or the line, the LF
      before it and all that is behind it. A line the verifier judges, but the two bytes around it take past the window,
      starts a fresh chain. */
  lemma ChainedFromExactly(w: Wire, file: Bytes, i: nat)
    requires LastNonBlank(Tokens(file)) == Some(i) && Unmarshal(w, TrimSpace(Tokens(file)[i])).Some?
    ensures TailLine(w, file).Some? <==>
              |file| <= RESUME_WINDOW || (i > 0 && 1 + |Tokens(file)[i]| + Behind(file, i) <= RESUME_WINDOW)
    ensures 0 <= Behind(file, i) && |file| == |Join(Tokens(file)[..i])| + |Tokens(file)[i]| + Behind(file, i)
  {
    hide Tokens, TrimSpace, LastNonBlank, Join;
    FileOfTokens(file, i);
  }

  /** Line i is the last that is not blank, and a writer can see it. */
  predicate InSight(file: Bytes, i: nat) {
    && i < |Tokens(file)| && !Blank(Tokens(file)[i])
    && (forall j | i < j < |Tokens(file)| :: Blank(Tokens(file)[j]))
    && (|file| <= RESUME_WINDOW || (i > 0 && 1 + |Tokens(file)[i]| + Behind(file, i) <= RESUME_WINDOW))
  }

  /** What a writer chains from is the last line of the file that is not blank, or nothing: never a line before it. */
  lemma TailMeaning(w: Wire, file: Bytes, line: Bytes)
    ensures TailLine(w, file) == Some(line) <==>
              Unmarshal(w, line).Some? && exists i: nat :: InSight(file, i) && line == TrimSpace(Tokens(file)[i])
  {
    hide Tokens, TrimSpace, LastNonBlank, Join;
    LastNonBlankMeaning(Tokens(file));
    var last := LastNonBlank(Tokens(file));
    if last.Some? {
      FileOfTokens(file, last.value);
      assert TailLine(w, file).Some? ==> InSight(file, last.value);
    }
    if i: nat :| InSight(file, i) {
      assert last == Some(i);
    }
  }

  // ---------------------------------------------------------------- the backward search

  /** bytes.LastIndexByte(s, LF) + 1. */
  function AfterLastLF(s: Bytes): (k: nat)
    ensures k <= |s| && (k > 0 ==> s[k - 1] == LF) && LF !in s[k..]
  {
    if s == [] then 0
    else if s[|s| - 1] == LF then |s|
    else
      var k := AfterLastLF(s[..|s| - 1]);
      assert s[k..] == s[..|s| - 1][k..] + [s[|s| - 1]];
      k
  }

  lemma AfterLastLFOf(a: Bytes, b: Bytes)
    ensures LF !in b && EndsLine(a) ==> AfterLastLF(a + b) == |a|
    ensures AfterLastLF(b) > 0 ==> AfterLastLF(a + b) == |a| + AfterLastLF(b)
  {
    hide AfterLastLF;
    var s, k := a + b, AfterLastLF(b);
    if LF !in b && EndsLine(a) {
      assert s[|a|..] == b;
      AfterLastLFIs(s, |a|);
    } else if k > 0 {
      assert s[|a| + k..] == b[k..];
      assert s[|a| + k - 1] == b[k - 1];
      AfterLastLFIs(s, |a| + k);
    }
  }

  lemma AfterLastLFIs(s: Bytes, j: nat)
    requires j <= |s| && (j > 0 ==> s[j - 1] == LF) && LF !in s[j..]
    ensures AfterLastLF(s) == j
  {
    hide AfterLastLF;
    NotAfter(s, j, AfterLastLF(s));
    NotAfter(s, AfterLastLF(s), j);
  }

  lemma NotAfter(s: Bytes, j: nat, k: nat)
    requires j <= |s| && k <= |s| && (j > 0 ==> s[j - 1] == LF) && LF !in s[k..]
    ensures j <= k
  {
    if j > 0 {
      InSuffix(s, j - 1, |s| - k);
    }
  }

  /** Trimming a file leaves everything before its last non-blank line, and that line trimmed. */
  lemma {:induction false} TrimFile(lines: seq<Bytes>, rest: Bytes)
    ensures var i := LastNonBlank(lines + [rest]);
            TrimRight(Join(lines) + rest) ==
            if i.None? then [] else Join((lines + [rest])[..i.value]) + TrimRight((lines + [rest])[i.value])
    decreases |lines|
  {
    hide SpaceTail, TrimRight, TrimSpace;
    var tokens := lines + [rest];
    JoinEndsLF(lines);
    TrimRightOfLastLine(Join(lines), rest);
    BlankMeaning(rest);
    assert tokens[..|lines|] == lines;
    if Blank(rest) {
      if lines == [] {
        assert TrimRight(Join(lines)) == [];
        assert LastNonBlank(lines).None?;
      } else {
        var before, last := lines[..|lines| - 1], lines[|lines| - 1];
        assert lines == before + [last];
        JoinConcat(before, [last]);
        JoinOne(last);
        Assoc(Join(before), last, [LF]);
        TrimLF(Join(before) + last);
        TrimFile(before, last);
        var i := LastNonBlank(lines);
        if i.Some? { assert tokens[..i.value] == lines[..i.value]; }
      }
    }
  }

  lemma TrimLF(s: Bytes)
    ensures TrimRight(s + [LF]) == TrimRight(s)
  {
    hide SpaceHead;
    assert (s + [LF])[|s|..] == [LF];
    assert (s + [LF])[..|s|] == s;
    assert SpaceTail(s + [LF]) == 1;
  }

  lemma TrimTokens(file: Bytes)
    ensures var i := LastNonBlank(Tokens(file));
            TrimRight(file) ==
            if i.None? then [] else Join(Tokens(file)[..i.value]) + TrimRight(Tokens(file)[i.value])
  {
    hide SpaceTail, TrimRight, TrimLeft, LastNonBlank, Lines, Fragment, Join;
    var lines, rest := Lines(file), Fragment(file);
    SplitJoin(file);
    TrimFile(lines, rest);
    if rest == [] {
      assert Tokens(file) == lines;
      EmptyLineLast(lines);
    }
  }

  lemma EmptyLineLast(lines: seq<Bytes>)
    ensures LastNonBlank(lines + [[]]) == LastNonBlank(lines)
    ensures forall i: nat | i < |lines| :: (lines + [[]])[..i] == lines[..i] && (lines + [[]])[i] == lines[i]
  {
    hide SpaceTail, TrimRight, TrimLeft;
    BlankMeaning([]);
    assert TrimRight([]) <= [];
    assert (lines + [[]])[..|lines|] == lines;
  }

  /** Where the last non-blank line starts, and what of it is left by trimming. */
  lemma LastLineOf(file: Bytes, i: nat)
    requires LastNonBlank(Tokens(file)) == Some(i)
    ensures var r, start := TrimRight(file), |Join(Tokens(file)[..i])|;
            start < |r| && AfterLastLF(r) == start && TrimSpace(r[start..]) == TrimSpace(Tokens(file)[i])
  {
    hide SpaceTail, TrimRight, TrimLeft, AfterLastLF, LastNonBlank, Tokens;
    var tokens := Tokens(file);
    var head, t := Join(tokens[..i]), TrimRight(tokens[i]);
    TrimTokens(file);
    TokensNoLF(file);
    LastNonBlankMeaning(tokens);
    BlankMeaning(tokens[i]);
    TrimRightIdempotent(tokens[i]);
    JoinEndsLF(tokens[..i]);
    AfterLastLFOf(head, t);
    assert (head + t)[|head|..] == t;
  }

  /** The last n bytes show the last line exactly when its LF or the file's first byte is among them. */
  lemma WindowShows(file: Bytes, n: nat, i: nat)
    requires n <= |file| && LastNonBlank(Tokens(file)) == Some(i)
    ensures var r := TrimRight(file[|file| - n..]);
            var start := AfterLastLF(r);
            start > 0 || n == |file| ==>
              start < |r| && |file| - n + start == |Join(Tokens(file)[..i])|
              && TrimSpace(r[start..]) == TrimSpace(Tokens(file)[i])
    ensures AfterLastLF(TrimRight(file[|file| - n..])) == 0 && n < |file| ==>
              !(i > 0 && |file| - |Join(Tokens(file)[..i])| + 1 <= n)
  {
    hide SpaceTail, TrimRight, TrimSpace, AfterLastLF, Tokens, Join, LastNonBlank;
    var p, b := file[..|file| - n], file[|file| - n..];
    assert file == p + b;
    var r := TrimRight(b);
    LastLineOf(file, i);
    if AfterLastLF(r) > 0 {
      assert r[AfterLastLF(r) - 1] == LF;
      TrimRightKeepsLine(p, b);
      AfterLastLFOf(p, r);
      assert (p + r)[|p| + AfterLastLF(r)..] == r[AfterLastLF(r)..];
    } else if n == |file| {
      assert b == file;
    } else if i > 0 && |file| - |Join(Tokens(file)[..i])| + 1 <= n {
      TrimRightOfSuffix(p, b);
      LFWithin(p, r);
    }
  }

  lemma LFWithin(p: Bytes, r: Bytes)
    ensures AfterLastLF(p + r) > |p| ==> AfterLastLF(r) > 0
  {
    hide AfterLastLF;
    var k := AfterLastLF(p + r);
    if k > |p| {
      assert r[k - |p| - 1] == (p + r)[k - 1];
      NotAfter(r, k - |p|, AfterLastLF(r));
    }
  }

  /** A window that holds nothing but white space, of a file that is nothing else. */
  lemma WindowBlank(file: Bytes, n: nat)
    requires n <= |file| && LastNonBlank(Tokens(file)).None?
    ensures AfterLastLF(TrimRight(file[|file| - n..])) == 0 && (n == |file| ==> TrimRight(file[|file| - n..]) == [])
  {
    hide SpaceTail, TrimRight, TrimLeft, AfterLastLF;
    var p, b := file[..|file| - n], file[|file| - n..];
    assert file == p + b;
    TrimTokens(file);
    if n == |file| { assert b == file; }
    var r := TrimRight(b);
    if AfterLastLF(r) > 0 {
      assert r[AfterLastLF(r) - 1] == LF;
      TrimRightKeepsLine(p, b);
    }
  }

  /** What a window at the end of a file shows: nothing yet, or the tail line if there is one. whole says
      that the window begins at the first byte of the file. */
  function Shown(w: Wire, window: Bytes, whole: bool): Option<Option<Bytes>> {
    var trimmed := TrimRight(window);
    var start := AfterLastLF(trimmed);
    if trimmed == [] && whole then Some(None)
    else if start > 0 || whole then
      var line := TrimSpace(trimmed[start..]);
      Some(if Unmarshal(w, line).Some? then Some(line) else None)
    else None
  }

  /** The first window that shows anything shows the tail line of the whole file. */
  lemma WindowAnswers(w: Wire, file: Bytes, n: nat)
    requires n <= |file| && n <= RESUME_WINDOW
    ensures var shown := Shown(w, file[|file| - n..], n == |file|);
            && (shown.Some? ==> shown.value == TailLine(w, file))
            && (shown.None? ==> n < |file| && (n == RESUME_WINDOW ==> TailLine(w, file).None?))
  {
    hide SpaceTail, TrimRight, TrimSpace, AfterLastLF, Tokens, LastNonBlank;
    var last := LastNonBlank(Tokens(file));
    if last.None? {
      WindowBlank(file, n);
    } else {
      WindowShows(file, n, last.value);
    }
  }

  lemma Chunks(file: Bytes, i: nat, j: nat)
    requires i <= j <= |file|
    ensures file[i..j] + file[j..] == file[i..]
    ensures i < |file| ==> (file[i..][|file[i..]| - 1] == LF <==> EndsLine(file))
  {
  }

  /** readTail on the bytes of a file. I/O errors apart, every shape of file is an answer. */
  method ReadTail(w: Wire, file: Bytes) returns (t: Tail)
    ensures t == Tail(TailLine(w, file), EndsLine(file))
  {
    hide TailLine, EndsLine, Shown;
    var size := |file|;
    if size == 0 {
      t := EmptyTail(w, file);
      return;
    }
    var buf: Bytes := [];
    var n := TAIL_CHUNK;
    while true
      invariant |buf| < size && |buf| < RESUME_WINDOW && buf == file[size - |buf|..]
      invariant n == if buf == [] then TAIL_CHUNK else 2 * |buf|
      decreases (if size < RESUME_WINDOW then size else RESUME_WINDOW) - |buf|
    {
      n := if n < size then n else size;
      n := if n < RESUME_WINDOW then n else RESUME_WINDOW;
      var more := n - |buf|;
      if more > 0 {
        Chunks(file, size - n, size - n + more);
        buf := file[size - n..size - n + more] + buf;
      }
      WindowAnswers(w, file, n);
      var shown := Shown(w, buf, n == size);
      if shown.Some? {
        return Tail(shown.value, buf[|buf| - 1] == LF);
      }
      if n == RESUME_WINDOW {
        return Tail(None, buf[|buf| - 1] == LF);
      }
      n := n * 2;
    }
  }

  method EmptyTail(w: Wire, file: Bytes) returns (t: Tail)
    requires file == []
    ensures t == Tail(TailLine(w, file), EndsLine(file))
  {
    hide SpaceTail, TrimSpace;
    WindowAnswers(w, file, 0);
    assert TrimRight(file[|file|..]) <= file[|file|..];
    t := Tail(None, true);
  }
}
