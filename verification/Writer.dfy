/** ChainedWriter: one append, under the lock, chained from the last line on disk. */
module Writer {
  import opened Bytes
  import opened Wrappers
  import opened Wire
  import opened Tail
  import opened Chain

  // ---------------------------------------------------------------- what one append writes

  /** The prev_hash of the next event: the hash of the tail line, "" at a chain head. */
  function NextHash(w: Wire, file: Bytes): string {
    match TailLine(w, file)
    case None => ""
    case Some(line) => if ChainHashRaw(w, line).Some? then ChainHashRaw(w, line).value else ""
  }

  /** What a writer stamps is nothing or the text of a digest. */
  lemma NextHashForm(w: Wire, file: Bytes)
    requires Lawful(w)
    ensures NextHash(w, file) == "" || IsHashText(NextHash(w, file))
  {
    hide IsHashText, HashText, TailLine;
    var t := TailLine(w, file);
    if t.Some? && CanonicalizeRaw(w, t.value).Some? {
      HashTextForm(Sha(w, CanonicalizeRaw(w, t.value).value));
    }
  }

  function Stamped(w: Wire, file: Bytes, e: Event): Event { e.(prevHash := NextHash(w, file)) }

  /** The encoded line, when the event can be encoded and the result can be hashed. */
  function Encoded(w: Wire, file: Bytes, e: Event): Option<Bytes> {
    var data := Marshal(w, Stamped(w, file, e));
    if data.Some? && ChainHashRaw(w, data.value).Some? then data else None
  }

  /** A newline of its own for a file that ends mid-line. */
  function Separator(file: Bytes): Bytes { if EndsLine(file) then [] else [LF] }

  function LineFor(file: Bytes, data: Bytes): Bytes { Separator(file) + data + [LF] }

  /** What is left of a write when only n of its bytes reach the disk. */
  function Partial(line: Bytes, n: nat): Bytes { if n <= |line| then line[..n] else line }

  // ---------------------------------------------------------------- tokens of a file that grew

  lemma OneToken(d: Bytes)
    requires NoLF(d) && d != []
    ensures Tokens(d) == [d] && Tokens(d + [LF]) == [d]
  {
    SplitUnique([], d);
    assert Join([]) + d == d;
    SplitUnique([d], []);
    JoinOne(d);
    assert Join([d]) + [] == d + [LF];
  }

  lemma SeparatorTokens(file: Bytes)
    ensures EndsLine(file + Separator(file)) && Tokens(file + Separator(file)) == Tokens(file)
  {
    EndsLineMeaning(file);
    if EndsLine(file) {
      assert file + [] == file;
    } else {
      SplitClose(file, []);
      assert [] + [LF] == [LF];
      assert Fragment(file) + [] == Fragment(file);
    }
  }

  /** How much of the data the first n bytes of a line hold. */
  function DataIn(file: Bytes, data: Bytes, n: nat): (k: nat)
    ensures k <= |data|
  {
    var s := |Separator(file)|;
    if n <= s then 0 else if n - s <= |data| then n - s else |data|
  }

  /** A write cut anywhere adds at most one token: as much of the data as was written. */
  lemma PartialTokens(file: Bytes, data: Bytes, n: nat)
    requires NoLF(data) && data != []
    ensures var k := DataIn(file, data, n);
            Tokens(file + Partial(LineFor(file, data), n)) ==
            Tokens(file) + if k == 0 then [] else [data[..k]]
  {
    hide Tokens, EndsLine;
    var sep, line, k := Separator(file), LineFor(file, data), DataIn(file, data, n);
    SeparatorTokens(file);
    if n <= |sep| {
      if n == 0 {
        assert file + line[..n] == file;
      } else {
        assert line[..n] == sep;
      }
    } else {
      var piece := if n - |sep| <= |data| then data[..k] else data + [LF];
      assert Partial(line, n) == sep + piece;
      Assoc(file, sep, piece);
      TokensConcat(file + sep, piece);
      assert data[..|data|] == data;
      assert LF !in data[..k];
      OneToken(data[..k]);
      OneToken(data);
    }
  }

  // ---------------------------------------------------------------- how the verifier reads it

  /** What a fragment of an encoded event is to the verifier. */
  lemma TornIsMalformed(w: Wire, e: Event, k: nat, prev: Option<Bytes>)
    requires Lawful(w) && Marshal(w, e).Some? && 0 < k < |Marshal(w, e).value|
    ensures !Blank(Marshal(w, e).value[..k])
    ensures Unmarshal(w, TrimSpace(Marshal(w, e).value[..k])).None?
    ensures Judge(w, prev, TrimSpace(Marshal(w, e).value[..k])) == Malformed
  {
    hide TrimSpace, SpaceTail;
    var d := Marshal(w, e).value;
    TrimOpen(d[..k]);
    var r := TrimRight(d[..k]);
    assert r == d[..|r|];
  }

  lemma TailIsPrev(w: Wire, file: Bytes)
    ensures TailLine(w, file).Some? ==>
              PrevLine(Tokens(file)) == TailLine(w, file) && Unmarshal(w, TailLine(w, file).value).Some?
  {
  }

  /** What the writer stamps, the verifier finds: an appended event is a head or chained, never a break. */
  lemma AppendedIsChained(w: Wire, file: Bytes, e: Event)
    requires Lawful(w) && Encoded(w, file, e).Some?
    ensures var d := Encoded(w, file, e).value;
            && !Blank(d) && TrimSpace(d) == d
            && Judge(w, PrevLine(Tokens(file)), TrimSpace(d)) ==
               if !Complete(e) then Malformed else if NextHash(w, file) == "" then Head else Chained
  {
    hide TrimSpace, TailLine, PrevLine, Tokens;
    TrimFramed(Encoded(w, file, e).value);
    TailIsPrev(w, file);
  }

  // ---------------------------------------------------------------- the writer

  class SharedFile {
    var bytes: Bytes
    constructor (initial: Bytes)
      ensures bytes == initial
    { bytes := initial; }
  }

  /** What the operating system does to one write: whether the tail can be read, and how many bytes of
      the line reach the file before an error, if there is one. */
  datatype IO = IO(tailReads: bool, accepts: nat)

  datatype Outcome = Written | TailUnreadable | NotEncoded | Unhashable | WriteFailed

  class ChainedWriter {
    const file: SharedFile
    // the prev_hash of the next event, "" while at a chain head
    var next: string
    // what the chain resumed from at open, "" for a fresh chain
    var resumedFrom: string

    constructor (w: Wire, f: SharedFile, tailReads: bool)
      ensures file == f && next == ""
      ensures resumedFrom == if tailReads then NextHash(w, f.bytes) else ""
    {
      hide TailLine, EndsLine, ChainHashRaw, Unmarshal;
      file := f;
      next := "";
      resumedFrom := "";
      new;
      if tailReads {
        var t := ReadTail(w, f.bytes);
        if t.line.Some? {
          var h := ChainHashRaw(w, t.line.value);
          if h.Some? {
            resumedFrom := h.value;
          }
        }
      }
    }

    /** appendLocked, with the file lock held. */
    method AppendLocked(w: Wire, e: Event, io: IO) returns (r: Outcome)
      modifies this`next, file
      ensures next == if io.tailReads then NextHash(w, old(file.bytes)) else old(next)
      ensures r == TailUnreadable <==> !io.tailReads
      ensures r == NotEncoded <==> io.tailReads && Marshal(w, Stamped(w, old(file.bytes), e)).None?
      ensures r == Unhashable <==>
              io.tailReads && Marshal(w, Stamped(w, old(file.bytes), e)).Some? && Encoded(w, old(file.bytes), e).None?
      ensures r in {TailUnreadable, NotEncoded, Unhashable} ==> file.bytes == old(file.bytes)
      ensures r in {Written, WriteFailed} ==>
                && io.tailReads && Encoded(w, old(file.bytes), e).Some?
                && var line := LineFor(old(file.bytes), Encoded(w, old(file.bytes), e).value);
                && (r == Written <==> io.accepts >= |line|)
                && file.bytes == old(file.bytes) + Partial(line, io.accepts)
    {
      hide TailLine, EndsLine, ChainHashRaw;
      if !io.tailReads {
        return TailUnreadable;
      }
      var t := ReadTail(w, file.bytes);
      next := "";
      if t.line.Some? {
        var h := ChainHashRaw(w, t.line.value);
        if h.Some? {
          next := h.value;
        }
      }
      assert next == NextHash(w, file.bytes);
      var data := Marshal(w, e.(prevHash := next));
      if data.None? {
        return NotEncoded;
      }
      if ChainHashRaw(w, data.value).None? {
        return Unhashable;
      }
      var line := [];
      if !t.endsNewline {
        line := line + [LF];
      }
      line := line + data.value;
      line := line + [LF];
      assert line == LineFor(file.bytes, data.value);
      if io.accepts < |line| {
        file.bytes := file.bytes + line[..io.accepts];
        return WriteFailed;
      }
      file.bytes := file.bytes + line;
      return Written;
    }
  }
}
