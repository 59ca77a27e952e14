/** A small encoding of events and records under which every law of the model holds: what the theorems ask of JSON,
    RFC 8785 and a signer can be had together. */
module Small {
  import opened Bytes
  import opened Wrappers
  import opened Wire
  import opened Tail
  import opened Chain
  import opened Scan
  import opened Record
  import opened Checkpoints
  import opened CheckpointState
  import opened CheckpointRuns
  import Protocol
  import Resume
  import Writer

  /** A complete event. */
  const FIRST: Event := Event("schema", "ts", "source", "type", "agent", "", "")

  // ---------------------------------------------------------------- events

  /** The texts this small encoding carries. */
  predicate Carried(s: string) {
    forall i | 0 <= i < |s| :: s[i] as int < 0x100 && s[i] as int != LF as int && s[i] as int != CLOSE as int
  }

  function Carry(s: string): (d: Bytes)
    requires Carried(s)
    ensures |d| == |s| && LF !in d && CLOSE !in d
  {
    if s == [] then []
    else [s[0] as int as byte] + Carry(s[1..])
  }

  function Uncarry(d: Bytes): string {
    if d == [] then "" else [d[0] as int as char] + Uncarry(d[1..])
  }

  lemma {:induction false} Uncarried(s: string)
    requires Carried(s)
    ensures Uncarry(Carry(s)) == s
  {
    if s != "" {
      Uncarried(s[1..]);
      assert Carry(s)[1..] == Carry(s[1..]);
    }
  }

  /** Braces around a mark of completeness and prev_hash. */
  function SmallMarshal(e: Event): Option<Bytes> {
    if !Carried(e.prevHash) then None
    else Some([OPEN, if Complete(e) then 1 else 0] + Carry(e.prevHash) + [CLOSE])
  }

  function SmallUnmarshal(d: Bytes): Option<Event> {
    if |d| >= 3 && d[0] == OPEN && d[1] == 1 && d[|d| - 1] == CLOSE
    then Some(Event("schema", "ts", "source", "type", "agent", "", Uncarry(d[2..|d| - 1]))) else None
  }

  function SmallWire(): Wire {
    Wire(SmallUnmarshal, SmallMarshal, (d: Bytes) => Some(d), (d: Bytes) => SmallDigest(d))
  }

  /** 32 bytes that tell lengths apart, up to 256. */
  function SmallDigest(d: Bytes): (r: Bytes)
    ensures |r| == 32
  {
    [(|d| % 256) as byte] + seq(31, _ => 0)
  }

  lemma OneByteMoreIsNoCollision(a: Bytes, b: Bytes)
    requires |a| == |b| + 1
    ensures !Collision(SmallWire(), a, b)
  {
    assert SmallDigest(a)[0] != SmallDigest(b)[0];
  }

  lemma SmallRoundTrip(e: Event)
    requires SmallMarshal(e).Some?
    ensures var d := SmallMarshal(e).value;
            && Framed(d)
            && (SmallUnmarshal(d).Some? <==> Complete(e))
            && (Complete(e) ==> SmallUnmarshal(d).value.prevHash == e.prevHash)
            && forall k: nat | k < |d| :: SmallUnmarshal(d[..k]).None?
  {
    var d := SmallMarshal(e).value;
    assert d[2..|d| - 1] == Carry(e.prevHash);
    Uncarried(e.prevHash);
    forall k: nat | 3 <= k < |d|
      ensures d[..k][k - 1] != CLOSE
    {
      assert d[k - 1] in Carry(e.prevHash);
    }
  }

  lemma SmallIs(e: Event, d: Bytes)
    ensures Marshal(SmallWire(), e) == SmallMarshal(e) && Unmarshal(SmallWire(), d) == SmallUnmarshal(d)
    ensures |Sha(SmallWire(), d)| == 32
  {
  }

  lemma SmallIsLawful()
    ensures Lawful(SmallWire())
  {
    hide SmallMarshal, SmallUnmarshal, SmallWire, Marshal, Unmarshal, Sha, Framed, Complete;
    var w := SmallWire();
    forall e: Event | Marshal(w, e).Some?
      ensures Framed(Marshal(w, e).value)
      ensures Unmarshal(w, Marshal(w, e).value).Some? <==> Complete(e)
      ensures Complete(e) ==> Unmarshal(w, Marshal(w, e).value).value.prevHash == e.prevHash
    {
      SmallIs(e, Marshal(w, e).value);
      SmallRoundTrip(e);
    }
    forall e: Event, k: nat | Marshal(w, e).Some? && k < |Marshal(w, e).value|
      ensures Unmarshal(w, Marshal(w, e).value[..k]).None?
    {
      SmallIs(e, Marshal(w, e).value[..k]);
      SmallRoundTrip(e);
    }
    forall b: Bytes
      ensures |Sha(w, b)| == 32
    {
      SmallIs(FIRST, b);
    }
    SmallIs(FIRST, []);
    NothingIsNoEvent();
  }

  lemma NothingIsNoEvent()
    ensures SmallUnmarshal([]).None?
  {
  }

  /** The laws are met, by an encoding under which complete events encode and decode with any hash as prev_hash. */
  lemma LawsCanBeMet(e: Event)
    requires Complete(e) && (e.prevHash == "" || IsHashText(e.prevHash))
    ensures Lawful(SmallWire())
    ensures Marshal(SmallWire(), e).Some? && Unmarshal(SmallWire(), Marshal(SmallWire(), e).value).Some?
  {
    hide SmallMarshal, SmallWire, IsHashText, Complete;
    SmallIsLawful();
    SmallCarries(e);
    SmallIs(e, []);
  }

  lemma SmallCarries(e: Event)
    requires e.prevHash == "" || IsHashText(e.prevHash)
    ensures SmallMarshal(e).Some?
  {
    hide SmallMarshal, Carried, IsHashText;
    HashIsCarried(e.prevHash);
    SmallCarried(e);
  }

  lemma HashIsCarried(s: string)
    requires s == "" || IsHashText(s)
    ensures Carried(s)
  {
    forall i | 0 <= i < |s|
      ensures s[i] as int < 0x100 && s[i] as int != LF as int && s[i] as int != CLOSE as int
    {
      if i < 7 {
        assert s[i] == HASH_PREFIX[i];
      } else {
        HexIsPlain(s[i]);
      }
    }
  }

  lemma HexIsPlain(c: char)
    requires c in HEX
    ensures '0' <= c <= 'f'
  {
  }

  /** An ordinary event of the protocol's theorems. */
  lemma CompleteIsOrdinary(e: Event)
    requires Complete(e)
    ensures Protocol.Ordinary(SmallWire(), e)
  {
    hide SmallMarshal, SmallWire;
    forall p: string | (p == "" || IsHashText(p)) && Marshal(SmallWire(), e.(prevHash := p)).Some?
      ensures |Marshal(SmallWire(), e.(prevHash := p)).value| + 2 <= RESUME_WINDOW
    {
      SmallIs(e.(prevHash := p), []);
      SmallLength(e.(prevHash := p));
    }
  }

  lemma SmallLength(e: Event)
    requires SmallMarshal(e).Some?
    ensures |SmallMarshal(e).value| == |e.prevHash| + 3
  {
  }

  // ---------------------------------------------------------------- records

  /** A character as three bytes, none of them an LF or a zero. */
  function PackChar(c: char): Bytes {
    var x := c as int;
    [(128 + x % 128) as byte, (128 + x / 128 % 128) as byte, (128 + x / 16384) as byte]
  }

  function UnpackChar(a: byte, b: byte, c: byte): char {
    var x := (a as int - 128) + (b as int - 128) * 128 + (c as int - 128) * 16384;
    if 0 <= x < 0xD800 || 0xE000 <= x < 0x11_0000 then x as char else '?'
  }

  /** Texts, each closed by a zero. */
  function Pack(ts: seq<string>): (b: Bytes)
    ensures LF !in b
    decreases |ts|, if ts == [] then 0 else |ts[0]|
  {
    if ts == [] then []
    else if ts[0] == "" then [0] + Pack(ts[1..])
    else PackChar(ts[0][0]) + Pack([ts[0][1..]] + ts[1..])
  }

  function Unpack(b: Bytes): seq<string>
    decreases |b|
  {
    if b == [] then []
    else if b[0] == 0 then [""] + Unpack(b[1..])
    else if |b| < 3 then []
    else
      var rest := Unpack(b[3..]);
      if rest == [] then [] else [[UnpackChar(b[0], b[1], b[2])] + rest[0]] + rest[1..]
  }

  lemma CharBack(c: char)
    ensures var p := PackChar(c); p[0] != 0 && UnpackChar(p[0], p[1], p[2]) == c
  {
    Base128(c as int);
  }

  lemma Base128(x: nat)
    ensures x % 128 + x / 128 % 128 * 128 + x / 16384 * 16384 == x
  {
    assert x / 128 / 128 == x / 16384;
  }

  lemma {:induction false} Unpacked(ts: seq<string>)
    ensures Unpack(Pack(ts)) == ts
    decreases |ts|, if ts == [] then 0 else |ts[0]|
  {
    hide PackChar, UnpackChar;
    if ts != [] {
      var b := Pack(ts);
      if ts[0] == "" {
        Unpacked(ts[1..]);
        assert b[1..] == Pack(ts[1..]);
      } else {
        var rest := [ts[0][1..]] + ts[1..];
        Unpacked(rest);
        CharBack(ts[0][0]);
        PackedChar(ts[0][0]);
        assert b[3..] == Pack(rest);
        assert [ts[0][0]] + ts[0][1..] == ts[0];
      }
    }
  }

  lemma PackedChar(c: char)
    ensures |PackChar(c)| == 3
  {
  }

  lemma {:induction false} PackedLength(ts: seq<string>)
    ensures |Pack(ts)| == 3 * Characters(ts) + |ts|
    decreases |ts|, if ts == [] then 0 else |ts[0]|
  {
    if ts != [] {
      if ts[0] == "" {
        PackedLength(ts[1..]);
      } else {
        var rest := [ts[0][1..]] + ts[1..];
        PackedLength(rest);
        assert rest[1..] == ts[1..];
      }
    }
  }

  function Characters(ts: seq<string>): nat {
    if ts == [] then 0 else |ts[0]| + Characters(ts[1..])
  }

  /** A count as ten base-128 digits. */
  function Digits(x: int, n: nat): (s: string)
    ensures |s| == n
    decreases n
  {
    if n == 0 then "" else [(x % 128) as char] + Digits(x / 128, n - 1)
  }

  function Number(s: string): int {
    if s == "" then 0 else s[0] as int + 128 * Number(s[1..])
  }

  function Power(n: nat): nat { if n == 0 then 1 else 128 * Power(n - 1) }

  lemma {:induction false} NumberBack(x: nat, n: nat)
    requires x < Power(n)
    ensures Number(Digits(x, n)) == x
  {
    if n > 0 {
      NumberBack(x / 128, n - 1);
      assert Digits(x, n)[1..] == Digits(x / 128, n - 1);
    }
  }

  /** A signature as one character a byte. */
  function SigText(b: Bytes): (s: string)
    ensures |s| == |b|
  {
    seq(|b|, i requires 0 <= i < |b| => b[i] as int as char)
  }

  function SigBytes(s: string): Option<Bytes> {
    if exists i | 0 <= i < |s| :: s[i] as int >= 0x100 then None
    else Some(seq(|s|, i requires 0 <= i < |s| => s[i] as int as byte))
  }

  lemma SigBack(b: Bytes)
    ensures SigBytes(SigText(b)) == Some(b)
  {
    var s := SigText(b);
    assert forall i | 0 <= i < |s| :: s[i] as int == b[i] as int;
    assert SigBytes(s).Some? && SigBytes(s).value == b;
  }

  /** The texts of a record, the signature last. */
  function Texts(r: Record): seq<string> {
    var f := r.fields;
    SignedTexts(f, if r.Signed? then r.kid else "") + if r.Signed? then [SigText(r.sig)] else []
  }

  function SignedTexts(f: Fields, kid: string): seq<string> {
    [Digits(f.count, 10), f.kind, f.stream, f.head, f.prefix, f.at, f.prev, kid]
  }

  function SmallView(raw: Bytes): View {
    var t := Unpack(raw);
    if |t| != 8 && |t| != 9 then NotObject
    else
      var signed := |t| == 9;
      Object(Members(
        Some(1), Some(t[1]), Some(t[2]), Some(Number(t[0])), Some(t[3]), Some(t[4]), Some(t[5]), Some(t[6]),
        if signed then Some(ALG) else None,
        if signed then Some(t[7]) else None,
        if signed then Some(t[8]) else None,
        if signed then None else Some(KEY_EXPIRED)))
  }

  function SmallPeek(raw: Bytes): (string, int) {
    var t := Unpack(raw);
    if |t| != 8 && |t| != 9 then ("", 0) else (t[1], Number(t[0]))
  }

  function SmallNotary(): Notary {
    Notary(
      (r: Record) => Pack(Texts(r)),
      (f: Fields, kid: string) => Pack(SignedTexts(f, kid)),
      SmallView,
      SmallPeek,
      (raw: Bytes) => if |Unpack(raw)| == 9 then Some(Pack(Unpack(raw)[..8])) else None,
      SigText,
      SigBytes,
      (key: Key, input: Bytes, sig: Bytes) => true)
  }

  lemma SmallReadsBack(r: Record)
    ensures var n := SmallNotary();
            && Encode(n, r) != [] && LF !in Encode(n, r)
            && (Recordable(r) ==> ViewOf(n, Encode(n, r)) == Object(MembersOf(n, r)))
            && (r.Signed? ==> WithoutSig(n, Encode(n, r)) == Some(SigningInput(n, r.fields, r.kid)))
  {
    hide Pack, Unpack, Digits, Number;
    Unpacked(Texts(r));
    PackedLength(Texts(r));
    assert Texts(r)[..8] == SignedTexts(r.fields, if r.Signed? then r.kid else "");
    if Recordable(r) {
      EnoughDigits();
      NumberBack(r.fields.count, 10);
    }
  }

  lemma EnoughDigits()
    ensures MAX_COUNT < Power(10)
  {
    assert Power(2) == 16384;
    assert Power(4) == 16384 * 16384;
    assert Power(8) == Power(4) * 16384 * 16384;
  }

  lemma SmallNotaryIsLawful()
    ensures NotaryLaws(SmallNotary())
  {
    hide SmallNotary, Recordable, MembersOf;
    forall r: Record
      ensures var n := SmallNotary();
              && Encode(n, r) != [] && LF !in Encode(n, r)
              && (Recordable(r) ==> ViewOf(n, Encode(n, r)) == Object(MembersOf(n, r)))
              && (r.Signed? ==> WithoutSig(n, Encode(n, r)) == Some(SigningInput(n, r.fields, r.kid)))
    {
      SmallReadsBack(r);
    }
    forall b: Bytes
      ensures Unbase64(SmallNotary(), Base64(SmallNotary(), b)) == Some(b)
    {
      SmallBase64(b);
    }
    SmallPeeks();
  }

  lemma SmallBase64(b: Bytes)
    ensures Unbase64(SmallNotary(), Base64(SmallNotary(), b)) == Some(b)
  {
    SigBack(b);
  }

  lemma SmallPeeks()
    ensures PeekLaw(SmallNotary())
  {
    hide Unpack, Number;
  }

  // ---------------------------------------------------------------- all that a run is granted

  const NAME: string := "s.ndjson"
  const KID: string := "k"

  function SmallKeys(): map<string, Key> { map[KID := []] }

  function SmallSigner(): Signer { Signer(KID, (input: Bytes) => Signature(seq(64, _ => 0))) }

  lemma SmallRecordsFit()
    ensures RecordsFit(SmallNotary(), NAME, SmallKeys())
  {
    hide SmallNotary, IsHashText, IsTimestamp;
    forall r: Record | Plain(r, NAME, SmallKeys())
      ensures |Encode(SmallNotary(), r)| <= RECORD_CAP
    {
      SmallFits(r);
    }
  }

  lemma SmallFits(r: Record)
    requires Plain(r, NAME, SmallKeys())
    ensures |Encode(SmallNotary(), r)| <= RECORD_CAP
  {
    hide Pack, Digits;
    PackedLength(Texts(r));
    var f := r.fields;
    var last := if r.Signed? then [SigText(r.sig)] else [];
    assert Characters(last) <= 64;
    CharactersOf(SignedTexts(f, if r.Signed? then r.kid else ""), last);
    assert |f.kind| <= 10 && |f.head| == 71 && |f.prefix| == 71 && |f.prev| == 71 && |f.at| == 24;
  }

  lemma CharactersOf(ts: seq<string>, more: seq<string>)
    requires |ts| == 8
    ensures Characters(ts + more) ==
            |ts[0]| + |ts[1]| + |ts[2]| + |ts[3]| + |ts[4]| + |ts[5]| + |ts[6]| + |ts[7]| + Characters(more)
  {
    CharactersTogether(ts, more);
    assert ts[0..] == ts && ts[8..] == [];
    Peel(ts, 0);
    Peel(ts, 1);
    Peel(ts, 2);
    Peel(ts, 3);
    Peel(ts, 4);
    Peel(ts, 5);
    Peel(ts, 6);
    Peel(ts, 7);
  }

  lemma Peel(ts: seq<string>, k: nat)
    requires k < |ts|
    ensures Characters(ts[k..]) == |ts[k]| + Characters(ts[k + 1..])
  {
    assert ts[k..][1..] == ts[k + 1..];
  }

  lemma {:induction false} CharactersTogether(ts: seq<string>, more: seq<string>)
    ensures Characters(ts + more) == Characters(ts) + Characters(more)
  {
    if ts == [] {
      assert ts + more == more;
    } else {
      CharactersTogether(ts[1..], more);
      assert (ts + more)[1..] == ts[1..] + more;
    }
  }

  /** Every law of the model holds at once, with records that fit and a signer that is honest and always signs. */
  lemma EveryLawCanBeMet(at: string, m: Moment)
    requires IsTimestamp(at) && m == Moment(0, at, 0, SmallSigner(), RECORD_CAP + 1)
    ensures Granted(SmallWire(), SmallNotary(), NAME, SmallKeys())
    ensures GoodMoment(SmallNotary(), SmallKeys(), m) && Signs(m)
  {
    hide SmallWire, NotaryLaws, RecordsFit, IsTimestamp;
    SmallIsLawful();
    SmallNotaryIsLawful();
    SmallRecordsFit();
  }

  // ---------------------------------------------------------------- streams that meet the theorems' premises

  /** What a crash leaves: an event, and the first byte of the next one. */
  function TornStream(): Bytes { SmallMarshal(FIRST).value + [LF] + [OPEN] }

  lemma FirstLine()
    ensures var w, d := SmallWire(), SmallMarshal(FIRST).value;
            && |d| == 3 && Framed(d) && !Blank(d) && HeadOf(w, d) != "" && !Unhashable(w, d)
    ensures SmallMarshal(FIRST).Some?
  {
    var w, d := SmallWire(), SmallMarshal(FIRST).value;
    TrimFramed(d);
    assert d == [OPEN, 1, CLOSE];
    SmallHashes(d);
    SmallIs(FIRST, d);
  }

  lemma SmallHashes(d: Bytes)
    ensures ChainHashRaw(SmallWire(), d).Some? && ChainHashRaw(SmallWire(), d).value != ""
  {
    hide Hex;
  }

  lemma OpenBrace()
    ensures var w, d: Bytes := SmallWire(), [OPEN]; !Blank(d) && HeadOf(w, d) == "" && !Unhashable(w, d)
  {
    var w, d: Bytes := SmallWire(), [OPEN];
    TrimOpen(d);
    assert |TrimSpace(d)| <= 1;
    SmallIs(FIRST, TrimSpace(d));
  }

  lemma TornTokens()
    ensures var d, t := SmallMarshal(FIRST).value, TornStream();
            Lines(t) == [d] && Fragment(t) == [OPEN] && Tokens(t) == [d, [OPEN]]
  {
    FirstLine();
    var d := SmallMarshal(FIRST).value;
    JoinOne(d);
    SplitUnique([d], [OPEN]);
  }

  /** A run that meets every premise of the theorem on restarts, its tail a fragment behind an event. */
  lemma ATornRun(cfg: Config, m: Moment)
    ensures var w := SmallWire();
            var s := Run(w, SmallNotary(), cfg, START, [Grow(TornStream())]);
            && s.ck.None? && s.stream == TornStream() && Resume.Broken(w, s.stream) && LastHead(w, s.stream) != ""
            && Complete(FIRST) && Writer.Encoded(w, s.stream, FIRST).Some?
            && |Writer.Encoded(w, s.stream, FIRST).value| <= RESUME_WINDOW
            && var t := Resume.Restarted(w, SmallNotary(), cfg, s, m, FIRST);
            |Lines(Run(w, SmallNotary(), cfg, t, []).stream)| <= MAX_COUNT
  {
    hide Lines, TornStream, SmallWire, SmallNotary, SmallMarshal, Next, Resume.Broken, Resume.Restarted, LastHead,
      Writer.Encoded, Writer.LineFor;
    var w, n := SmallWire(), SmallNotary();
    GrownOnce(w, n, cfg, TornStream());
    TornIsBroken();
    TornWrite();
    var s := Run(w, n, cfg, START, [Grow(TornStream())]);
    RestartedStream(w, n, cfg, s, m, FIRST);
    WrittenLength(w, s.stream, FIRST);
    FewLines(Resume.Rewritten(w, s.stream, FIRST));
  }

  lemma GrownOnce(w: Wire, n: Notary, cfg: Config, t: Bytes)
    ensures var s := Run(w, n, cfg, START, [Grow(t)]); s.stream == t && s.ck.None?
  {
    hide Opened, AfterAppended, Closed;
    var acts := [Grow(t)];
    assert acts[..0] == [] && [] + t == t;
  }

  lemma RestartedStream(w: Wire, n: Notary, cfg: Config, s: CheckpointRuns.Sys, m: Moment, e: Event)
    requires Writer.Encoded(w, s.stream, e).Some?
    ensures Resume.Restarted(w, n, cfg, s, m, e).stream == Resume.Rewritten(w, s.stream, e)
  {
    hide Opened, Writer.Encoded, Writer.LineFor, ResumeOf, Kept, LastGood, Noted, Through;
  }

  lemma WrittenLength(w: Wire, stream: Bytes, e: Event)
    requires Writer.Encoded(w, stream, e).Some?
    ensures |Resume.Rewritten(w, stream, e)| <= |stream| + |Writer.Encoded(w, stream, e).value| + 2
  {
    hide Writer.Encoded;
  }

  lemma TornIsBroken()
    ensures Resume.Broken(SmallWire(), TornStream()) && LastHead(SmallWire(), TornStream()) != ""
  {
    hide Lines, Fragment, TornStream, SmallWire, HeadOf, TrimSpace, Unhashable, SmallMarshal, Tokens, Writer.NextHash;
    TornTokens();
    FirstLine();
    OpenBrace();
    var d := SmallMarshal(FIRST).value;
    var t: seq<Bytes> := [d, [OPEN]];
    assert t[..1] == [d];
    Resume.NotAnEvent(SmallWire(), [OPEN]);
    Resume.NoTail(SmallWire(), TornStream());
  }

  lemma TornWrite()
    ensures var w := SmallWire();
            && Writer.Encoded(w, TornStream(), FIRST) == SmallMarshal(FIRST)
            && Writer.Encoded(w, TornStream(), FIRST).Some?
            && |Writer.Encoded(w, TornStream(), FIRST).value| == 3 && |TornStream()| == 5
  {
    hide Lines, Fragment, HeadOf, TrimSpace, Unhashable;
    var w := SmallWire();
    TornTokens();
    FirstLine();
    OpenBrace();
    Resume.NotAnEvent(w, [OPEN]);
    Resume.NoTail(w, TornStream());
    SmallIs(FIRST, []);
    SmallHashes(SmallMarshal(FIRST).value);
    assert FIRST.(prevHash := "") == FIRST;
  }

  lemma {:induction false} FewLines(s: Bytes)
    ensures |Lines(s)| <= |s|
  {
    SplitJoin(s);
    JoinIsLong(Lines(s));
  }

  lemma {:induction false} JoinIsLong(ls: seq<Bytes>)
    ensures |Join(ls)| >= |ls|
  {
    if ls != [] {
      JoinIsLong(ls[1..]);
    }
  }

  /** An event and an empty line behind it. */
  function BlankStream(): Bytes { SmallMarshal(FIRST).value + [LF] + [LF] }

  /** A resume record is due over it, and the next write chains all the same: no restart follows that record. */
  lemma ABlankTailIsChainedFrom()
    ensures var w, t := SmallWire(), BlankStream();
            && Resume.Readable(w, Tokens(t)) && ResumeDue(w, t) && Writer.NextHash(w, t) != ""
  {
    hide SmallWire, SmallMarshal, TrimSpace, HeadOf, Unhashable, Lines, Fragment;
    FirstLine();
    var w, t, d := SmallWire(), BlankStream(), SmallMarshal(FIRST).value;
    BlankTokens();
    SmallIsLawful();
    Resume.NoHeadOfNothing(w);
    EmptyIsBlank(w);
    assert [d, []][..1] == [d];
    FirstIsRead();
    SmallHashes(d);
  }

  lemma FirstIsRead()
    ensures var d := SmallMarshal(FIRST).value; TrimSpace(d) == d && Unmarshal(SmallWire(), d).Some?
  {
    FirstLine();
    TrimFramed(SmallMarshal(FIRST).value);
    SmallIs(FIRST, SmallMarshal(FIRST).value);
  }

  lemma EmptyIsBlank(w: Wire)
    requires Lawful(w)
    ensures Blank([]) && !Unhashable(w, [])
  {
    hide SpaceTail, SpaceHead;
    assert TrimRight([]) <= [];
    assert TrimSpace([]) == [];
  }

  lemma BlankTokens()
    ensures var d, t := SmallMarshal(FIRST).value, BlankStream();
            Lines(t) == [d, []] && Tokens(t) == [d, []] && |t| == 5
  {
    hide SmallMarshal, Lines, Fragment, TrimSpace;
    FirstLine();
    var d := SmallMarshal(FIRST).value;
    JoinOne(d);
    JoinOne([]);
    JoinConcat([d], [[]]);
    assert [d] + [[]] == [d, []];
    assert [] + [LF] == [LF];
    assert Join([d, []]) + [] == BlankStream();
    SplitUnique([d, []], []);
  }

  // ---------------------------------------------------------------- a record that is refused

  const CONFIG: Config := Config(NAME, 1, 1)

  function FirstStream(): Bytes { SmallMarshal(FIRST).value + [LF] }

  /** A writer opens over one event, another event is appended, a scan fails after one byte, and the next one ends. */
  function DriftingActs(m: Moment): seq<Act> {
    [Grow(FirstStream()), Open(m), Grow(FirstStream()), Fault(1), After(m)]
  }

  /** Its record is refused for its prefix. */
  lemma ADriftedRecordIsRefused(at: string, m: Moment)
    requires IsTimestamp(at) && m == Moment(0, at, 0, SmallSigner(), RECORD_CAP + 1)
    ensures var s := Run(SmallWire(), SmallNotary(), CONFIG, START, DriftingActs(m));
            && |RecordLines(s.side)| == 1
            && ResultAlone(SmallWire(), SmallNotary(), s.stream, RecordLines(s.side), 0, NAME, SmallKeys()).verdict
               == Refused(OtherPrefix)
  {
    hide SmallWire, SmallNotary, SmallKeys, SmallSigner, Run, RecordLines, ResultAlone, FirstStream, IsTimestamp, Lines,
      Granted, GoodMoment, Signs, Through, CountsUnhashable, ResumesAt, GoodActs;
    var w, n := SmallWire(), SmallNotary();
    EveryLawCanBeMet(at, m);
    DriftingRun(m);
    GoodDriftingActs(m);
    var s := Run(w, n, CONFIG, START, DriftingActs(m));
    FewLines(s.stream);
    RefusedExactlyWhenDrifted(w, n, CONFIG, SmallKeys(), DriftingActs(m));
    assert Accounted(w, n, CONFIG, SmallKeys(), s, 0);
    var r := ResultAlone(w, n, s.stream, RecordLines(s.side), 0, NAME, SmallKeys());
    OneByteMoreIsNoCollision(s.log[0].hashed, Through(s.stream, r.count));
  }

  lemma GoodDriftingActs(m: Moment)
    requires GoodMoment(SmallNotary(), SmallKeys(), m)
    ensures GoodActs(SmallNotary(), SmallKeys(), DriftingActs(m))
    ensures forall k | 0 <= k <= 5 :: GoodActs(SmallNotary(), SmallKeys(), DriftingActs(m)[..k])
  {
    hide GoodMoment, FirstStream;
  }

  /** The run, step by step: it ends with one record, one byte too many in it. */
  lemma DriftingRun(m: Moment)
    requires Granted(SmallWire(), SmallNotary(), NAME, SmallKeys()) && GoodMoment(SmallNotary(), SmallKeys(), m)
             && Signs(m)
    ensures var s := Run(SmallWire(), SmallNotary(), CONFIG, START, DriftingActs(m));
            |s.log| == 1 && s.log[0].drift == 1 && |s.stream| == 8
  {
    hide SmallWire, SmallNotary, SmallKeys, Run, Next, Granted, GoodMoment, Signs, FirstStream, Lines, Inv, GoodActs,
      LastHead, AllHashable, Rest, Due, Fragment, Whole, SmallMarshal;
    var w, n, acts := SmallWire(), SmallNotary(), DriftingActs(m);
    var s := Run(w, n, CONFIG, START, acts[..4]);
    BeforeTheScan(m);
    GoodDriftingActs(m);
    StartsLogged(w, n, CONFIG, SmallKeys());
    FewLines(s.stream);
    RunsStayTimed(w, n, CONFIG, SmallKeys(), acts[..4]);
    OneMoreAct(w, n, acts, 4);
    assert acts[..5] == acts;
    OneRecordExactlyWhenDue(w, n, CONFIG, SmallKeys(), s, After(m), m);
    AfterKeepsStream(w, n, s, m);
  }

  lemma AfterKeepsStream(w: Wire, n: Notary, s: CheckpointRuns.Sys, m: Moment)
    ensures Next(w, n, CONFIG, s, After(m)).stream == s.stream
  {
    hide AfterAppended, Rest, AllHashable, Drifted, ScanReach;
  }

  lemma OneMoreAct(w: Wire, n: Notary, acts: seq<Act>, k: nat)
    requires k < |acts|
    ensures Run(w, n, CONFIG, START, acts[..k + 1]) == Next(w, n, CONFIG, Run(w, n, CONFIG, START, acts[..k]), acts[k])
  {
    hide Next;
    assert acts[..k + 1][..k] == acts[..k];
  }

  /** Where the run stands when the scan that ends begins. */
  lemma BeforeTheScan(m: Moment)
    ensures var s := Run(SmallWire(), SmallNotary(), CONFIG, START, DriftingActs(m)[..4]);
            && s.log == [] && s.drift == Drift(1, 0) && |s.stream| == 8 && s.ck.Some?
            && var c := s.ck.value;
            && AllHashable(SmallWire(), Rest(c, s.stream)) && Lines(Rest(c, s.stream)) != []
            && LastHead(SmallWire(), s.stream) != "" && Due(CONFIG, s, m)
  {
    hide SmallWire, SmallNotary, SmallMarshal, Run, FirstStream, Lines, Fragment, Whole, LastHead, AllHashable,
      FullRead, DriftingActs, Rest;
    FourActs(m);
    TwoEvents();
    OpensFresh(SmallWire(), SmallNotary(), m);
  }

  lemma FourActs(m: Moment)
    ensures var s, l := Run(SmallWire(), SmallNotary(), CONFIG, START, DriftingActs(m)[..4]), FirstStream();
            && s.log == [] && s.drift == Drift(1, 0) && s.stream == l + l && s.ck.Some? && s.mark == Mark(1, m.due)
            && s.ck.value == FullRead(SmallWire(), [], l, m).(sum := s.ck.value.sum) && Rest(s.ck.value, s.stream) == l
  {
    hide SmallWire, SmallNotary, SmallMarshal, Run, Next, FirstStream, Lines, Fragment, Whole, LastHead, AllHashable,
      FullRead, Rest;
    var w, n, acts, l := SmallWire(), SmallNotary(), DriftingActs(m), FirstStream();
    NoActs(w, n, acts);
    OneMoreAct(w, n, acts, 0);
    OneMoreAct(w, n, acts, 1);
    OneMoreAct(w, n, acts, 2);
    OneMoreAct(w, n, acts, 3);
    TwoEvents();
    GrowsBy(w, n, START, l);
    assert [] + l == l;
    OpensFresh(w, n, m);
    var s2 := CheckpointRuns.Sys(l, [], Some(FullRead(w, [], l, m)), Drift(0, 0), [], Mark(1, m.due));
    GrowsBy(w, n, s2, l);
    FaultsOnce(w, n, s2.(stream := l + l), l);
  }

  lemma NoActs(w: Wire, n: Notary, acts: seq<Act>)
    ensures Run(w, n, CONFIG, START, acts[..0]) == START
  {
    hide Next;
  }

  lemma GrowsBy(w: Wire, n: Notary, s: CheckpointRuns.Sys, more: Bytes)
    ensures Next(w, n, CONFIG, s, Grow(more)) == s.(stream := s.stream + more)
  {
  }

  lemma FaultsOnce(w: Wire, n: Notary, s: CheckpointRuns.Sys, l: Bytes)
    requires s.ck.Some? && s.ck.value.off == |l| && s.stream == l + l && l != [] && s.drift == Drift(0, 0)
    ensures var t := Next(w, n, CONFIG, s, Fault(1));
            && t == s.(ck := t.ck, drift := Drift(1, 0)) && t.ck.Some?
            && t.ck.value == s.ck.value.(sum := t.ck.value.sum) && Rest(t.ck.value, s.stream) == l
  {
    assert (l + l)[|l|..] == l;
  }

  lemma TwoEvents()
    ensures var w, l := SmallWire(), FirstStream();
            && |l| == 4 && Lines(l) == [SmallMarshal(FIRST).value] && Fragment(l) == [] && Whole(l) == l
            && AllHashable(w, l) && LastHead(w, l) != "" && LastHead(w, l + l) != "" && |Lines(l + l)| == 2
  {
    hide SmallWire, SmallMarshal, Lines, Fragment, HeadOf, Unhashable;
    FirstLine();
    var d, l := SmallMarshal(FIRST).value, FirstStream();
    JoinOne(d);
    assert Join([d]) + [] == l;
    SplitUnique([d], []);
    SplitConcat(l, l);
    assert [] + l == l;
  }

  lemma OpensFresh(w: Wire, n: Notary, m: Moment)
    requires w == SmallWire()
    ensures var l := FirstStream();
            && Next(w, n, CONFIG, START.(stream := l), Open(m))
               == CheckpointRuns.Sys(l, [], Some(FullRead(w, [], l, m)), Drift(0, 0), [], Mark(1, m.due))
            && FullRead(w, [], l, m).off == 4 && FullRead(w, [], l, m).pending == 0
  {
    hide SmallWire, SmallMarshal, FirstStream, LastHead, AllHashable, LastGood, ResumeOf, Through, HeadOf;
    TwoEvents();
    NothingHashed(w);
  }

  /** An event whose line is one byte short of the window. */
  function LongEvent(): Event { FIRST.(prevHash := seq(RESUME_WINDOW - 4, _ => 'a')) }

  function LongFile(): Bytes {
    SmallMarshal(FIRST).value + [LF] + SmallMarshal(LongEvent()).value + [LF]
  }

  /** A file whose last line the verifier judges as an event and no writer chains from. */
  lemma JudgedAndNotChainedFrom()
    ensures SmallMarshal(LongEvent()).Some?
    ensures var w, f := SmallWire(), LongFile();
            && |Tokens(f)| == 2 && |Tokens(f)[1]| < SCAN_LIMIT && Scanned(Tokens(f)) == Tokens(f)
            && IsEvent(ClassAt(w, Tokens(f), 1)) && TailLine(w, f).None?
  {
    hide SmallWire, TrimSpace, SmallMarshal, LongEvent, LongFile, Tokens, LastNonBlank, ClassAt, TailLine, Scanned;
    FirstLine();
    LongIsEvent();
    LongTokens();
    var w, d := SmallWire(), SmallMarshal(FIRST).value;
    var f := LongFile();
    ScannedIs(Tokens(f), 2);
    assert Tokens(f)[..2] == Tokens(f);
    ChainedFromExactly(w, f, 1);
    assert Tokens(f)[..1] == [d];
    JoinOne(d);
    EventIsJudged(w, Tokens(f), 1);
  }

  lemma EventIsJudged(w: Wire, tokens: seq<Bytes>, i: nat)
    requires i < |tokens| && TrimSpace(tokens[i]) != [] && Unmarshal(w, TrimSpace(tokens[i])).Some?
    ensures IsEvent(ClassAt(w, tokens, i))
  {
    hide TrimSpace, PrevLine;
  }

  lemma LongIsEvent()
    ensures SmallMarshal(LongEvent()).Some?
    ensures var l := SmallMarshal(LongEvent()).value;
            && |l| == RESUME_WINDOW - 1 && NoLF(l) && !Blank(l) && TrimSpace(l) == l
                && Unmarshal(SmallWire(), TrimSpace(l)).Some?
  {
    hide TrimSpace, SmallMarshal, SmallUnmarshal, SmallWire;
    var e := LongEvent();
    LongIsCarried();
    SmallCarried(e);
    SmallLength(e);
    var l := SmallMarshal(e).value;
    SmallRoundTrip(e);
    TrimFramed(l);
    SmallIs(e, l);
  }

  lemma LongIsCarried()
    ensures Carried(LongEvent().prevHash) && |LongEvent().prevHash| == RESUME_WINDOW - 4 && Complete(LongEvent())
  {
  }

  lemma SmallCarried(e: Event)
    requires Carried(e.prevHash)
    ensures SmallMarshal(e).Some?
  {
  }

  lemma LongTokens()
    requires SmallMarshal(LongEvent()).Some?
    ensures var d, l := SmallMarshal(FIRST).value, SmallMarshal(LongEvent()).value;
            Tokens(LongFile()) == [d, l] && |LongFile()| == |d| + |l| + 2 && LastNonBlank([d, l]) == Some(1)
  {
    hide TrimSpace, SmallMarshal, LongEvent, Tokens, LastNonBlank;
    FirstLine();
    LongIsEvent();
    TwoLines(SmallMarshal(FIRST).value, SmallMarshal(LongEvent()).value);
  }

  lemma TwoLines(d: Bytes, l: Bytes)
    requires NoLF(d) && NoLF(l) && !Blank(l)
    ensures Tokens(d + [LF] + l + [LF]) == [d, l] && LastNonBlank([d, l]) == Some(1)
  {
    hide TrimSpace, Lines, Fragment;
    JoinOne(d);
    JoinOne(l);
    JoinConcat([d], [l]);
    assert [d] + [l] == [d, l];
    assert Join([d, l]) + [] == d + [LF] + l + [LF];
    SplitUnique([d, l], []);
  }
}
