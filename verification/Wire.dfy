/** The event envelope and the libraries under it, taken as functions with a few stated laws. */
module Wire {
  import opened Bytes
  import opened Wrappers

  /** One envelope: the five required members, every other member as text, and prev_hash ("" for none). */
  datatype Event = Event(
    schema: string, ts: string, source: string, typ: string, agentID: string,
    rest: string, prevHash: string)

  /** What Unmarshal demands of an envelope. */
  predicate Complete(e: Event) {
    e.schema != "" && e.ts != "" && e.source != "" && e.typ != "" && e.agentID != ""
  }

  /** encoding/json, jcs and crypto/sha256: Unmarshal, Marshal, CanonicalizeRaw and Sum256. */
  datatype Wire = Wire(
    unmarshal: Bytes -> Option<Event>,
    marshal: Event -> Option<Bytes>,
    canonicalize: Bytes -> Option<Bytes>,
    sha256: Bytes -> Bytes)

  function Unmarshal(w: Wire, line: Bytes): Option<Event> { w.unmarshal(line) }

  function Marshal(w: Wire, e: Event): Option<Bytes> { w.marshal(e) }

  function CanonicalizeRaw(w: Wire, line: Bytes): Option<Bytes> { w.canonicalize(line) }

  function Sha(w: Wire, b: Bytes): Bytes { w.sha256(b) }

  /** The laws. Everything proved about streams rests on these and on nothing else about JSON or SHA-256. */
  ghost predicate Lawful(w: Wire) {
    // an encoded event is one object on one line
    && (forall e: Event :: Marshal(w, e).Some? ==> Framed(Marshal(w, e).value))
    // no proper prefix of it is an event
    && (forall e: Event, k: nat :: Marshal(w, e).Some? && k < |Marshal(w, e).value| ==>
          Unmarshal(w, Marshal(w, e).value[..k]).None?)
    // decoding it gives an event exactly when the required members are there, and keeps prev_hash
    && (forall e: Event :: Marshal(w, e).Some? ==>
          && (Unmarshal(w, Marshal(w, e).value).Some? <==> Complete(e))
          && (Complete(e) ==> Unmarshal(w, Marshal(w, e).value).value.prevHash == e.prevHash))
    // an empty input is not an event
    && Unmarshal(w, []).None?
    // a digest has 32 bytes
    && (forall b: Bytes :: |Sha(w, b)| == 32)
  }

  /** Two inputs SHA-256 does not tell apart. No theorem assumes there are none; they say "or this". */
  ghost predicate Collision(w: Wire, a: Bytes, b: Bytes) {
    a != b && Sha(w, a) == Sha(w, b)
  }

  // ---------------------------------------------------------------- digests as text

  const HEX: string := "0123456789abcdef"

  function HexByte(b: byte): string { [HEX[b as int / 16], HEX[b as int % 16]] }

  function Hex(d: Bytes): (s: string)
    ensures |s| == 2 * |d|
  {
    if d == [] then "" else HexByte(d[0]) + Hex(d[1..])
  }

  const HASH_PREFIX: string := "sha256:"

  function HashText(d: Bytes): string { HASH_PREFIX + Hex(d) }

  /** The pattern of every prev_hash, head, prefix and prev: sha256 and 64 lowercase hex digits. */
  predicate IsHashText(s: string) {
    |s| == 71 && HASH_PREFIX <= s && forall i | 7 <= i < 71 :: s[i] in HEX
  }

  /** The prev of a record with no record before it. */
  function Genesis(): string { HASH_PREFIX + seq(64, _ => '0') }

  lemma {:induction false} HexDigits(d: Bytes)
    ensures forall i | 0 <= i < |Hex(d)| :: Hex(d)[i] in HEX
  {
    if d != [] {
      HexDigits(d[1..]);
    }
  }

  lemma HashTextForm(d: Bytes)
    requires |d| == 32
    ensures IsHashText(HashText(d))
  {
    HexDigits(d);
    var s := HashText(d);
    assert forall i | 7 <= i < 71 :: s[i] == Hex(d)[i - 7];
  }

  lemma {:induction false} HexInjective(a: Bytes, b: Bytes)
    requires Hex(a) == Hex(b)
    ensures a == b
  {
    if a == [] {
      assert |Hex(b)| == 2 * |b|;
    } else {
      assert |Hex(a)| == 2 * |a| && |Hex(b)| == 2 * |b|;
      var ha, hb := Hex(a), Hex(b);
      assert ha[0] == HEX[a[0] as int / 16] && ha[1] == HEX[a[0] as int % 16];
      assert hb[0] == HEX[b[0] as int / 16] && hb[1] == HEX[b[0] as int % 16];
      HexDigitInjective(a[0] as int / 16, b[0] as int / 16);
      HexDigitInjective(a[0] as int % 16, b[0] as int % 16);
      assert ha[2..] == Hex(a[1..]) && hb[2..] == Hex(b[1..]);
      HexInjective(a[1..], b[1..]);
      assert a == [a[0]] + a[1..] && b == [b[0]] + b[1..];
    }
  }

  lemma HexDigitInjective(i: int, j: int)
    requires 0 <= i < 16 && 0 <= j < 16
    requires HEX[i] == HEX[j]
    ensures i == j
  {
  }

  /** Texts of digests are equal exactly when the hashed bytes are, or collide. */
  lemma HashTextTellsApart(w: Wire, a: Bytes, b: Bytes)
    ensures HashText(Sha(w, a)) == HashText(Sha(w, b)) <==> a == b || Collision(w, a, b)
  {
    var s, t := HashText(Sha(w, a)), HashText(Sha(w, b));
    if s == t {
      assert Hex(Sha(w, a)) == s[7..] && Hex(Sha(w, b)) == t[7..];
      HexInjective(Sha(w, a), Sha(w, b));
    }
  }

  /** The SPEC 6.5 hash of one line as written: the next line's prev_hash. */
  function ChainHashRaw(w: Wire, line: Bytes): (h: Option<string>)
    ensures h.Some? ==> h.value != ""
  {
    match CanonicalizeRaw(w, line)
    case None => None
    case Some(c) => Some(HashText(Sha(w, c)))
  }
}
