/** The deterministic record identifiers of hardware/route_pcb.py:
    generate_uuid() bumps a process-wide counter, hashes "pcb-" followed by the
    counter in eight zero-padded decimal digits, and cuts the 32 hex digits of
    the digest into the 8-4-4-4-12 groups of a UUID. The hash itself is a
    foreign library function; here it is a parameter. */
module Identifiers {
  import opened TextUtil

  predicate IsHexDigit(c: char) {
    '0' <= c <= '9' || 'a' <= c <= 'f'
  }

  /** What hexdigest() of an MD5 hash returns: 32 lower-case hex digits. */
  predicate IsHexDigest(s: string) {
    |s| == 32 && forall i :: 0 <= i < 32 ==> IsHexDigit(s[i])
  }

  type HexDigest = s: string | IsHexDigest(s) witness "00000000000000000000000000000000"

  predicate IsDigit(c: char) {
    '0' <= c <= '9'
  }

  predicate AllDigits(s: string) {
    forall i :: 0 <= i < |s| ==> IsDigit(s[i])
  }

  function DigitChar(d: nat): (c: char)
    requires d < 10
    ensures IsDigit(c)
  {
    ('0' as int + d) as char
  }

  function DigitValue(c: char): (d: nat)
    requires IsDigit(c)
    ensures d < 10
  {
    c as int - '0' as int
  }

  /** Python's str(n) for a non-negative integer: its decimal digits, most
      significant first. */
  function Decimal(n: nat): (r: string)
    ensures r != [] && AllDigits(r)
    ensures n > 0 ==> r[0] != '0'
    decreases n
  {
    if n < 10 then [DigitChar(n)] else Decimal(n / 10) + [DigitChar(n % 10)]
  }

  /** The number a string of decimal digits denotes. */
  function DecimalValue(s: string): nat
    requires AllDigits(s)
    decreases |s|
  {
    if s == [] then 0 else DecimalValue(s[..|s| - 1]) * 10 + DigitValue(s[|s| - 1])
  }

  /** Reading back the digits str(n) writes gives n. */
  lemma {:induction false} DecimalRoundTrip(n: nat)
    ensures DecimalValue(Decimal(n)) == n
    decreases n
  {
    var r := Decimal(n);
    if n >= 10 {
      DecimalRoundTrip(n / 10);
      assert r[..|r| - 1] == Decimal(n / 10);
    }
  }

  /** `n` zero characters. */
  function Zeros(n: nat): (r: string)
    ensures |r| == n && AllDigits(r)
    ensures forall i :: 0 <= i < n ==> r[i] == '0'
  {
    seq(n, _ => '0')
  }

  /** Leading zeros do not change the number a digit string denotes. */
  lemma {:induction false} LeadingZeros(z: nat, s: string)
    requires AllDigits(s)
    ensures AllDigits(Zeros(z) + s)
    ensures DecimalValue(Zeros(z) + s) == DecimalValue(s)
    decreases |s|
  {
    if s == [] {
      ZerosValue(z);
      assert Zeros(z) + s == Zeros(z);
    } else {
      var t := Zeros(z) + s;
      assert t[..|t| - 1] == Zeros(z) + s[..|s| - 1];
      LeadingZeros(z, s[..|s| - 1]);
    }
  }

  lemma {:induction false} ZerosValue(z: nat)
    ensures DecimalValue(Zeros(z)) == 0
    decreases z
  {
    if z > 0 {
      assert Zeros(z)[..z - 1] == Zeros(z - 1);
      ZerosValue(z - 1);
    }
  }

  /** Python's format(n, "08d") for a non-negative integer: its digits, padded
      on the left with zeros to at least eight characters. */
  function Padded8(n: nat): (r: string)
    ensures AllDigits(r) && |r| >= 8
    ensures |r| == if |Decimal(n)| < 8 then 8 else |Decimal(n)|
  {
    var d := Decimal(n);
    if |d| < 8 then Zeros(8 - |d|) + d else d
  }

  /** The string generate_uuid() hashes for counter value n: f"pcb-{n:08d}". */
  function HashKey(n: nat): (r: string)
    ensures |r| >= 12 && r[..4] == "pcb-" && AllDigits(r[4..])
  {
    var r := "pcb-" + Padded8(n);
    assert r[4..] == Padded8(n);
    r
  }

  /** The counter value a hash key was made from. */
  function KeyCounter(key: string): nat
    requires |key| >= 4 && AllDigits(key[4..])
  {
    DecimalValue(key[4..])
  }

  /** The key records its counter: reading it back gives the counter. */
  lemma HashKeyRoundTrip(n: nat)
    ensures KeyCounter(HashKey(n)) == n
  {
    var d := Decimal(n);
    DecimalRoundTrip(n);
    assert HashKey(n)[4..] == Padded8(n);
    if |d| < 8 {
      LeadingZeros(8 - |d|, d);
    }
  }

  /** So distinct counter values give distinct strings to hash. */
  lemma HashKeyInjective(m: nat, n: nat)
    requires m != n
    ensures HashKey(m) != HashKey(n)
  {
    HashKeyRoundTrip(m);
    HashKeyRoundTrip(n);
  }

  /** The 36-character form of a UUID: hex digits with hyphens at 8, 13, 18 and 23. */
  predicate IsUuidText(u: string) {
    && |u| == 36
    && (forall i :: 0 <= i < 36 ==> if i in {8, 13, 18, 23} then u[i] == '-' else IsHexDigit(u[i]))
  }

  /** f"{h[:8]}-{h[8:12]}-{h[12:16]}-{h[16:20]}-{h[20:32]}" */
  function FormatUuid(h: HexDigest): (u: string)
    ensures IsUuidText(u)
  {
    h[..8] + "-" + h[8..12] + "-" + h[12..16] + "-" + h[16..20] + "-" + h[20..32]
  }

  /** The UUID text with its hyphens taken out. */
  function UuidDigits(u: string): string
    requires |u| == 36
  {
    u[..8] + u[9..13] + u[14..18] + u[19..23] + u[24..36]
  }

  /** Formatting loses nothing: the digest is the UUID without its hyphens. */
  lemma FormatUuidRoundTrip(h: HexDigest)
    ensures UuidDigits(FormatUuid(h)) == h
  {
    var u := FormatUuid(h);
    assert u[..8] == h[..8];
    assert u[9..13] == h[8..12];
    assert u[14..18] == h[12..16];
    assert u[19..23] == h[16..20];
    assert u[24..36] == h[20..32];
    assert h == h[..8] + h[8..12] + h[12..16] + h[16..20] + h[20..32];
  }

  /** The identifier generate_uuid() returns when the counter has become n. */
  function UuidFor(hash: string -> HexDigest, n: nat): string {
    FormatUuid(hash(HashKey(n)))
  }

  /** Distinct counter values hash distinct keys: two identifiers can only
      coincide through a collision of the hash. */
  lemma UuidForDistinctKeys(hash: string -> HexDigest, m: nat, n: nat)
    requires UuidFor(hash, m) == UuidFor(hash, n)
    ensures m == n || (HashKey(m) != HashKey(n) && hash(HashKey(m)) == hash(HashKey(n)))
  {
    if m != n {
      HashKeyInjective(m, n);
      FormatUuidRoundTrip(hash(HashKey(m)));
      FormatUuidRoundTrip(hash(HashKey(n)));
    }
  }

  /** The identifiers that n successive generate_uuid() calls return when the
      counter stands at `start` before the first call. */
  function Drawn(hash: string -> HexDigest, start: nat, n: nat): (ids: seq<string>)
    ensures |ids| == n
  {
    seq(n, k requires 0 <= k < n => UuidFor(hash, start + k + 1))
  }

  /** One more call appends the identifier of the next counter value. */
  lemma DrawnStep(hash: string -> HexDigest, start: nat, n: nat)
    ensures Drawn(hash, start, n + 1) == Drawn(hash, start, n) + [UuidFor(hash, start + n + 1)]
  {
    DrawnSplit(hash, start, n, 1);
    var last := Drawn(hash, start + n, 1);
    assert last[0] == UuidFor(hash, start + n + 1);
    SingleElement(last);
  }

  lemma SingleElement<T>(s: seq<T>)
    requires |s| == 1
    ensures s == [s[0]]
  {
  }

  /** m calls and then n more draw what m + n calls draw. */
  lemma DrawnSplit(hash: string -> HexDigest, start: nat, m: nat, n: nat)
    ensures Drawn(hash, start, m + n) == Drawn(hash, start, m) + Drawn(hash, start + m, n)
  {
    var a := Drawn(hash, start, m + n);
    var b := Drawn(hash, start, m) + Drawn(hash, start + m, n);
    forall k | 0 <= k < m + n ensures a[k] == b[k] {
    }
  }

  /** Every drawn identifier has the UUID form. */
  lemma DrawnUuids(hash: string -> HexDigest, start: nat, n: nat)
    ensures forall k :: 0 <= k < n ==> IsUuidText(Drawn(hash, start, n)[k])
  {
    var ids := Drawn(hash, start, n);
    forall k | 0 <= k < n ensures IsUuidText(ids[k]) {
      assert ids[k] == FormatUuid(hash(HashKey(start + k + 1)));
    }
  }

  /** The module-level _uuid_counter together with generate_uuid(). */
  class UuidGenerator {
    var counter: nat
    const hash: string -> HexDigest

    /** The counter starts at 0 when the script is loaded. */
    constructor (hash: string -> HexDigest)
      ensures counter == 0 && this.hash == hash
    {
      counter := 0;
      this.hash := hash;
    }

    /** generate_uuid(): raise the counter by one, then format the digest of its key. */
    method Next() returns (u: string)
      modifies this
      ensures counter == old(counter) + 1
      ensures u == UuidFor(hash, counter) && IsUuidText(u)
    {
      counter := counter + 1;
      var h := hash(HashKey(counter));
      u := FormatUuid(h);
    }
  }
}
