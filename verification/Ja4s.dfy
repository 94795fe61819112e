/** The JA4S fingerprint string. The hash is an arbitrary function on strings. */
module Ja4s {
  import opened ServerHello

  function VersionTag(v: Word): string {
    if v == 0x0304 then "13"
    else if v == 0x0303 then "12"
    else if v == 0x0302 then "11"
    else if v == 0x0301 then "10"
    else if v == 0x0300 then "s3"
    else "00"
  }

  /** The tag tells the five known versions apart and lumps all others together. */
  lemma {:induction false} VersionTagDistinguishes(a: Word, b: Word)
    ensures VersionTag(a) == VersionTag(b) <==> a == b || !(0x0300 <= a <= 0x0304 || 0x0300 <= b <= 0x0304)
  {
    assert VersionTag(a)[1] == '0' || VersionTag(a)[1] == '1' || VersionTag(a)[1] == '2' || VersionTag(a)[1] == '3';
  }

  function AlpnTag(a: string): string {
    if a == [] then "00"
    else if |a| == 1 then ['0', a[0]]
    else [a[0], a[|a| - 1]]
  }

  function HexDigit(n: nat): char
    requires n < 16
  {
    "0123456789abcdef"[n]
  }

  function HexValue(c: char): nat {
    if '0' <= c <= '9' then (c - '0') as nat
    else if 'a' <= c <= 'f' then (c - 'a') as nat + 10
    else 0
  }

  function FourHex(v: Word): string {
    var v1 := v / 16;
    var v2 := v1 / 16;
    [HexDigit(v2 / 16), HexDigit(v2 % 16), HexDigit(v1 % 16), HexDigit(v % 16)]
  }

  /** Reads four hex digits back. */
  function FromHex(s: string): nat
    requires |s| == 4
  {
    HexValue(s[0]) * 4096 + HexValue(s[1]) * 256 + HexValue(s[2]) * 16 + HexValue(s[3])
  }

  lemma {:induction false} HexDigitRoundTrip(n: nat)
    requires n < 16
    ensures HexValue(HexDigit(n)) == n
  {
  }

  lemma {:induction false} FourHexRoundTrip(v: Word)
    ensures FromHex(FourHex(v)) == v
  {
    hide HexDigit, HexValue;
    var v1 := v / 16;
    var v2 := v1 / 16;
    HexDigitRoundTrip(v2 / 16);
    HexDigitRoundTrip(v2 % 16);
    HexDigitRoundTrip(v1 % 16);
    HexDigitRoundTrip(v % 16);
  }

  function Capped(n: nat): nat {
    if n < 99 then n else 99
  }

  function TwoDigits(n: nat): string {
    var m := Capped(n);
    [HexDigit(m / 10), HexDigit(m % 10)]
  }

  lemma {:induction false} TwoDigitsRoundTrip(n: nat)
    ensures HexValue(TwoDigits(n)[0]) * 10 + HexValue(TwoDigits(n)[1]) == Capped(n)
  {
    hide HexDigit, HexValue;
    var m := Capped(n);
    HexDigitRoundTrip(m / 10);
    HexDigitRoundTrip(m % 10);
  }

  /** The comma-joined hex types that are hashed. */
  function Joined(types: seq<Word>): string {
    if types == [] then ""
    else
      var n := |types| - 1;
      (if n == 0 then "" else Joined(types[..n]) + ",") + FourHex(types[n])
  }

  /** Reads the joined string back, four digits at a time. */
  function Types(s: string): seq<int>
    decreases |s|
  {
    if |s| < 4 then []
    else if |s| == 4 then [FromHex(s)]
    else Types(s[..|s| - 5]) + [FromHex(s[|s| - 4..])]
  }

  lemma {:induction false} TypesOfTwo(front: string, last: string)
    requires |last| == 4
    ensures Types(front + "," + last) == Types(front) + [FromHex(last)]
  {
    var s := front + "," + last;
    assert s[..|s| - 5] == front && s[|s| - 4..] == last;
  }

  lemma {:induction false} TypesOfOne(only: string)
    requires |only| == 4
    ensures Types(only) == [FromHex(only)]
  {
  }

  lemma {:induction false} NoTypes()
    ensures Joined([]) == "" && Types("") == []
  {
  }

  lemma {:induction false} JoinedStep(types: seq<Word>)
    requires types != []
    ensures var n := |types| - 1;
      Joined(types) == if n == 0 then FourHex(types[n]) else Joined(types[..n]) + "," + FourHex(types[n])
  {
  }

  /** The string before hashing determines the extension list. */
  lemma {:induction false} JoinedRoundTrip(types: seq<Word>)
    ensures Types(Joined(types)) == types
    ensures types != [] ==> |Joined(types)| == 5 * |types| - 1
  {
    hide *;
    if types == [] {
      NoTypes();
    } else {
      var n := |types| - 1;
      var front, last := types[..n], types[n];
      JoinedRoundTrip(front);
      JoinedStep(types);
      FourHexRoundTrip(last);
      FourHexLength(last);
      if n == 0 {
        TypesOfOne(FourHex(last));
      } else {
        TypesOfTwo(Joined(front), FourHex(last));
      }
      assert types == front + [last];
    }
  }

  lemma {:induction false} FourHexLength(v: Word)
    ensures |FourHex(v)| == 4
  {
  }

  function Prefix12(s: string): string {
    if |s| < 12 then s else s[..12]
  }

  function HashPart(types: seq<Word>, hash: string -> string): string {
    if types == [] then "000000000000" else Prefix12(hash(Joined(types)))
  }

  /** The negotiated version where there is one. */
  function Version(input: Ja4SInput): Word {
    if input.negotiatedVersion != 0 then input.negotiatedVersion else input.legacyVersion
  }

  function Fingerprint(input: Ja4SInput, hash: string -> string): string {
    (if input.overQuic then "q" else "t") + VersionTag(Version(input)) + TwoDigits(|input.extensionTypes|)
      + AlpnTag(input.alpn) + "_" + FourHex(input.cipherId) + "_" + HashPart(input.extensionTypes, hash)
  }

  predicate LowerHex(c: char) {
    '0' <= c <= '9' || 'a' <= c <= 'f'
  }

  lemma {:induction false} HexDigitIsLower(n: nat)
    requires n < 16
    ensures LowerHex(HexDigit(n)) && (n < 10 ==> '0' <= HexDigit(n) <= '9')
  {
  }

  lemma {:induction false} HexIsLower(v: Word, n: nat)
    ensures forall i | 0 <= i < 4 :: LowerHex(FourHex(v)[i])
    ensures forall i | 0 <= i < 2 :: '0' <= TwoDigits(n)[i] <= '9'
  {
    hide HexDigit, LowerHex;
    forall d: nat | d < 16 ensures LowerHex(HexDigit(d)) && (d < 10 ==> '0' <= HexDigit(d) <= '9') {
      HexDigitIsLower(d);
    }
  }

  /** The type written at `at`, in four lower-case hex digits. */
  predicate WrittenAt(s: string, at: nat, v: Word) {
    at + 4 <= |s| && FromHex(s[at..at + 4]) == v && forall i | at <= i < at + 4 :: LowerHex(s[i])
  }

  lemma {:induction false} Appended(front: string, v: Word, at: nat, u: Word)
    ensures WrittenAt(FourHex(v), 0, v)
    ensures var s := front + "," + FourHex(v);
      && |s| == |front| + 5 && s[|front|] == ',' && WrittenAt(s, |front| + 1, v)
      && (forall i | 0 <= i < |front| :: s[i] == front[i])
      && (WrittenAt(front, at, u) ==> WrittenAt(s, at, u))
  {
    var last := FourHex(v);
    var s := front + "," + last;
    FourHexLength(v);
    FourHexRoundTrip(v);
    HexIsLower(v, 0);
    hide FourHex, FromHex, LowerHex;
    assert last[0..4] == last && s[|front| + 1..|front| + 5] == last;
    assert forall i | 0 <= i < 4 :: s[|front| + 1 + i] == last[i];
    if WrittenAt(front, at, u) {
      assert s[at..at + 4] == front[at..at + 4];
    }
  }

  /** The string that is hashed: the types in order, each in four lower-case hex digits, and a comma
      between each two. */
  lemma {:induction false} JoinedForm(types: seq<Word>, k: nat)
    requires k < |types|
    ensures var s := Joined(types);
      && |s| == 5 * |types| - 1 && WrittenAt(s, 5 * k, types[k])
      && (k + 1 < |types| ==> s[5 * k + 4] == ',')
    decreases |types|
  {
    hide *;
    var n := |types| - 1;
    JoinedLength(types);
    JoinedStep(types);
    if n == 0 {
      Appended("", types[0], 0, types[0]);
    } else {
      var front := Joined(types[..n]);
      JoinedLength(types[..n]);
      Appended(front, types[n], 5 * k, types[k]);
      if k < n {
        JoinedForm(types[..n], k);
      }
    }
  }

  lemma {:induction false} JoinedLength(types: seq<Word>)
    requires types != []
    ensures |Joined(types)| == 5 * |types| - 1
  {
    JoinedRoundTrip(types);
  }

  /** Every part of the string, character by character: protocol, version tag (the negotiated version where
      there is one), extension count capped at 99, ALPN tag, cipher, and the hash of the joined types; 25
      characters as soon as the hash has twelve. */
  lemma {:induction false} FingerprintForm(input: Ja4SInput, hash: string -> string)
    ensures var f := Fingerprint(input, hash); var n, a := |input.extensionTypes|, input.alpn;
      var v := if input.negotiatedVersion != 0 then input.negotiatedVersion else input.legacyVersion;
      var h := hash(Joined(input.extensionTypes));
      && |f| >= 13 && (n == 0 || |h| >= 12 ==> |f| == 25)
      && f[0] == (if input.overQuic then 'q' else 't')
      && f[1..3] == (if v == 0x0304 then "13" else if v == 0x0303 then "12" else if v == 0x0302 then "11"
                     else if v == 0x0301 then "10" else if v == 0x0300 then "s3" else "00")
      && '0' <= f[3] <= '9' && '0' <= f[4] <= '9'
      && HexValue(f[3]) * 10 + HexValue(f[4]) == (if n < 99 then n else 99)
      && f[5..7] == (if a == [] then "00" else if |a| == 1 then ['0', a[0]] else [a[0], a[|a| - 1]])
      && f[7] == '_'
      && FromHex(f[8..12]) == input.cipherId && (forall i | 8 <= i < 12 :: LowerHex(f[i]))
      && f[12] == '_'
      && f[13..] == (if n == 0 then "000000000000" else if |h| < 12 then h else h[..12])
  {
    hide HexDigit, HexValue, FromHex;
    var n := |input.extensionTypes|;
    var f := Fingerprint(input, hash);
    FourHexRoundTrip(input.cipherId);
    TwoDigitsRoundTrip(n);
    HexIsLower(input.cipherId, n);
    FingerprintParts(input, hash);
    hide Fingerprint, FourHex, TwoDigits, Joined;
    assert forall i | 8 <= i < 12 :: f[i] == f[8..12][i - 8];
  }

  lemma {:induction false} FingerprintParts(input: Ja4SInput, hash: string -> string)
    ensures var f := Fingerprint(input, hash); var n := |input.extensionTypes|;
      && |f| == 13 + |HashPart(input.extensionTypes, hash)|
      && f[0] == (if input.overQuic then 'q' else 't')
      && f[1..3] == VersionTag(Version(input))
      && f[3] == TwoDigits(n)[0] && f[4] == TwoDigits(n)[1]
      && f[5..7] == AlpnTag(input.alpn)
      && f[7] == '_' && f[8..12] == FourHex(input.cipherId) && f[12] == '_'
      && f[13..] == HashPart(input.extensionTypes, hash)
  {
    hide HexDigit, HashPart;
  }

  lemma {:induction false} SampleHex()
    ensures FourHex(0x2b) == "002b" && FourHex(0x33) == "0033" && FourHex(0x1301) == "1301"
  {
  }

  lemma {:induction false} SampleParts()
    ensures TwoDigits(2) == "02" && VersionTag(0x0304) == "13" && AlpnTag("h2") == "h2"
    ensures Prefix12("0123456789abcdef") == "0123456789ab"
  {
  }

  lemma {:induction false} SampleJoined()
    ensures Joined([0x2b, 0x33]) == "002b,0033"
  {
    SampleHex();
    hide FourHex;
    var types: seq<Word> := [0x2b, 0x33];
    JoinedStep(types);
    assert types[..1] == [0x2b];
    JoinedStep([0x2b]);
    hide Joined;
    assert "002b" + "," + "0033" == "002b,0033";
  }

  /** For example, with the given hash. */
  lemma {:induction false} SampleFingerprint(hash: string -> string)
    requires hash("002b,0033") == "0123456789abcdef"
    ensures Fingerprint(Ja4SInput(false, 0x0303, 0x0304, 0x1301, [0x2b, 0x33], "h2"), hash)
         == "t1302h2_1301_0123456789ab"
  {
    SampleHex();
    SampleParts();
    SampleJoined();
    hide FourHex, TwoDigits, VersionTag, AlpnTag, Prefix12, Joined;
    assert "t" + "13" + "02" + "h2" + "_" + "1301" + "_" + "0123456789ab" == "t1302h2_1301_0123456789ab";
  }

  /** Two inputs have the same fingerprint exactly when they agree on protocol, version tag, capped
      extension count, ALPN tag, cipher and hash part. */
  lemma {:induction false} SameFingerprintIff(a: Ja4SInput, b: Ja4SInput, hash: string -> string)
    ensures Fingerprint(a, hash) == Fingerprint(b, hash) <==>
      && a.overQuic == b.overQuic
      && VersionTag(Version(a)) == VersionTag(Version(b))
      && Capped(|a.extensionTypes|) == Capped(|b.extensionTypes|)
      && AlpnTag(a.alpn) == AlpnTag(b.alpn)
      && a.cipherId == b.cipherId
      && HashPart(a.extensionTypes, hash) == HashPart(b.extensionTypes, hash)
  {
    FingerprintParts(a, hash);
    FingerprintParts(b, hash);
    FourHexRoundTrip(a.cipherId);
    FourHexRoundTrip(b.cipherId);
    TwoDigitsRoundTrip(|a.extensionTypes|);
    TwoDigitsRoundTrip(|b.extensionTypes|);
    assert Capped(|a.extensionTypes|) == Capped(|b.extensionTypes|) ==>
      TwoDigits(|a.extensionTypes|) == TwoDigits(|b.extensionTypes|);
    hide VersionTag, AlpnTag, FourHex, HashPart, FromHex, HexValue, TwoDigits, Capped, Version;
    if Fingerprint(a, hash) == Fingerprint(b, hash) {
      hide Fingerprint;
      assert TwoDigits(|a.extensionTypes|)[0] == TwoDigits(|b.extensionTypes|)[0];
      assert TwoDigits(|a.extensionTypes|)[1] == TwoDigits(|b.extensionTypes|)[1];
    }
  }

  /** And the extension lists are then equal too, unless both are non-empty and the hash prefixes of
      the two joined strings collide. */
  lemma {:induction false} SameExtensions(a: Ja4SInput, b: Ja4SInput, hash: string -> string)
    requires Fingerprint(a, hash) == Fingerprint(b, hash)
    requires a.extensionTypes != [] && b.extensionTypes != [] ==>
      var x, y := Joined(a.extensionTypes), Joined(b.extensionTypes);
      Prefix12(hash(x)) == Prefix12(hash(y)) ==> x == y
    ensures a.extensionTypes == b.extensionTypes
  {
    SameFingerprintIff(a, b, hash);
    JoinedRoundTrip(a.extensionTypes);
    JoinedRoundTrip(b.extensionTypes);
    hide Fingerprint, Joined, Types, FromHex, AlpnTag;
  }

  /** The formatter, appending one extension type after the other. */
  method ComputeJa4s(input: Ja4SInput, hash: string -> string) returns (f: string)
    ensures f == Fingerprint(input, hash)
  {
    hide FourHex, Types, Joined, VersionTag, TwoDigits, AlpnTag, Prefix12;
    var version := if input.negotiatedVersion != 0 then input.negotiatedVersion else input.legacyVersion;
    assert version == Version(input);
    NoTypes();
    var joined := "";
    var types := input.extensionTypes;
    for i := 0 to |types|
      invariant joined == Joined(types[..i])
    {
      JoinedRoundTrip(types[..i]);
      JoinedStep(types[..i + 1]);
      assert types[..i + 1][..i] == types[..i];
      if joined != "" {
        joined := joined + ",";
      }
      joined := joined + FourHex(types[i]);
    }
    assert types[..|types|] == types;
    JoinedRoundTrip(types);
    var hashPart := if joined == "" then "000000000000" else Prefix12(hash(joined));
    f := (if input.overQuic then "q" else "t") + VersionTag(version) + TwoDigits(|types|)
      + AlpnTag(input.alpn) + "_" + FourHex(input.cipherId) + "_" + hashPart;
  }
}
