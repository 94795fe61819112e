/** IPv4 addresses, CIDR ranges (section 3.1 of RFC 4632) and the provider lookup. */
module CdnLookup {
  import opened Prelude
  import opened Decimal
  import opened Text
  import opened Bits

  // ----- Addresses -----

  /** One to three digits, leading zeros allowed, at most 255. */
  predicate Octet(s: string) {
    1 <= |s| <= 3 && AllDigits(s) && Value(s) <= 255
  }

  predicate AllOctets(parts: seq<string>) {
    forall i | 0 <= i < |parts| :: Octet(parts[i])
  }

  function Base256(parts: seq<string>): nat
    requires AllOctets(parts)
  {
    if parts == [] then 0 else Base256(parts[..|parts| - 1]) * 256 + Value(parts[|parts| - 1])
  }

  /** An address is exactly four octets between dots. */
  function Ipv4(s: string): Option<nat> {
    var parts := Split(s, '.');
    if |parts| == 4 && AllOctets(parts) then Some(Base256(parts)) else None
  }

  lemma {:induction false} Ipv4Value(s: string)
    ensures Ipv4(s).Some? ==>
      var p := Split(s, '.');
      && |p| == 4 && AllOctets(p)
      && Ipv4(s).value == Value(p[0]) * 16777216 + Value(p[1]) * 65536 + Value(p[2]) * 256 + Value(p[3])
  {
    var p := Split(s, '.');
    if |p| == 4 && AllOctets(p) {
      assert Base256(p[..0]) == 0;
      forall k | 0 <= k < 4 ensures Base256(p[..k + 1]) == Base256(p[..k]) * 256 + Value(p[k]) {
        assert p[..k + 1][..k] == p[..k];
      }
      assert p[..4] == p;
    }
  }

  lemma {:induction false} Base256Bound(parts: seq<string>)
    requires AllOctets(parts)
    ensures Base256(parts) < Pow2(8 * |parts|)
  {
    if parts != [] {
      Base256Bound(parts[..|parts| - 1]);
      Pow2Sum(8, 8 * (|parts| - 1));
      Pow2Values();
    }
  }

  /** The four octets of a word, most significant first. */
  function Octets(v: nat): seq<nat> {
    var v1 := v / 256;
    var v2 := v1 / 256;
    [v2 / 256, v2 % 256, v1 % 256, v % 256]
  }

  /** The canonical dotted form. */
  function Dotted(v: nat): string {
    var o := Octets(v);
    Join([Numeral(o[0]), Numeral(o[1]), Numeral(o[2]), Numeral(o[3])], '.')
  }

  lemma {:induction false} NumeralIsOctet(n: nat)
    requires n < 256
    ensures Octet(Numeral(n)) && '.' !in Numeral(n) && Value(Numeral(n)) == n
  {
    NumeralRoundTrip(n);
    if n >= 10 {
      assert |Numeral(n / 10)| <= 2;
    }
  }

  /** Parsing undoes the canonical form of every 32-bit value. */
  lemma {:induction false} DottedRoundTrip(v: nat)
    requires v < Pow2(32)
    ensures Ipv4(Dotted(v)) == Some(v)
  {
    hide Numeral, Octet, Split, Join, Ipv4;
    Pow2Values();
    var o := Octets(v);
    NumeralIsOctet(o[0]);
    NumeralIsOctet(o[1]);
    NumeralIsOctet(o[2]);
    NumeralIsOctet(o[3]);
    var parts := [Numeral(o[0]), Numeral(o[1]), Numeral(o[2]), Numeral(o[3])];
    SplitOfJoin(parts, '.');
    FourRead(Dotted(v), parts);
    Ipv4Value(Dotted(v));
  }

  /** One to three digits of value at most 255. */
  predicate IsGroup(s: string, v: nat) {
    1 <= |s| <= 3 && AllDigits(s) && Value(s) == v && v <= 255
  }

  predicate IsAddress(s: string, groups: seq<string>, a: nat, b: nat, c: nat, d: nat) {
    && |groups| == 4 && s == groups[0] + "." + (groups[1] + "." + (groups[2] + "." + groups[3]))
    && IsGroup(groups[0], a) && IsGroup(groups[1], b) && IsGroup(groups[2], c) && IsGroup(groups[3], d)
  }

  lemma {:induction false} JoinOfFour(g: seq<string>)
    requires |g| == 4
    ensures Join(g, '.') == g[0] + "." + (g[1] + "." + (g[2] + "." + g[3]))
  {
    assert g[1..][1..] == g[2..] && g[2..][1..] == g[3..];
    assert g[0] + ['.'] + Join(g[1..], '.') == g[0] + "." + Join(g[1..], '.');
    assert Join(g[3..], '.') == g[3];
  }

  /** In plain terms: a string is an address exactly if it is four groups between dots, and its value is
      a * 2^24 + b * 2^16 + c * 2^8 + d. */
  lemma {:induction false} Ipv4InPlainTerms(s: string)
    ensures Ipv4(s).Some? <==> exists g, a: nat, b: nat, c: nat, d: nat :: IsAddress(s, g, a, b, c, d)
    ensures forall g, a: nat, b: nat, c: nat, d: nat :: IsAddress(s, g, a, b, c, d) ==>
      Ipv4(s) == Some(a * 16777216 + b * 65536 + c * 256 + d)
  {
    hide Split, Join;
    if Ipv4(s).Some? {
      var p := Split(s, '.');
      JoinOfSplit(s, '.');
      JoinOfFour(p);
      assert IsAddress(s, p, Value(p[0]), Value(p[1]), Value(p[2]), Value(p[3]));
    }
    forall g, a: nat, b: nat, c: nat, d: nat | IsAddress(s, g, a, b, c, d)
      ensures Ipv4(s) == Some(a * 16777216 + b * 65536 + c * 256 + d)
    {
      JoinOfFour(g);
      assert forall i | 0 <= i < 4 :: Octet(g[i]) && forall j | 0 <= j < |g[i]| :: IsDigit(g[i][j]);
      SplitOfJoin(g, '.');
      Ipv4Value(s);
    }
  }

  // ----- The address parser -----

  /** The pieces in `done` are read; the text from `i` holds the remaining ones. */
  predicate ReadTo(s: string, i: nat, done: seq<string>) {
    i <= |s| && Split(s, '.') == done + Split(s[i..], '.')
  }

  /** The next piece, up to its dot, starts with the digits read so far. */
  lemma {:induction false} NextPiece(s: string, start: nat, i: nat, done: seq<string>) returns (piece: string)
    requires ReadTo(s, start, done) && start <= i <= |s| && AllDigits(s[start..i])
    ensures |done| < |Split(s, '.')| && Split(s, '.')[|done|] == piece
    ensures i - start <= |piece| <= |s| - start && piece[..i - start] == s[start..i]
    ensures i < |s| && s[i] != '.' ==> |piece| > i - start && piece[i - start] == s[i]
    ensures start < |s| && s[start] != '.' ==> |piece| > 0 && piece[0] == s[start]
  {
    var t, n := s[start..], i - start;
    var k := IndexOf(t, '.');
    piece := t[..k];
    assert piece == Split(t, '.')[0];
    assert forall j | 0 <= j < n :: IsDigit(s[start..i][j]) && s[start..i][j] == t[j];
  }

  /** The octet read from `start` to `i` is the whole next piece, or the input is no address. */
  lemma {:induction false} PieceRead(s: string, start: nat, i: nat, done: seq<string>)
    requires ReadTo(s, start, done) && start <= i <= |s| && AllDigits(s[start..i])
    ensures i == |s| ==> Split(s, '.') == done + [s[start..i]]
    ensures i < |s| && s[i] == '.' ==> ReadTo(s, i + 1, done + [s[start..i]])
    ensures i < |s| && s[i] == '.' ==> |Split(s, '.')| >= |done| + 2
    ensures i < |s| && s[i] != '.' && !IsDigit(s[i]) ==> Ipv4(s) == None
  {
    hide Split;
    if i == |s| || s[i] == '.' {
      forall k | start <= k < i ensures s[k] != '.' {
        assert IsDigit(s[start..i][k - start]);
      }
      SplitFrom(s, '.', start, i);
      if i < |s| {
        var piece, rest := s[start..i], Split(s[i + 1..], '.');
        assert done + ([piece] + rest) == done + [piece] + rest;
      }
    } else {
      var piece := NextPiece(s, start, i, done);
      assert !IsDigit(s[i]) ==> !Octet(piece);
    }
  }

  /** Too many digits, or too large a value, spoil the piece however it goes on. */
  lemma {:induction false} PieceSpoiled(s: string, start: nat, i: nat, done: seq<string>)
    requires ReadTo(s, start, done) && start <= i <= |s| && AllDigits(s[start..i])
    requires i - start > 3 || Value(s[start..i]) > 255
    ensures Ipv4(s) == None
  {
    var piece := NextPiece(s, start, i, done);
    if AllDigits(piece) {
      ValueGrows(piece, i - start);
    }
    assert !Octet(piece);
  }

  lemma {:induction false} ValueGrows(s: string, n: nat)
    requires AllDigits(s) && n <= |s|
    ensures AllDigits(s[..n]) && Value(s[..n]) <= Value(s)
    decreases |s|
  {
    if n == |s| {
      assert s[..n] == s;
    } else {
      ValueGrows(s[..|s| - 1], n);
      assert s[..|s| - 1][..n] == s[..n];
    }
  }

  lemma {:induction false} PieceEmpty(s: string, start: nat, done: seq<string>)
    requires ReadTo(s, start, done) && (start == |s| || !IsDigit(s[start]))
    ensures Ipv4(s) == None
  {
    assert s[start..start] == "";
    var piece := NextPiece(s, start, start, done);
    assert !Octet(piece);
  }

  /** Shift-and-or appends one octet. */
  lemma {:induction false} AppendOctet(parts: seq<string>, piece: string)
    requires AllOctets(parts) && |parts| < 4 && Octet(piece)
    ensures AllOctets(parts + [piece])
    ensures Or(Shl32(Base256(parts), 8), Value(piece)) == Base256(parts + [piece])
  {
    hide Or, Shl32, Pow2, Base256;
    Base256Bound(parts);
    Pow2Monotone(8 * |parts|, 24);
    AppendByte(Base256(parts), Value(piece));
    Base256Append(parts, piece);
  }

  lemma {:induction false} Base256Append(parts: seq<string>, piece: string)
    requires AllOctets(parts) && Octet(piece)
    ensures AllOctets(parts + [piece]) && Base256(parts + [piece]) == Base256(parts) * 256 + Value(piece)
  {
    assert (parts + [piece])[..|parts|] == parts;
  }

  method ParseIpv4(s: string) returns (r: Option<nat>)
    ensures r == Ipv4(s)
  {
    hide Base256, Octet, Split, ReadTo, Ipv4, Or, Shl32, AllOctets;
    var v, parts, i := 0, 0, 0;
    ghost var done: seq<string> := [];
    NothingRead(s);
    while i < |s| && parts < 4
      invariant i <= |s| && parts == |done| <= 4
      invariant AllOctets(done) && v == Base256(done)
      invariant parts < 4 ==> ReadTo(s, i, done)
      invariant parts == 4 && i == |s| ==> Split(s, '.') == done
      invariant parts == 4 && i < |s| ==> Ipv4(s) == None
    {
      var start, octet, digits := i, 0, 0;
      while i < |s| && IsDigit(s[i])
        invariant start <= i <= |s| && digits == i - start <= 3
        invariant AllDigits(s[start..i]) && octet == Value(s[start..i]) <= 255
      {
        OneMoreDigit(s, start, i);
        octet := octet * 10 + DigitValue(s[i]);
        i := i + 1;
        digits := digits + 1;
        if digits > 3 || octet > 255 {
          PieceSpoiled(s, start, i, done);
          return None;
        }
      }
      if digits == 0 {
        PieceEmpty(s, start, done);
        return None;
      }
      ghost var piece := s[start..i];
      IsOctet(piece);
      AppendOctet(done, piece);
      PieceRead(s, start, i, done);
      v := Or(Shl32(v, 8), octet);
      parts := parts + 1;
      if parts < 4 {
        if i >= |s| || s[i] != '.' {
          if i == |s| {
            WrongCount(s);
          }
          return None;
        }
        i := i + 1;
      } else if i < |s| && s[i] == '.' {
        WrongCount(s);
      }
      done := done + [piece];
    }
    if parts != 4 || i != |s| {
      if parts < 4 {
        PieceEmpty(s, i, done);
      }
      return None;
    }
    FourRead(s, done);
    r := Some(v);
  }

  lemma {:induction false} NothingRead(s: string)
    ensures ReadTo(s, 0, []) && AllOctets([]) && Base256([]) == 0
  {
    assert s[0..] == s;
  }

  lemma {:induction false} OneMoreDigit(s: string, start: nat, i: nat)
    requires start <= i < |s| && IsDigit(s[i]) && AllDigits(s[start..i])
    ensures AllDigits(s[start..i + 1])
    ensures Value(s[start..i + 1]) == Value(s[start..i]) * 10 + DigitValue(s[i])
  {
    assert s[start..i + 1][..i - start] == s[start..i];
  }

  lemma {:induction false} IsOctet(s: string)
    requires 1 <= |s| <= 3 && AllDigits(s) && Value(s) <= 255
    ensures Octet(s)
  {
  }

  lemma {:induction false} WrongCount(s: string)
    requires |Split(s, '.')| != 4
    ensures Ipv4(s) == None
  {
  }

  lemma {:induction false} FourRead(s: string, done: seq<string>)
    requires Split(s, '.') == done && |done| == 4 && AllOctets(done)
    ensures Ipv4(s) == Some(Base256(done))
  {
  }

  // ----- Ranges -----

  /** All ones above 32 - prefix zeros. */
  function Mask(prefix: nat): nat
    requires prefix <= 32
  {
    if prefix == 0 then 0 else Shl32(Pow2(32) - 1, 32 - prefix)
  }

  lemma {:induction false} MaskValue(prefix: nat)
    requires prefix <= 32
    ensures Pow2(32 - prefix) <= Pow2(32) && Mask(prefix) == Pow2(32) - Pow2(32 - prefix)
  {
    hide Pow2;
    var k := 32 - prefix;
    Pow2Monotone(k, 32);
    if prefix > 0 {
      OnesShifted(Pow2(k), Pow2(32));
    }
  }

  lemma {:induction false} OnesShifted(p: nat, whole: nat)
    requires 0 < p <= whole
    ensures (whole - 1) * p % whole == whole - p
  {
    assert (whole - 1) * p == whole * (p - 1) + (whole - p);
    DivModUnique((whole - 1) * p, whole, p - 1, whole - p);
  }

  /** Masking keeps the network part. */
  lemma {:induction false} MaskedIsNetwork(addr: nat, prefix: nat)
    requires addr < Pow2(32) && prefix <= 32
    ensures And(addr, Mask(prefix)) == addr - addr % Pow2(32 - prefix)
  {
    hide And, Mask, Pow2;
    MaskValue(prefix);
    AndHighMask(addr, 32, 32 - prefix);
  }

  datatype Range = Range(base: nat, mask: nat, provider: string)

  /** A range as `parse_cidr` builds it: an aligned base under the mask of some prefix length. */
  predicate HasPrefix(r: Range, prefix: nat) {
    prefix <= 32 && r.mask == Mask(prefix) && r.base < Pow2(32) && r.base % Pow2(32 - prefix) == 0
  }

  predicate Contains(r: Range, addr: nat) {
    And(addr, r.mask) == r.base
  }

  /** The mask test holds exactly on the interval of 2^(32 - prefix) addresses from the base. */
  lemma {:induction false} ContainsIsInterval(r: Range, prefix: nat, addr: nat)
    requires HasPrefix(r, prefix) && addr < Pow2(32)
    ensures Contains(r, addr) <==> r.base <= addr <= r.base + Pow2(32 - prefix) - 1
    ensures Contains(r, addr) <==> addr / Pow2(32 - prefix) == r.base / Pow2(32 - prefix)
  {
    MaskedIsNetwork(addr, prefix);
    AlignedBlock(addr, r.base, Pow2(32 - prefix));
  }

  lemma {:induction false} AlignedBlock(a: nat, base: nat, p: nat)
    requires p > 0 && base % p == 0
    ensures a - a % p == base <==> base <= a <= base + p - 1
    ensures a - a % p == base <==> a / p == base / p
  {
    var q, b := a / p, base / p;
    assert a == p * q + a % p && base == p * b;
    if a / p == base / p {
      assert base <= a <= base + p - 1;
    } else {
      SmallMultipleIff(p, q - b, a % p);
    }
  }

  lemma {:induction false} SmallMultipleIff(p: nat, x: int, r: nat)
    requires p > 0 && x != 0 && r < p
    ensures p * x != 0 && !(0 <= p * x + r < p)
  {
    ProductGrows(p, x);
    ProductGrows(p, -x);
  }

  // ----- Parsing a range -----

  /** An address, a slash, and one or two digits of value at most 32. */
  function Cidr(s: string): Option<(nat, nat)> {
    var slash := IndexOf(s, '/');
    if slash == |s| then None
    else
      var addr, suffix := Ipv4(s[..slash]), s[slash + 1..];
      if addr.None? || !(1 <= |suffix| <= 2) || !AllDigits(suffix) || Value(suffix) > 32 then None
      else Some((addr.value, Value(suffix)))
  }

  method ParseCidr(s: string) returns (r: Option<(nat, nat)>)
    ensures r.Some? <==> Cidr(s).Some?
    ensures r.Some? ==> var (addr, prefix) := Cidr(s).value; r.value == (And(addr, Mask(prefix)), Mask(prefix))
    ensures r.Some? ==> var (addr, prefix) := Cidr(s).value;
      r.value == (addr - addr % Pow2(32 - prefix), Pow2(32) - Pow2(32 - prefix))
  {
    hide Ipv4, And, Pow2, Shl32, Value;
    var slash := IndexOf(s, '/');
    if slash == |s| {
      return None;
    }
    var base := ParseIpv4(s[..slash]);
    if base.None? {
      return None;
    }
    var suffix := s[slash + 1..];
    if suffix == "" || |suffix| > 2 {
      return None;
    }
    var prefix := 0;
    NoDigits();
    for i := 0 to |suffix|
      invariant AllDigits(suffix[..i]) && prefix == Value(suffix[..i])
    {
      if !IsDigit(suffix[i]) {
        return None;
      }
      ValueStep(suffix, i);
      prefix := prefix * 10 + DigitValue(suffix[i]);
    }
    assert suffix[..|suffix|] == suffix;
    if prefix > 32 {
      return None;
    }
    var mask := if prefix == 0 then 0 else Shl32(Pow2(32) - 1, 32 - prefix);
    assert Cidr(s) == Some((base.value, prefix));
    CidrInRange(s);
    MaskValue(prefix);
    MaskedIsNetwork(base.value, prefix);
    r := Some((And(base.value, mask), mask));
  }

  predicate IsCidr(s: string, x: string, y: string, addr: nat, prefix: nat) {
    && s == x + "/" + y && Ipv4(x) == Some(addr)
    && 1 <= |y| <= 2 && AllDigits(y) && Value(y) == prefix && prefix <= 32
  }

  /** In plain terms: a range is an address, a slash, and one or two digits of value at most 32. */
  lemma {:induction false} CidrInPlainTerms(s: string)
    ensures Cidr(s).Some? <==> exists x, y, addr: nat, prefix: nat :: IsCidr(s, x, y, addr, prefix)
    ensures forall x, y, addr: nat, prefix: nat :: IsCidr(s, x, y, addr, prefix) ==> Cidr(s) == Some((addr, prefix))
  {
    hide Ipv4, IndexOf;
    if Cidr(s).Some? {
      var slash := IndexOf(s, '/');
      assert IsCidr(s, s[..slash], s[slash + 1..], Cidr(s).value.0, Cidr(s).value.1);
    }
    forall x, y, addr: nat, prefix: nat | IsCidr(s, x, y, addr, prefix) ensures Cidr(s) == Some((addr, prefix)) {
      AddressHasNoSlash(x);
      IndexOfIsFirst(s, '/', |x|);
      assert s[..|x|] == x && s[|x| + 1..] == y;
    }
  }

  predicate Slashless(s: string) {
    forall i | 0 <= i < |s| :: s[i] != '/'
  }

  lemma {:induction false} AddressHasNoSlash(s: string)
    requires Ipv4(s).Some?
    ensures Slashless(s)
  {
    Ipv4InPlainTerms(s);
    var g, a: nat, b: nat, c: nat, d: nat :| IsAddress(s, g, a, b, c, d);
    DigitsSlashless(g[3]);
    DigitsSlashless(g[2]);
    DigitsSlashless(g[1]);
    DigitsSlashless(g[0]);
    hide Ipv4, Slashless, AllDigits, Value;
    BothSlashless(g[2], g[3]);
    BothSlashless(g[1], g[2] + "." + g[3]);
    BothSlashless(g[0], g[1] + "." + (g[2] + "." + g[3]));
  }

  lemma {:induction false} DigitsSlashless(digits: string)
    requires AllDigits(digits)
    ensures Slashless(digits)
  {
  }

  lemma {:induction false} BothSlashless(x: string, y: string)
    requires Slashless(x) && Slashless(y)
    ensures Slashless(x + "." + y)
  {
  }

  /** Reading undoes the canonical form of every range. */
  lemma {:induction false} CidrRoundTrip(addr: nat, prefix: nat)
    requires addr < Pow2(32) && prefix <= 32
    ensures Cidr(Dotted(addr) + "/" + Numeral(prefix)) == Some((addr, prefix))
  {
    hide Dotted, Pow2, Ipv4;
    DottedRoundTrip(addr);
    NumeralRoundTrip(prefix);
    assert prefix >= 10 ==> |Numeral(prefix / 10)| == 1;
    hide Numeral, Cidr;
    CidrInPlainTerms(Dotted(addr) + "/" + Numeral(prefix));
    assert IsCidr(Dotted(addr) + "/" + Numeral(prefix), Dotted(addr), Numeral(prefix), addr, prefix);
  }

  lemma {:induction false} NoDigits()
    ensures Value("") == 0
  {
  }

  /** Every parsed range contains exactly the addresses of its prefix, and its own address. */
  lemma {:induction false} ParsedRange(s: string, provider: string)
    requires Cidr(s).Some?
    ensures var (addr, prefix) := Cidr(s).value; var r := Range(And(addr, Mask(prefix)), Mask(prefix), provider);
      HasPrefix(r, prefix) && Contains(r, addr)
  {
    hide And, Mask, Pow2, Base256, Split;
    var (addr, prefix) := Cidr(s).value;
    Base256Bound(Split(s[..IndexOf(s, '/')], '.'));
    MaskedIsNetwork(addr, prefix);
    ClearedIsAligned(addr, Pow2(32 - prefix));
  }

  lemma {:induction false} ClearedIsAligned(a: nat, p: nat)
    requires p > 0
    ensures (a - a % p) % p == 0
  {
    DivModUnique(a - a % p, p, a / p, 0);
  }

  // ----- Nested or disjoint -----

  /** Two ranges that share an address are nested, the one with the longer prefix inside. */
  lemma {:induction false} NestedOrDisjoint(r: Range, p: nat, s: Range, q: nat, shared: nat, addr: nat)
    requires HasPrefix(r, p) && HasPrefix(s, q) && q <= p
    requires shared < Pow2(32) && Contains(r, shared) && Contains(s, shared)
    requires addr < Pow2(32) && Contains(r, addr)
    ensures Contains(s, addr)
  {
    hide Contains, Pow2;
    ContainsIsInterval(r, p, shared);
    ContainsIsInterval(r, p, addr);
    ContainsIsInterval(s, q, shared);
    ContainsIsInterval(s, q, addr);
    Pow2Sum(32 - p, p - q);
    DivDiv(shared, Pow2(32 - p), Pow2(p - q));
    DivDiv(addr, Pow2(32 - p), Pow2(p - q));
  }

  lemma {:induction false} DivDiv(a: nat, x: nat, y: nat)
    requires x > 0 && y > 0
    ensures x * y > 0 && a / (x * y) == a / x / y
  {
    var q, r := a / x, a % x;
    Divided(a, x);
    Divided(q, y);
    NestedBlock(x, y, q / y, q % y, r);
    assert x * (y * (q / y) + q % y) == x * q;
    DivModUnique(a, x * y, q / y, x * (q % y) + r);
  }

  lemma {:induction false} Divided(a: nat, d: nat)
    requires d > 0
    ensures a == d * (a / d) + a % d && a % d < d
  {
  }

  lemma {:induction false} NestedBlock(x: nat, y: nat, k: nat, m: nat, r: nat)
    requires m < y && r < x
    ensures x * (y * k + m) + r == x * y * k + (x * m + r)
    ensures x * y > 0 && x * m + r < x * y
  {
    assert x * (y * k + m) == x * (y * k) + x * m;
    assert x * (y * k) == x * y * k;
    var d := y - (m + 1);
    assert x * y == x * (m + 1) + x * d == x * m + x + x * d;
    assert x * d >= 0 && x * m >= 0;
  }

  // ----- Lookup -----

  /** Provider of the first range that contains the address. */
  function Find(ranges: seq<Range>, addr: nat): string {
    if ranges == [] then ""
    else if Contains(ranges[0], addr) then ranges[0].provider
    else Find(ranges[1..], addr)
  }

  lemma {:induction false} FindIsFirst(ranges: seq<Range>, addr: nat)
    ensures (forall i | 0 <= i < |ranges| :: !Contains(ranges[i], addr)) ==> Find(ranges, addr) == ""
    ensures forall i | 0 <= i < |ranges| ::
      Contains(ranges[i], addr) && (forall j | 0 <= j < i :: !Contains(ranges[j], addr)) ==>
        Find(ranges, addr) == ranges[i].provider
  {
    if ranges != [] {
      FindIsFirst(ranges[1..], addr);
    }
  }

  method Lookup(ranges: seq<Range>, text: string) returns (provider: string)
    ensures provider == if Ipv4(text).Some? then Find(ranges, Ipv4(text).value) else ""
  {
    var addr := ParseIpv4(text);
    if addr.None? {
      return "";
    }
    assert ranges[0..] == ranges;
    for i := 0 to |ranges|
      invariant Find(ranges, addr.value) == Find(ranges[i..], addr.value)
    {
      if Contains(ranges[i], addr.value) {
        return ranges[i].provider;
      }
      assert ranges[i..][1..] == ranges[i + 1..];
    }
    provider := "";
  }

  /** Ranges that share an address name the same provider. */
  predicate Agree(r: Range, s: Range, addr: nat) {
    Contains(r, addr) && Contains(s, addr) ==> r.provider == s.provider
  }

  ghost predicate Consistent(ranges: seq<Range>) {
    forall r, s, addr: nat :: r in ranges && s in ranges && addr < Pow2(32) ==> Agree(r, s, addr)
  }

  ghost predicate OrderIndependent(ranges: seq<Range>) {
    forall other: seq<Range>, addr: nat :: multiset(other) == multiset(ranges) && addr < Pow2(32) ==>
      Find(other, addr) == Find(ranges, addr)
  }

  /** No 32-bit address gets an answer that depends on the order of the list, exactly when overlapping
      ranges agree. */
  lemma {:induction false} OrderIndependentIff(ranges: seq<Range>)
    ensures OrderIndependent(ranges) <==> Consistent(ranges)
  {
    if Consistent(ranges) {
      forall other: seq<Range>, addr: nat | multiset(other) == multiset(ranges) && addr < Pow2(32)
        ensures Find(other, addr) == Find(ranges, addr)
      {
        FindAgrees(ranges, other, addr);
      }
    } else {
      var r, s, addr: nat :| r in ranges && s in ranges && addr < Pow2(32) && !Agree(r, s, addr);
      var x := ToFront(ranges, r);
      var y := ToFront(ranges, s);
      assert Find(x, addr) == r.provider && Find(y, addr) == s.provider;
      assert OrderIndependent(ranges) ==> Find(x, addr) == Find(ranges, addr) == Find(y, addr);
    }
  }

  lemma {:induction false} ToFront(ranges: seq<Range>, r: Range) returns (moved: seq<Range>)
    requires r in ranges
    ensures multiset(moved) == multiset(ranges) && moved != [] && moved[0] == r
  {
    var i :| 0 <= i < |ranges| && ranges[i] == r;
    moved := [r] + (ranges[..i] + ranges[i + 1..]);
    assert ranges == ranges[..i] + [r] + ranges[i + 1..];
  }

  /** What is found belongs to some range that contains the address. */
  lemma {:induction false} FindSound(ranges: seq<Range>, addr: nat) returns (r: Option<Range>)
    ensures r.Some? ==> r.value in ranges && Contains(r.value, addr) && Find(ranges, addr) == r.value.provider
    ensures r.None? ==> Find(ranges, addr) == "" && forall s | s in ranges :: !Contains(s, addr)
  {
    if ranges == [] {
      r := None;
    } else if Contains(ranges[0], addr) {
      r := Some(ranges[0]);
    } else {
      r := FindSound(ranges[1..], addr);
    }
  }

  lemma {:induction false} FindAgrees(a: seq<Range>, b: seq<Range>, addr: nat)
    requires multiset(b) == multiset(a) && addr < Pow2(32)
    requires Consistent(a)
    ensures Find(b, addr) == Find(a, addr)
  {
    var x := FindSound(a, addr);
    var y := FindSound(b, addr);
    assert forall r :: r in a <==> r in multiset(a);
    assert forall r :: r in b <==> r in multiset(b);
    assert x.Some? && y.Some? ==> Agree(x.value, y.value, addr);
  }

  // ----- From entries to ranges -----

  /** The ranges of a list of (cidr, provider) entries; malformed ones are skipped. */
  function RangesOf(entries: seq<(string, string)>): seq<Range> {
    if entries == [] then []
    else
      var rest, c := RangesOf(entries[1..]), Cidr(entries[0].0);
      if c.None? then rest
      else [Range(And(c.value.0, Mask(c.value.1)), Mask(c.value.1), entries[0].1)] + rest
  }

  method LoadRanges(entries: seq<(string, string)>) returns (ranges: seq<Range>)
    ensures ranges == RangesOf(entries)
  {
    hide Cidr, And, Mask;
    ranges := [];
    assert entries[0..] == entries;
    for i := 0 to |entries|
      invariant ranges + RangesOf(entries[i..]) == RangesOf(entries)
    {
      var r := ParseCidr(entries[i].0);
      assert entries[i..][1..] == entries[i + 1..];
      if r.Some? {
        ranges := ranges + [Range(r.value.0, r.value.1, entries[i].1)];
      }
    }
  }

  /** Reference definition without any masks: the first entry whose block of 2^(32 - prefix) addresses
      covers the address. */
  function FirstCovering(entries: seq<(string, string)>, addr: nat): string {
    if entries == [] then ""
    else
      var c := Cidr(entries[0].0);
      if c.Some? && addr / Pow2(32 - c.value.1) == c.value.0 / Pow2(32 - c.value.1) then entries[0].1
      else FirstCovering(entries[1..], addr)
  }

  lemma {:induction false} FindIsFirstCovering(entries: seq<(string, string)>, addr: nat)
    requires addr < Pow2(32)
    ensures Find(RangesOf(entries), addr) == FirstCovering(entries, addr)
  {
    if entries != [] {
      FindIsFirstCovering(entries[1..], addr);
      hide Cidr, And, Mask, Pow2, Contains;
      if Cidr(entries[0].0).Some? {
        EntryContains(entries[0], addr);
        assert RangesOf(entries)[1..] == RangesOf(entries[1..]);
      }
    }
  }

  lemma {:induction false} EntryContains(entry: (string, string), addr: nat)
    requires addr < Pow2(32) && Cidr(entry.0).Some?
    ensures var (a, prefix) := Cidr(entry.0).value;
      Contains(Range(And(a, Mask(prefix)), Mask(prefix), entry.1), addr)
      <==> addr / Pow2(32 - prefix) == a / Pow2(32 - prefix)
  {
    var (a, prefix) := Cidr(entry.0).value;
    assert prefix <= 32;
    hide Cidr, And, Mask, Pow2, HasPrefix, Contains;
    var r := Range(And(a, Mask(prefix)), Mask(prefix), entry.1);
    ParsedRange(entry.0, entry.1);
    CidrInRange(entry.0);
    ContainsIsInterval(r, prefix, addr);
    ContainsIsInterval(r, prefix, a);
  }

  lemma {:induction false} CidrInRange(s: string)
    requires Cidr(s).Some?
    ensures Cidr(s).value.0 < Pow2(32)
  {
    Base256Bound(Split(s[..IndexOf(s, '/')], '.'));
  }

  /** The entry names a block that covers the address: both have the same leading `prefix` bits. */
  predicate Covers(entry: (string, string), addr: nat) {
    var c := Cidr(entry.0);
    c.Some? && addr / Pow2(32 - c.value.1) == c.value.0 / Pow2(32 - c.value.1)
  }

  /** In plain terms: a lookup of a loaded list answers with the provider of its first entry that covers
      the address, and with nothing if none does. */
  lemma {:induction false} LookupInPlainTerms(entries: seq<(string, string)>, addr: nat)
    requires addr < Pow2(32)
    ensures (forall i | 0 <= i < |entries| :: !Covers(entries[i], addr)) ==> Find(RangesOf(entries), addr) == ""
    ensures forall i | 0 <= i < |entries| ::
      Covers(entries[i], addr) && (forall j | 0 <= j < i :: !Covers(entries[j], addr)) ==>
        Find(RangesOf(entries), addr) == entries[i].1
  {
    FindIsFirstCovering(entries, addr);
    hide Find, Covers, FirstCovering;
    if forall i | 0 <= i < |entries| :: !Covers(entries[i], addr) {
      NoneCovers(entries, addr);
    }
    forall i | 0 <= i < |entries| && Covers(entries[i], addr) && (forall j | 0 <= j < i :: !Covers(entries[j], addr))
      ensures Find(RangesOf(entries), addr) == entries[i].1
    {
      FirstCovers(entries, addr, i);
    }
  }

  lemma {:induction false} NoneCovers(entries: seq<(string, string)>, addr: nat)
    requires forall i | 0 <= i < |entries| :: !Covers(entries[i], addr)
    ensures FirstCovering(entries, addr) == ""
  {
    if entries != [] {
      NoneCovers(entries[1..], addr);
      CoveringStep(entries, addr);
    }
  }

  lemma {:induction false} FirstCovers(entries: seq<(string, string)>, addr: nat, i: nat)
    requires i < |entries| && Covers(entries[i], addr) && forall j | 0 <= j < i :: !Covers(entries[j], addr)
    ensures FirstCovering(entries, addr) == entries[i].1
  {
    hide Covers, FirstCovering;
    CoveringStep(entries, addr);
    if i > 0 {
      FirstCovers(entries[1..], addr, i - 1);
    }
  }

  lemma {:induction false} CoveringStep(entries: seq<(string, string)>, addr: nat)
    requires entries != []
    ensures FirstCovering(entries, addr)
         == if Covers(entries[0], addr) then entries[0].1 else FirstCovering(entries[1..], addr)
  {
  }
}
