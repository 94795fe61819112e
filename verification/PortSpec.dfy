/** Port specifications such as "22,80-82,443". */
module PortSpec {
  import opened Prelude
  import opened Decimal
  import opened Text

  const LAST_PORT: nat := 65535
  const INT_MAX := 2147483647

  function DigitRun(s: string): (n: nat)
    ensures n <= |s| && AllDigits(s[..n]) && (n < |s| ==> !IsDigit(s[n]))
  {
    if s == "" || !IsDigit(s[0]) then 0 else 1 + DigitRun(s[1..])
  }

  /** The library's number reader for a 32-bit int: a value and where it stopped, unless there are no
      digits or the value is out of range. Only a minus sign may come first. */
  function FromChars(s: string): Option<(int, nat)> {
    var sign := if s != "" && s[0] == '-' then 1 else 0;
    var n := DigitRun(s[sign..]);
    var v: int := Value(s[sign..][..n]);
    if n == 0 then None
    else if sign == 0 && v <= INT_MAX then Some((v, n))
    else if sign == 1 && v <= INT_MAX + 1 then Some((-v, n + 1))
    else None
  }

  function ParseUint16(s: string): Option<nat> {
    var r := FromChars(s);
    if r.None? || r.value.1 != |s| then None
    else if r.value.0 < 1 || r.value.0 > LAST_PORT then None
    else Some(r.value.0)
  }

  /** A port is a non-empty string of digits, leading zeros allowed, with a value in 1..65535. */
  lemma {:induction false} PortsAreNumerals(s: string)
    ensures ParseUint16(s)
         == if s != "" && AllDigits(s) && 1 <= Value(s) <= 65535 then Some(Value(s)) else None
  {
    var sign := if s != "" && s[0] == '-' then 1 else 0;
    if sign == 0 {
      assert s[0..] == s;
      var n := DigitRun(s);
      if n == |s| {
        assert s[..n] == s;
      } else {
        assert !IsDigit(s[n]);
      }
    } else {
      assert !IsDigit(s[0]);
    }
  }

  // ----- What a specification denotes -----

  predicate Between(lo: nat, p: nat, hi: nat) {
    lo <= p <= hi
  }

  function Range(lo: nat, hi: nat): set<nat> {
    set p: nat | lo <= p <= hi && Between(lo, p, hi)
  }

  /** The ports of one token; none for an invalid one. An empty token is valid and has no ports. */
  function TokenPorts(t: string): Option<set<nat>> {
    var dash := IndexOf(t, '-');
    if t == "" then Some({})
    else if dash == |t| then
      var p := ParseUint16(t);
      if p.None? then None else Some({p.value})
    else
      var lo, hi := ParseUint16(t[..dash]), ParseUint16(t[dash + 1..]);
      if lo.None? || hi.None? then None
      else if lo.value > hi.value then Some(Range(hi.value, lo.value))
      else Some(Range(lo.value, hi.value))
  }

  predicate AllValid(tokens: seq<string>) {
    forall t | t in tokens :: TokenPorts(t).Some?
  }

  function Union(tokens: seq<string>): set<nat> {
    set t, p | t in tokens && TokenPorts(t).Some? && p in TokenPorts(t).value :: p
  }

  /** The members of a set up to a bound, in ascending order: how an ordered set is walked. */
  function Ascending(s: set<nat>, n: nat): seq<nat> {
    if n == 0 then [] else Ascending(s, n - 1) + if n in s then [n] else []
  }

  lemma {:induction false} AscendingIsSorted(s: set<nat>, n: nat)
    ensures forall i, j | 0 <= i < j < |Ascending(s, n)| :: Ascending(s, n)[i] < Ascending(s, n)[j]
    ensures forall p :: p in Ascending(s, n) <==> p in s && 1 <= p <= n
  {
    if n > 0 {
      AscendingIsSorted(s, n - 1);
      var front := Ascending(s, n - 1);
      assert forall i | 0 <= i < |front| :: front[i] in front;
    }
  }

  function Expanded(spec: string): seq<nat> {
    var tokens := Split(spec, ',');
    if AllValid(tokens) then Ascending(Union(tokens), LAST_PORT) else []
  }

  lemma {:induction false} TokenPortsInRange(t: string)
    requires TokenPorts(t).Some?
    ensures forall p | p in TokenPorts(t).value :: 1 <= p <= LAST_PORT
  {
  }

  /** The result ascends strictly and holds exactly the ports of the tokens, provided all are valid. */
  lemma {:induction false} ExpandedMeansUnion(spec: string)
    ensures var ports := Expanded(spec); var tokens := Split(spec, ',');
      && (forall i, j | 0 <= i < j < |ports| :: ports[i] < ports[j])
      && (forall p :: p in ports <==>
            AllValid(tokens) && exists t :: t in tokens && TokenPorts(t).Some? && p in TokenPorts(t).value)
      && (forall p | p in ports :: 1 <= p <= 65535)
  {
    var tokens := Split(spec, ',');
    AscendingIsSorted(Union(tokens), LAST_PORT);
    forall t | t in tokens && TokenPorts(t).Some? ensures forall p | p in TokenPorts(t).value :: 1 <= p <= LAST_PORT {
      TokenPortsInRange(t);
    }
  }

  // ----- The same in plain terms -----

  /** `s` is a numeral for the port `v`. */
  predicate IsPort(s: string, v: nat) {
    s != "" && AllDigits(s) && Value(s) == v && 1 <= v <= 65535
  }

  predicate IsRange(t: string, x: string, y: string, a: nat, b: nat) {
    t == x + "-" + y && IsPort(x, a) && IsPort(y, b)
  }

  /** The token names the port, alone or between two ends in either order. */
  ghost predicate Denotes(t: string, p: nat) {
    IsPort(t, p) || exists x, y, a: nat, b: nat :: IsRange(t, x, y, a, b) && (a <= p <= b || b <= p <= a)
  }

  ghost predicate WellFormed(t: string) {
    t == "" || exists p: nat :: Denotes(t, p)
  }

  lemma {:induction false} DashesSplit(t: string, x: string, y: string, a: nat, b: nat)
    requires IsRange(t, x, y, a, b)
    ensures var dash := IndexOf(t, '-'); dash == |x| < |t| && t[..dash] == x && t[dash + 1..] == y
  {
    assert forall i | 0 <= i < |x| :: IsDigit(x[i]) && t[i] == x[i];
    IndexOfIsFirst(t, '-', |x|);
  }

  lemma {:induction false} PortIff(s: string)
    ensures forall v: nat :: ParseUint16(s) == Some(v) <==> IsPort(s, v)
    ensures ParseUint16(s).Some? ==> IsPort(s, ParseUint16(s).value)
  {
    PortsAreNumerals(s);
  }

  lemma {:induction false} TokenMeaning(t: string)
    ensures TokenPorts(t).Some? <==> WellFormed(t)
    ensures TokenPorts(t).Some? ==> forall p: nat :: p in TokenPorts(t).value <==> Denotes(t, p)
  {
    hide ParseUint16, IndexOf;
    var dash := IndexOf(t, '-');
    PortIff(t);
    if dash == |t| {
      assert forall x, y, a: nat, b: nat :: IsRange(t, x, y, a, b) ==> t[|x|] == '-';
      assert forall p: nat :: Denotes(t, p) <==> IsPort(t, p);
      assert t != "" && TokenPorts(t).Some? ==> Denotes(t, ParseUint16(t).value);
    } else {
      assert !IsDigit(t[dash]);
      assert forall p: nat :: !IsPort(t, p);
      DashedMeaning(t);
    }
  }

  lemma {:induction false} DashedMeaning(t: string)
    requires IndexOf(t, '-') < |t| && forall p: nat :: !IsPort(t, p)
    ensures TokenPorts(t).Some? <==> WellFormed(t)
    ensures TokenPorts(t).Some? ==> forall p: nat :: p in TokenPorts(t).value <==> Denotes(t, p)
  {
    hide ParseUint16, IndexOf, IsPort;
    var dash := IndexOf(t, '-');
    var x, y := t[..dash], t[dash + 1..];
    assert t == x + "-" + y;
    PortIff(x);
    PortIff(y);
    forall x', y', a: nat, b: nat | IsRange(t, x', y', a, b) ensures x' == x && y' == y {
      DashesSplit(t, x', y', a, b);
    }
    if TokenPorts(t).Some? {
      var a, b := ParseUint16(x).value, ParseUint16(y).value;
      assert IsRange(t, x, y, a, b);
      assert forall p: nat | Denotes(t, p) :: a <= p <= b || b <= p <= a;
      assert Denotes(t, a);
      forall p: nat ensures p in TokenPorts(t).value <==> Denotes(t, p) {
        assert Between(a, p, b) || Between(b, p, a) <==> Denotes(t, p);
      }
    }
  }

  /** In plain terms: a port is in the result exactly if every non-empty token is a port or two ports with a
      dash between them, in either order, and some token names it. */
  lemma {:induction false} ExpandedInPlainTerms(spec: string)
    ensures var ports := Expanded(spec); var tokens := Split(spec, ',');
      && (forall i, j | 0 <= i < j < |ports| :: ports[i] < ports[j])
      && forall p: nat :: p in ports <==>
           (forall t | t in tokens :: WellFormed(t)) && exists t :: t in tokens && Denotes(t, p)
  {
    ExpandedMeansUnion(spec);
    var ports, tokens := Expanded(spec), Split(spec, ',');
    hide Expanded, TokenPorts, WellFormed, Denotes, Split;
    forall t ensures TokenPorts(t).Some? <==> WellFormed(t)
      ensures TokenPorts(t).Some? ==> forall p: nat :: p in TokenPorts(t).value <==> Denotes(t, p)
    {
      TokenMeaning(t);
    }
    assert AllValid(tokens) <==> forall t | t in tokens :: WellFormed(t);
  }

  function TokenSet(spec: string): set<string> {
    set t | t in Split(spec, ',')
  }

  /** Reordering or repeating tokens changes nothing. */
  lemma {:induction false} OrderDoesNotMatter(a: string, b: string)
    requires TokenSet(a) == TokenSet(b)
    ensures Expanded(a) == Expanded(b)
  {
    var x, y := Split(a, ','), Split(b, ',');
    assert forall t :: (t in x <==> t in TokenSet(a)) && (t in y <==> t in TokenSet(b));
    forall t | TokenPorts(t).Some? && (t in x || t in y)
      ensures TokenPorts(t).value <= Union(x) && TokenPorts(t).value <= Union(y)
    {
      assert t in x && t in y;
    }
    assert Union(x) == Union(y);
  }

  // ----- The expander -----

  /** Inserts the ports of one piece; false for an invalid one. */
  method Flush(token: string, ports: set<nat>) returns (ok: bool, more: set<nat>)
    ensures ok <==> TokenPorts(token).Some?
    ensures ok ==> more == ports + TokenPorts(token).value
  {
    more := ports;
    if token == "" {
      return true, more;
    }
    var dash := IndexOf(token, '-');
    if dash == |token| {
      var p := ParseUint16(token);
      if p.None? {
        return false, more;
      }
      return true, more + {p.value};
    }
    var first := ParseUint16(token[..dash]);
    if first.None? {
      return false, more;
    }
    var second := ParseUint16(token[dash + 1..]);
    if second.None? {
      return false, more;
    }
    var lo, hi := first.value, second.value;
    if lo > hi {
      lo, hi := hi, lo;
    }
    var p := lo;
    while p <= hi
      invariant lo <= p <= hi + 1
      invariant more == ports + Range(lo, p - 1)
    {
      more := more + {p};
      p := p + 1;
    }
    ok := true;
  }

  /** The pieces before `start` are done, the others are still in the text from there. */
  predicate Scanned(spec: string, start: nat, done: seq<string>) {
    if start <= |spec| then Split(spec, ',') == done + Split(spec[start..], ',')
    else Split(spec, ',') == done
  }

  method ExpandPortSpec(spec: string) returns (ports: seq<nat>)
    ensures ports == Expanded(spec)
  {
    hide Union, AllValid, TokenPorts, Scanned, Expanded;
    var found: set<nat> := {};
    ghost var done: seq<string> := [];
    var start := 0;
    ScanStarts(spec);
    for i := 0 to |spec| + 1
      invariant start <= i
      invariant i == |spec| + 1 ==> start == |spec| + 1
      invariant forall k | start <= k < i :: spec[k] != ','
      invariant Scanned(spec, start, done)
      invariant AllValid(done) && found == Union(done)
    {
      if i == |spec| || spec[i] == ',' {
        var piece := spec[start..i];
        var ok, more := Flush(piece, found);
        NextPiece(spec, start, i, done);
        if !ok {
          InvalidToken(spec, piece);
          return [];
        }
        ValidToken(done, piece);
        done := done + [piece];
        found := more;
        start := i + 1;
      }
    }
    ScanEnds(spec, done);
    ports := Ascending(found, LAST_PORT);
  }

  lemma {:induction false} ScanStarts(spec: string)
    ensures Scanned(spec, 0, []) && AllValid([]) && Union([]) == {}
  {
    assert spec[0..] == spec;
  }

  lemma {:induction false} ScanEnds(spec: string, done: seq<string>)
    requires Scanned(spec, |spec| + 1, done) && AllValid(done)
    ensures Expanded(spec) == Ascending(Union(done), LAST_PORT)
  {
  }

  lemma {:induction false} InvalidToken(spec: string, token: string)
    requires token in Split(spec, ',') && TokenPorts(token).None?
    ensures Expanded(spec) == []
  {
  }

  lemma {:induction false} ValidToken(done: seq<string>, token: string)
    requires AllValid(done) && TokenPorts(token).Some?
    ensures AllValid(done + [token])
    ensures Union(done + [token]) == Union(done) + TokenPorts(token).value
  {
    var all := done + [token];
    assert token in all && forall u | u in done :: u in all;
  }

  lemma {:induction false} NextPiece(spec: string, start: nat, i: nat, done: seq<string>)
    requires start <= i <= |spec| && (i < |spec| ==> spec[i] == ',')
    requires forall k | start <= k < i :: spec[k] != ','
    requires Scanned(spec, start, done)
    ensures Scanned(spec, i + 1, done + [spec[start..i]])
    ensures spec[start..i] in Split(spec, ',')
  {
    SplitFrom(spec, ',', start, i);
    if i < |spec| {
      assert done + ([spec[start..i]] + Split(spec[i + 1..], ','))
          == done + [spec[start..i]] + Split(spec[i + 1..], ',');
    }
    assert spec[start..i] == Split(spec, ',')[|done|];
  }

  // ----- Inverting a printer -----

  function RunEnd(s: set<nat>, p: nat): (q: nat)
    requires p <= LAST_PORT
    ensures p <= q <= LAST_PORT && (forall x | p < x <= q :: x in s) && (q < LAST_PORT ==> q + 1 !in s)
    decreases LAST_PORT - p
  {
    if p < LAST_PORT && p + 1 in s then RunEnd(s, p + 1) else p
  }

  function RangeToken(lo: nat, hi: nat): string {
    if lo == hi then Numeral(lo) else Numeral(lo) + "-" + Numeral(hi)
  }

  /** One token per maximal run of consecutive ports, ascending. */
  function RangeTokens(s: set<nat>, p: nat): seq<string>
    decreases LAST_PORT + 1 - p
  {
    if p > LAST_PORT then []
    else if p !in s then RangeTokens(s, p + 1)
    else [RangeToken(p, RunEnd(s, p))] + RangeTokens(s, RunEnd(s, p) + 1)
  }

  lemma {:induction false} NumeralHasNo(n: nat, c: char)
    requires !IsDigit(c)
    ensures c !in Numeral(n)
  {
    NumeralRoundTrip(n);
  }

  lemma {:induction false} NumeralIsPort(n: nat)
    requires 1 <= n <= LAST_PORT
    ensures ParseUint16(Numeral(n)) == Some(n)
  {
    NumeralRoundTrip(n);
    PortsAreNumerals(Numeral(n));
  }

  lemma {:induction false} RangeTokenPorts(lo: nat, hi: nat)
    requires 1 <= lo <= hi <= LAST_PORT
    ensures TokenPorts(RangeToken(lo, hi)) == Some(Range(lo, hi)) && ',' !in RangeToken(lo, hi)
  {
    hide ParseUint16, Numeral, IndexOf;
    var t := RangeToken(lo, hi);
    NumeralHasNo(lo, '-');
    NumeralHasNo(lo, ',');
    NumeralHasNo(hi, ',');
    NumeralRoundTrip(lo);
    NumeralIsPort(lo);
    NumeralIsPort(hi);
    IndexOfIsFirst(t, '-', |Numeral(lo)|);
    if lo == hi {
      assert Range(lo, hi) == {lo};
    } else {
      assert t[..|Numeral(lo)|] == Numeral(lo) && t[|Numeral(lo)| + 1..] == Numeral(hi);
    }
  }

  lemma {:induction false} RangeTokensDenote(s: set<nat>, p: nat)
    requires p >= 1
    ensures var ts := RangeTokens(s, p);
      && AllValid(ts) && (forall i | 0 <= i < |ts| :: ',' !in ts[i])
      && Union(ts) == set x | x in s && p <= x <= LAST_PORT
    decreases LAST_PORT + 1 - p
  {
    if p <= LAST_PORT {
      if p !in s {
        RangeTokensDenote(s, p + 1);
      } else {
        hide TokenPorts, Union, RangeToken;
        var q := RunEnd(s, p);
        var t, ts := RangeToken(p, q), RangeTokens(s, q + 1);
        RangeTokensDenote(s, q + 1);
        RangeTokenPorts(p, q);
        UnionOfCons(t, ts);
        RunSplits(s, p, q);
      }
    }
  }

  lemma {:induction false} RunSplits(s: set<nat>, p: nat, q: nat)
    requires p in s && p <= q <= LAST_PORT && forall x | p < x <= q :: x in s
    ensures (set x | x in s && p <= x <= LAST_PORT) == Range(p, q) + set x | x in s && q + 1 <= x <= LAST_PORT
  {
    assert forall x | Between(p, x, q) :: x in s;
  }

  lemma {:induction false} UnionOfCons(t: string, ts: seq<string>)
    requires TokenPorts(t).Some?
    ensures Union([t] + ts) == TokenPorts(t).value + Union(ts)
  {
    var all := [t] + ts;
    assert t in all && forall u | u in ts :: u in all;
  }

  /** Expanding the compressed form of a set of ports gives exactly that set, ascending. */
  lemma {:induction false} ExpandInvertsCompress(s: set<nat>)
    requires forall p | p in s :: 1 <= p <= 65535
    ensures Expanded(Join(RangeTokens(s, 1), ',')) == Ascending(s, 65535)
  {
    var ts := RangeTokens(s, 1);
    RangeTokensDenote(s, 1);
    assert Union(ts) == s;
    if ts == [] {
      assert Join(ts, ',') == "" && Split("", ',') == [""];
      assert TokenPorts("") == Some({});
      assert Union([""]) == {} == s;
    } else {
      SplitOfJoin(ts, ',');
    }
  }
}
