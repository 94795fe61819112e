/** Searching and splitting strings. */
module Text {

  /** Position of the first `c`, or the length if there is none. */
  function IndexOf(s: string, c: char): (k: nat)
    ensures k <= |s|
    ensures k < |s| ==> s[k] == c
    ensures forall i | 0 <= i < k :: s[i] != c
  {
    if s == "" || s[0] == c then 0 else 1 + IndexOf(s[1..], c)
  }

  lemma {:induction false} IndexOfIsFirst(s: string, c: char, k: nat)
    requires k <= |s| && (k < |s| ==> s[k] == c)
    requires forall i | 0 <= i < k :: s[i] != c
    ensures IndexOf(s, c) == k
  {
  }

  /** The pieces between the separators; always at least one. */
  function Split(s: string, c: char): (parts: seq<string>)
    ensures parts != []
    decreases |s|
  {
    var k := IndexOf(s, c);
    if k == |s| then [s] else [s[..k]] + Split(s[k + 1..], c)
  }

  lemma {:induction false} SplitFirst(s: string, c: char, k: nat)
    requires k <= |s| && (k < |s| ==> s[k] == c)
    requires forall i | 0 <= i < k :: s[i] != c
    ensures k == |s| ==> Split(s, c) == [s]
    ensures k < |s| ==> Split(s, c) == [s[..k]] + Split(s[k + 1..], c)
  {
    IndexOfIsFirst(s, c, k);
  }

  /** The same for the text from `start`, whose first separator is at `i`. */
  lemma {:induction false} SplitFrom(s: string, c: char, start: nat, i: nat)
    requires start <= i <= |s| && (i < |s| ==> s[i] == c)
    requires forall k | start <= k < i :: s[k] != c
    ensures i == |s| ==> Split(s[start..], c) == [s[start..i]]
    ensures i < |s| ==> Split(s[start..], c) == [s[start..i]] + Split(s[i + 1..], c)
  {
    hide Split;
    SplitFirst(s[start..], c, i - start);
    assert s[start..][..i - start] == s[start..i];
    if i < |s| {
      assert s[start..][i - start + 1..] == s[i + 1..];
    } else {
      assert s[start..] == s[start..i];
    }
  }

  function Join(parts: seq<string>, c: char): string {
    if parts == [] then ""
    else if |parts| == 1 then parts[0]
    else parts[0] + [c] + Join(parts[1..], c)
  }

  lemma {:induction false} SplitOfJoin(parts: seq<string>, c: char)
    requires parts != [] && forall i | 0 <= i < |parts| :: c !in parts[i]
    ensures Split(Join(parts, c), c) == parts
  {
    var s := Join(parts, c);
    IndexOfIsFirst(s, c, |parts[0]|);
    if |parts| == 1 {
      assert parts == [parts[0]];
    } else {
      assert s[..|parts[0]|] == parts[0] && s[|parts[0]| + 1..] == Join(parts[1..], c);
      SplitOfJoin(parts[1..], c);
      assert parts == [parts[0]] + parts[1..];
    }
  }

  lemma {:induction false} JoinOfSplit(s: string, c: char)
    ensures Join(Split(s, c), c) == s
    ensures forall i | 0 <= i < |Split(s, c)| :: c !in Split(s, c)[i]
    decreases |s|
  {
    var k := IndexOf(s, c);
    if k < |s| {
      JoinOfSplit(s[k + 1..], c);
      var parts := Split(s, c);
      assert parts[1..] == Split(s[k + 1..], c);
      assert s == s[..k] + [c] + s[k + 1..];
    }
  }

  /** Splitting is a homomorphism at a separator. */
  lemma {:induction false} SplitOfConcat(a: string, b: string, c: char)
    ensures Split(a + [c] + b, c) == Split(a, c) + Split(b, c)
    decreases |a|
  {
    hide Split;
    var s := a + [c] + b;
    var k := IndexOf(a, c);
    SplitFirst(a, c, k);
    SplitFirst(s, c, k);
    if k == |a| {
      assert s[..k] == a && s[k + 1..] == b;
    } else {
      var rest := a[k + 1..];
      assert s[..k] == a[..k] && s[k + 1..] == rest + [c] + b;
      SplitOfConcat(rest, b, c);
      assert [a[..k]] + (Split(rest, c) + Split(b, c)) == [a[..k]] + Split(rest, c) + Split(b, c);
    }
  }
}
