/** The EPSS score index built from a CSV text, against a plain scan over its lines. The library's
    number reader is an arbitrary function. */
module Epss {
  import opened Prelude
  import opened Text

  datatype Entry = Entry(epss: real, percentile: real)

  const NO_ENTRY := Entry(0.0, 0.0)

  function UpperChar(c: char): char {
    if 'a' <= c <= 'z' then c - 32 as char else c
  }

  function Upper(s: string): string {
    seq(|s|, i requires 0 <= i < |s| => UpperChar(s[i]))
  }

  /** The same letter, perhaps in the other case; only ASCII letters have two. */
  predicate SameLetter(a: char, b: char) {
    a == b || ('a' <= a <= 'z' && b as int == a as int - 32) || ('a' <= b <= 'z' && a as int == b as int - 32)
  }

  predicate SameIgnoringCase(a: string, b: string) {
    |a| == |b| && forall i | 0 <= i < |a| :: SameLetter(a[i], b[i])
  }

  lemma {:induction false} UpperFolds(a: string, b: string)
    ensures Upper(a) == Upper(b) <==> SameIgnoringCase(a, b)
  {
    forall i | 0 <= i < |a| && i < |b| ensures UpperChar(a[i]) == UpperChar(b[i]) <==> SameLetter(a[i], b[i]) {
      FoldChar(a[i], b[i]);
    }
    hide UpperChar, SameLetter;
    if Upper(a) == Upper(b) {
      assert |a| == |Upper(a)| == |b|;
      assert forall i | 0 <= i < |a| :: Upper(a)[i] == UpperChar(a[i]) && Upper(b)[i] == UpperChar(b[i]);
    }
  }

  lemma {:induction false} FoldChar(a: char, b: char)
    ensures UpperChar(a) == UpperChar(b) <==> SameLetter(a, b)
  {
    FoldInt(a);
    FoldInt(b);
  }

  lemma {:induction false} FoldInt(c: char)
    ensures UpperChar(c) as int == if 97 <= c as int <= 122 then c as int - 32 else c as int
  {
  }

  predicate Blank(c: char) {
    c == ' ' || c == '\t' || c == '\r' || c == '\n'
  }

  predicate AllBlank(s: string) {
    forall i | 0 <= i < |s| :: Blank(s[i])
  }

  // ----- Trimming -----

  function TrimFront(s: string): string {
    if s != "" && Blank(s[0]) then TrimFront(s[1..]) else s
  }

  function TrimBack(s: string): string {
    if s != "" && Blank(s[|s| - 1]) then TrimBack(s[..|s| - 1]) else s
  }

  function Trimmed(s: string): string {
    TrimBack(TrimFront(s))
  }

  method Trim(s: string) returns (t: string)
    ensures t == Trimmed(s)
  {
    t := s;
    while t != "" && Blank(t[0])
      invariant TrimFront(t) == TrimFront(s)
      decreases |t|
    {
      t := t[1..];
    }
    while t != "" && Blank(t[|t| - 1])
      invariant TrimBack(t) == Trimmed(s)
      decreases |t|
    {
      t := t[..|t| - 1];
    }
  }

  predicate Tight(s: string) {
    s != "" ==> !Blank(s[0]) && !Blank(s[|s| - 1])
  }

  lemma {:induction false} TrimFrontOf(front: string, t: string)
    requires AllBlank(front) && (t != "" ==> !Blank(t[0]))
    ensures TrimFront(front + t) == t
  {
    if front == "" {
      assert front + t == t;
    } else {
      assert (front + t)[1..] == front[1..] + t;
      TrimFrontOf(front[1..], t);
    }
  }

  lemma {:induction false} TrimBackOf(t: string, back: string)
    requires AllBlank(back) && (t != "" ==> !Blank(t[|t| - 1]))
    ensures TrimBack(t + back) == t
    decreases |back|
  {
    if back == "" {
      assert t + back == t;
    } else {
      assert (t + back)[..|t + back| - 1] == t + back[..|back| - 1];
      TrimBackOf(t, back[..|back| - 1]);
    }
  }

  /** Trimming removes blanks from both ends and nothing else: it inverts padding. */
  lemma {:induction false} TrimmedOfPadded(front: string, t: string, back: string)
    requires AllBlank(front) && AllBlank(back) && Tight(t)
    ensures Trimmed(front + t + back) == t
  {
    if t == "" {
      TrimFrontOf(front + back, "");
      assert front + t + back == front + back + "";
    } else {
      assert front + t + back == front + (t + back);
      TrimFrontOf(front, t + back);
      TrimBackOf(t, back);
    }
  }

  // ----- One line -----

  predicate LooksLikeCve(s: string) {
    && |s| >= 7
    && UpperChar(s[0]) == 'C' && UpperChar(s[1]) == 'V' && UpperChar(s[2]) == 'E' && s[3] == '-'
  }

  function ParseDouble(s: string, strtod: string -> Option<real>): Option<real> {
    if s == "" then None else strtod(s)
  }

  /** The id and entry of a trimmed valid line; comments, headers and malformed lines have none. */
  function EntryOfLine(line: string, strtod: string -> Option<real>): Option<(string, Entry)> {
    if line == "" || line[0] == '#' || !LooksLikeCve(line) then None
    else
      var c1 := IndexOf(line, ',');
      if c1 == |line| then None
      else
        var rest := line[c1 + 1..];
        var c2 := IndexOf(rest, ',');
        if c2 == |rest| then None
        else EntryOfFields(line[..c1], rest[..c2], rest[c2 + 1..], strtod)
  }

  /** The score must be readable; the percentile counts as 0 if it is not. */
  function EntryOfFields(id: string, score: string, rank: string, strtod: string -> Option<real>)
    : Option<(string, Entry)>
  {
    var epss, percentile := ParseDouble(score, strtod), ParseDouble(rank, strtod);
    if epss.None? then None
    else Some((id, Entry(epss.value, if percentile.Some? then percentile.value else 0.0)))
  }

  function EntryOf(raw: string, strtod: string -> Option<real>): Option<(string, Entry)> {
    EntryOfLine(Trimmed(raw), strtod)
  }

  /** `CVE-`, in any case, and at least seven characters. */
  predicate CveLike(s: string) {
    && |s| >= 7
    && s[0] in "Cc" && s[1] in "Vv" && s[2] in "Ee" && s[3] == '-'
  }

  lemma {:induction false} LooksLikeIsCveLike(s: string)
    ensures LooksLikeCve(s) <==> CveLike(s)
  {
    if |s| >= 7 {
      FoldInt(s[0]);
      FoldInt(s[1]);
      FoldInt(s[2]);
    }
  }

  /** What is read from the three fields: the first is the id, the second the score, the third the
      percentile; a missing or unreadable score spoils the line, a percentile counts as 0. */
  predicate ReadAs(e: Option<(string, Entry)>, id: string, score: string, rank: string,
                   strtod: string -> Option<real>) {
    if score == "" || strtod(score).None? then e.None?
    else
      && e.Some? && e.value.0 == id && e.value.1.epss == strtod(score).value
      && e.value.1.percentile == if rank != "" && strtod(rank).Some? then strtod(rank).value else 0.0
  }

  function LineOf(id: string, score: string, rank: string): string {
    id + "," + (score + "," + rank)
  }

  /** A line with an entry is an id and two more fields between commas. */
  lemma {:induction false} ValidLineForm(line: string, strtod: string -> Option<real>)
    returns (id: string, score: string, rank: string)
    requires EntryOfLine(line, strtod).Some?
    ensures line == id + "," + (score + "," + rank) && ',' !in id && ',' !in score && CveLike(line)
    ensures ReadAs(EntryOfLine(line, strtod), id, score, rank, strtod)
  {
    LooksLikeIsCveLike(line);
    hide LooksLikeCve, IndexOf, CveLike;
    var c1 := IndexOf(line, ',');
    var rest := line[c1 + 1..];
    var c2 := IndexOf(rest, ',');
    id, score, rank := line[..c1], rest[..c2], rest[c2 + 1..];
    assert rest == score + "," + rank;
  }

  /** And every line of that form, however padded with blanks, is read so. */
  lemma {:induction false} LineRoundTrip(front: string, id: string, score: string, rank: string, back: string,
                        strtod: string -> Option<real>)
    requires forall i | 0 <= i < |front| :: front[i] in " \t\r\n"
    requires forall i | 0 <= i < |back| :: back[i] in " \t\r\n"
    requires var line := id + "," + (score + "," + rank); CveLike(line) && line[|line| - 1] !in " \t\r\n"
    requires ',' !in id && ',' !in score
    ensures ReadAs(EntryOf(front + (id + "," + (score + "," + rank)) + back, strtod), id, score, rank, strtod)
  {
    LooksLikeIsCveLike(LineOf(id, score, rank));
    assert ReadAs(EntryOfFields(id, score, rank, strtod), id, score, rank, strtod);
    hide ReadAs;
    assert AllBlank(front) && AllBlank(back) && Tight(LineOf(id, score, rank));
    TrimmedOfPadded(front, LineOf(id, score, rank), back);
    TightLine(id, score, rank, strtod);
    hide Trimmed, EntryOfLine, EntryOfFields, LineOf;
  }

  lemma {:induction false} TightLine(id: string, score: string, rank: string, strtod: string -> Option<real>)
    requires LooksLikeCve(LineOf(id, score, rank)) && ',' !in id && ',' !in score
    ensures EntryOfLine(LineOf(id, score, rank), strtod) == EntryOfFields(id, score, rank, strtod)
  {
    hide EntryOfFields;
    var line, rest := LineOf(id, score, rank), score + "," + rank;
    IndexOfIsFirst(line, ',', |id|);
    IndexOfIsFirst(rest, ',', |score|);
    hide IndexOf;
    assert line[..|id|] == id && line[|id| + 1..] == rest;
    assert rest[..|score|] == score && rest[|score| + 1..] == rank;
  }

  // ----- The index -----

  type Index = map<string, Entry>

  /** The index of a list of lines: an earlier line wins over a later one with the same id. */
  function IndexOfLines(lines: seq<string>, strtod: string -> Option<real>): Index {
    if lines == [] then map[]
    else
      var later := IndexOfLines(lines[1..], strtod);
      var e := EntryOf(lines[0], strtod);
      if e.None? then later else later[Upper(e.value.0) := e.value.1]
  }

  function Parsed(csv: string, strtod: string -> Option<real>): Index {
    IndexOfLines(Split(csv, '\n'), strtod)
  }

  function Lookup(index: Index, id: string): Entry {
    if Upper(id) in index then index[Upper(id)] else NO_ENTRY
  }

  /** Reference definition: the first valid line whose id matches, ignoring case. */
  function Scan(lines: seq<string>, id: string, strtod: string -> Option<real>): Entry {
    if lines == [] then Entry(0.0, 0.0)
    else
      var e := EntryOf(lines[0], strtod);
      if e.Some? && SameIgnoringCase(e.value.0, id) then e.value.1 else Scan(lines[1..], id, strtod)
  }

  lemma {:induction false} IndexAgreesWithScan(lines: seq<string>, id: string, strtod: string -> Option<real>)
    ensures Lookup(IndexOfLines(lines, strtod), id) == Scan(lines, id, strtod)
  {
    if lines != [] {
      IndexAgreesWithScan(lines[1..], id, strtod);
      var e := EntryOf(lines[0], strtod);
      if e.Some? {
        UpperFolds(e.value.0, id);
      }
      hide EntryOf, Upper, SameIgnoringCase;
    }
  }

  /** Looking an id up in the index of a text is scanning the text for its first valid line. */
  lemma {:induction false} LookupIsScan(csv: string, id: string, strtod: string -> Option<real>)
    ensures Lookup(Parsed(csv, strtod), id) == Scan(Split(csv, '\n'), id, strtod)
  {
    IndexAgreesWithScan(Split(csv, '\n'), id, strtod);
  }

  lemma {:induction false} IndexOfConcat(a: seq<string>, b: seq<string>, strtod: string -> Option<real>)
    ensures IndexOfLines(a + b, strtod) == IndexOfLines(b, strtod) + IndexOfLines(a, strtod)
  {
    if a == [] {
      assert a + b == b;
    } else {
      assert (a + b)[1..] == a[1..] + b;
      IndexOfConcat(a[1..], b, strtod);
    }
  }

  /** Parsing two texts joined by a line feed merges their indexes, the first winning. */
  lemma {:induction false} ParsedOfConcat(a: string, b: string, strtod: string -> Option<real>)
    ensures Parsed(a + ['\n'] + b, strtod) == Parsed(b, strtod) + Parsed(a, strtod)
  {
    SplitOfConcat(a, b, '\n');
    IndexOfConcat(Split(a, '\n'), Split(b, '\n'), strtod);
  }

  // ----- The parser -----

  function Emplaced(index: Index, key: string, e: Entry): Index {
    if key in index then index else index[key := e]
  }

  lemma {:induction false} EmplaceLine(line: string, rest: seq<string>, index: Index, strtod: string -> Option<real>)
    ensures var e := EntryOf(line, strtod);
      IndexOfLines([line] + rest, strtod) + index
      == IndexOfLines(rest, strtod) + if e.None? then index else Emplaced(index, Upper(e.value.0), e.value.1)
  {
    assert ([line] + rest)[1..] == rest;
  }

  method Parse(csv: string, strtod: string -> Option<real>) returns (index: Index)
    ensures index == Parsed(csv, strtod)
  {
    hide EntryOf, EntryOfLine, Upper, Split, IndexOfLines, Trimmed, IndexOf, Emplaced;
    index := map[];
    ghost var lines := Split(csv, '\n');
    var lineStart := 0;
    assert csv[0..] == csv;
    while lineStart < |csv|
      invariant lineStart <= |csv| ==>
        Parsed(csv, strtod) == IndexOfLines(Split(csv[lineStart..], '\n'), strtod) + index
      invariant lineStart > |csv| ==> Parsed(csv, strtod) == index
    {
      var end := lineStart + IndexOf(csv[lineStart..], '\n');
      ghost var raw := csv[lineStart..end];
      ghost var rest := if end < |csv| then Split(csv[end + 1..], '\n') else [];
      SplitFrom(csv, '\n', lineStart, end);
      EmplaceLine(raw, rest, index, strtod);
      NoLines(strtod);
      assert [raw] + [] == [raw];
      var line := Trim(csv[lineStart..end]);
      lineStart := end + 1;
      index := AddLine(line, raw, index, strtod);
    }
    LastLineEmpty(csv, strtod);
  }

  lemma {:induction false} NoLines(strtod: string -> Option<real>)
    ensures forall index: Index :: IndexOfLines([], strtod) + index == index
  {
  }

  lemma {:induction false} LastLineEmpty(csv: string, strtod: string -> Option<real>)
    ensures IndexOfLines(Split(csv[|csv|..], '\n'), strtod) == map[]
  {
    assert csv[|csv|..] == "" && Split("", '\n') == [""];
    assert Trimmed("") == "";
  }

  /** The body of the loop after trimming, with its early continues. */
  method AddLine(line: string, ghost raw: string, index: Index, strtod: string -> Option<real>) returns (more: Index)
    requires line == Trimmed(raw)
    ensures var e := EntryOf(raw, strtod);
      more == if e.None? then index else Emplaced(index, Upper(e.value.0), e.value.1)
  {
    hide Trimmed, IndexOf, LooksLikeCve, Upper;
    more := index;
    if line == "" {
      return;
    }
    if line[0] == '#' {
      return;
    }
    if !LooksLikeCve(line) {
      return;
    }
    var c1 := IndexOf(line, ',');
    if c1 == |line| {
      return;
    }
    var c2 := c1 + 1 + IndexOf(line[c1 + 1..], ',');
    if c2 == |line| {
      return;
    }
    var cve, epssText, rankText := line[..c1], line[c1 + 1..c2], line[c2 + 1..];
    ghost var rest := line[c1 + 1..];
    assert rest[..c2 - c1 - 1] == epssText && rest[c2 - c1..] == rankText;
    var epss := ParseDouble(epssText, strtod);
    if epss.None? {
      return;
    }
    var percentile := ParseDouble(rankText, strtod);
    if percentile.None? {
      percentile := Some(0.0);
    }
    if Upper(cve) !in more {
      more := more[Upper(cve) := Entry(epss.value, percentile.value)];
    }
  }
}
