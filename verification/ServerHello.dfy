/** The ServerHello body parser (section 4.1.3 of RFC 8446) against the wire format it reads. */
module ServerHello {

  type Byte = x: int | 0 <= x < 256

  type Word = x: int | 0 <= x < 65536

  datatype Ja4SInput = Ja4SInput(
    overQuic: bool, legacyVersion: Word, negotiatedVersion: Word, cipherId: Word,
    extensionTypes: seq<Word>, alpn: string)

  const BLANK := Ja4SInput(false, 0, 0, 0, [], "")

  const SUPPORTED_VERSIONS: Word := 0x002b

  /** Two bytes in network order. */
  function Join(hi: int, lo: int): (v: int)
    requires 0 <= hi < 256 && 0 <= lo < 256
    ensures 0 <= v < 65536
  {
    hi * 256 + lo
  }

  function U16(b: seq<Byte>, at: nat): Word
    requires at + 2 <= |b|
  {
    Join(b[at], b[at + 1])
  }

  function U16Bytes(v: Word): seq<Byte> {
    [v / 256, v % 256]
  }

  lemma {:induction false} U16Cut(b: seq<Byte>, at: nat)
    requires at + 2 <= |b|
    ensures U16Bytes(U16(b, at)) == b[at..at + 2]
  {
  }

  lemma {:induction false} Cut(b: seq<Byte>, i: nat, j: nat)
    requires i <= j <= |b|
    ensures b[..j] == b[..i] + b[i..j]
  {
  }

  /** A reserved value of section 2 of RFC 8701: equal bytes whose low nibble is 10. */
  predicate IsGrease(v: Word) {
    v / 256 == v % 256 && v % 256 % 16 == 10
  }

  lemma {:induction false} GreaseValues(v: Word)
    ensures IsGrease(v) <==> v in {0x0a0a, 0x1a1a, 0x2a2a, 0x3a3a, 0x4a4a, 0x5a5a, 0x6a6a, 0x7a7a,
                                   0x8a8a, 0x9a9a, 0xaaaa, 0xbaba, 0xcaca, 0xdada, 0xeaea, 0xfafa}
  {
    if IsGrease(v) {
      assert v == v % 256 * 257;
      assert v % 256 == v % 256 / 16 * 16 + 10;
    }
  }

  // ----- The wire format -----

  datatype Extension = Extension(kind: Word, body: seq<Byte>)

  predicate Encodable(e: Extension) {
    |e.body| < 65536
  }

  function ExtensionBytes(e: Extension): seq<Byte>
    requires Encodable(e)
  {
    U16Bytes(e.kind) + U16Bytes(|e.body|) + e.body
  }

  predicate AllEncodable(es: seq<Extension>) {
    forall i | 0 <= i < |es| :: Encodable(es[i])
  }

  function ExtensionsBytes(es: seq<Extension>): seq<Byte>
    requires AllEncodable(es)
  {
    if es == [] then [] else ExtensionBytes(es[0]) + ExtensionsBytes(es[1..])
  }

  /** A message up to the end of its extension block, the block still unparsed, and the bytes after. */
  datatype Frame = Frame(version: Word, random: seq<Byte>, session: seq<Byte>, cipher: Word,
                         compression: Byte, block: seq<Byte>, trailing: seq<Byte>)

  predicate ValidFrame(f: Frame) {
    |f.random| == 32 && |f.session| < 256 && |f.block| < 65536
  }

  function FrameBytes(f: Frame): seq<Byte>
    requires ValidFrame(f)
  {
    U16Bytes(f.version) + f.random + [|f.session|] + f.session + U16Bytes(f.cipher) + [f.compression]
      + U16Bytes(|f.block|) + f.block + f.trailing
  }

  // ----- Reading the extension block -----

  predicate StartsWithExtension(block: seq<Byte>) {
    |block| >= 4 && |block| >= 4 + U16(block, 2)
  }

  function FirstExtension(block: seq<Byte>): Extension
    requires StartsWithExtension(block)
  {
    Extension(U16(block, 0), block[4..4 + U16(block, 2)])
  }

  function Extensions(block: seq<Byte>): seq<Extension> {
    if !StartsWithExtension(block) then []
    else [FirstExtension(block)] + Extensions(block[4 + U16(block, 2)..])
  }

  function Rest(block: seq<Byte>): seq<Byte> {
    if !StartsWithExtension(block) then block else Rest(block[4 + U16(block, 2)..])
  }

  lemma {:induction false} FirstExtensionBytes(block: seq<Byte>)
    requires StartsWithExtension(block)
    ensures Encodable(FirstExtension(block))
    ensures ExtensionBytes(FirstExtension(block)) == block[..4 + U16(block, 2)]
  {
    var n := 4 + U16(block, 2);
    hide U16, U16Bytes, Join;
    U16Cut(block, 0);
    U16Cut(block, 2);
    Cut(block, 2, 4);
    Cut(block, 4, n);
  }

  /** On arbitrary bytes, the extensions read are complete ones, in order, up to a rest that does not
      start with a complete extension. */
  lemma {:induction false} ExtensionsArePrefix(block: seq<Byte>)
    ensures AllEncodable(Extensions(block))
    ensures block == ExtensionsBytes(Extensions(block)) + Rest(block)
    ensures !StartsWithExtension(Rest(block))
  {
    if StartsWithExtension(block) {
      var n := 4 + U16(block, 2);
      var e, es := FirstExtension(block), Extensions(block[n..]);
      FirstExtensionBytes(block);
      ExtensionsArePrefix(block[n..]);
      ExtensionsBytesCons(e, es);
      PrefixGrows(block, n, ExtensionBytes(e), ExtensionsBytes(es), Rest(block[n..]));
    }
  }

  lemma {:induction false} ExtensionsBytesCons(e: Extension, es: seq<Extension>)
    requires Encodable(e) && AllEncodable(es)
    ensures AllEncodable([e] + es)
    ensures ExtensionsBytes([e] + es) == ExtensionBytes(e) + ExtensionsBytes(es)
  {
    assert ([e] + es)[1..] == es;
  }

  lemma {:induction false} PrefixGrows(block: seq<Byte>, n: nat, a: seq<Byte>, b: seq<Byte>, rest: seq<Byte>)
    requires n <= |block| && a == block[..n] && block[n..] == b + rest
    ensures block == a + b + rest
  {
    assert block == block[..n] + block[n..];
  }

  /** And there is no other way to split the block so. */
  lemma {:induction false} ExtensionsAreUnique(es: seq<Extension>, rest: seq<Byte>)
    requires AllEncodable(es) && !StartsWithExtension(rest)
    ensures Extensions(ExtensionsBytes(es) + rest) == es
    ensures Rest(ExtensionsBytes(es) + rest) == rest
  {
    var block := ExtensionsBytes(es) + rest;
    if es == [] {
      assert block == rest;
    } else {
      var e, tail := es[0], ExtensionsBytes(es[1..]) + rest;
      var n := 4 + |e.body|;
      assert block == ExtensionBytes(e) + tail;
      assert U16(block, 0) == e.kind && U16(block, 2) == |e.body|;
      assert block[4..n] == e.body && block[n..] == tail;
      ExtensionsAreUnique(es[1..], rest);
    }
  }

  // ----- What the fingerprint keeps of them -----

  function NonGrease(es: seq<Extension>): seq<Word> {
    if es == [] then []
    else
      var n := |es| - 1;
      NonGrease(es[..n]) + if IsGrease(es[n].kind) then [] else [es[n].kind]
  }

  predicate NamesVersion(e: Extension) {
    e.kind == SUPPORTED_VERSIONS && |e.body| == 2
  }

  /** The version named by the last two-byte supported_versions extension, 0 if there is none. */
  function LastVersion(es: seq<Extension>): Word {
    if es == [] then 0
    else
      var n := |es| - 1;
      if NamesVersion(es[n]) then U16(es[n].body, 0) else LastVersion(es[..n])
  }

  function Reading(f: Frame): Ja4SInput {
    Ja4SInput(false, f.version, LastVersion(Extensions(f.block)), f.cipher, NonGrease(Extensions(f.block)), "")
  }

  /** The frame holds nothing that the parser would keep. */
  predicate SaysNothing(f: Frame) {
    && f.version == 0 && f.cipher == 0
    && (forall e | e in Extensions(f.block) :: IsGrease(e.kind))
    && LastVersion(Extensions(f.block)) == 0
  }

  // ----- The parser -----

  /** The fixed part and the whole announced extension block are there. */
  predicate Framed(b: seq<Byte>) {
    && |b| >= 40
    && var at: int := b[34] as int + 35;
      |b| >= at + 5 && |b| - (at + 5) >= U16(b, at + 3)
  }

  function FrameOf(b: seq<Byte>): Frame
    requires Framed(b)
  {
    var at: int := b[34] as int + 35;
    var end := at + 5 + U16(b, at + 3);
    Frame(U16(b, 0), b[2..34], b[35..at], U16(b, at), b[at + 2], b[at + 5..end], b[end..])
  }

  function Parsed(b: seq<Byte>): Ja4SInput {
    if Framed(b) then Reading(FrameOf(b)) else BLANK
  }

  /** The framed inputs are exactly the encodings of frames, each of one frame only. */
  lemma {:induction false} FramesAreUnique(f: Frame)
    requires ValidFrame(f)
    ensures Framed(FrameBytes(f)) && FrameOf(FrameBytes(f)) == f
  {
    var b := FrameBytes(f);
    var at: int := 35 + |f.session|;
    var end := at + 5 + |f.block|;
    assert b[..2] == U16Bytes(f.version) && b[2..34] == f.random && b[34] == |f.session|;
    assert b[35..at] == f.session;
    assert b[at..at + 2] == U16Bytes(f.cipher) && b[at + 2] == f.compression;
    assert b[at + 3..at + 5] == U16Bytes(|f.block|);
    assert U16(b, 0) == f.version && U16(b, at) == f.cipher && U16(b, at + 3) == |f.block|;
    assert b[at + 5..end] == f.block && b[end..] == f.trailing;
  }

  lemma {:induction false} FramedIsEncoding(b: seq<Byte>)
    requires Framed(b)
    ensures ValidFrame(FrameOf(b)) && FrameBytes(FrameOf(b)) == b
  {
    var at: int := b[34] as int + 35;
    var end := at + 5 + U16(b, at + 3);
    hide Join, U16, U16Bytes;
    U16Cut(b, 0);
    Cut(b, 2, 34);
    Cut(b, 34, 35);
    Cut(b, 35, at);
    U16Cut(b, at);
    Cut(b, at, at + 2);
    Cut(b, at + 2, at + 3);
    U16Cut(b, at + 3);
    Cut(b, at + 3, at + 5);
    Cut(b, at + 5, end);
    Cut(b, end, |b|);
    assert b[34..35] == [b[34]] && b[at + 2..at + 3] == [b[at + 2]] && b[..|b|] == b;
  }

  /** Round trip: whatever the session id, the extensions and the bytes after the block, parsing an
      encoded message gives back its version, its cipher, its non-GREASE extension types in order and
      the version of the last two-byte supported_versions extension. */
  lemma {:induction false} ParseInvertsEncode(f: Frame, es: seq<Extension>)
    requires AllEncodable(es) && f.block == ExtensionsBytes(es) && ValidFrame(f)
    ensures Parsed(FrameBytes(f))
         == Ja4SInput(false, f.version, LastVersion(es), f.cipher, NonGrease(es), "")
  {
    FramesAreUnique(f);
    ExtensionsAreUnique(es, []);
    assert ExtensionsBytes(es) + [] == f.block;
  }

  /** A two-byte supported_versions extension (section 4.2.1 of RFC 8446). */
  predicate Selects(e: Extension) {
    e.kind == 0x002b && |e.body| == 2
  }

  /** The negotiated version is that of the last such extension, in network order, and 0 without one. */
  lemma {:induction false} NegotiatedVersion(f: Frame, es: seq<Extension>)
    requires AllEncodable(es) && f.block == ExtensionsBytes(es) && ValidFrame(f)
    ensures forall k: nat :: LastSelects(es, k) ==>
      Parsed(FrameBytes(f)).negotiatedVersion == es[k].body[0] as int * 256 + es[k].body[1] as int
    ensures (forall j | 0 <= j < |es| :: !Selects(es[j])) ==> Parsed(FrameBytes(f)).negotiatedVersion == 0
  {
    hide Parsed, FrameBytes, ExtensionsBytes;
    ParseInvertsEncode(f, es);
    LastOfSome(es);
  }

  predicate LastSelects(es: seq<Extension>, k: nat) {
    k < |es| && Selects(es[k]) && forall j | k < j < |es| :: !Selects(es[j])
  }

  lemma {:induction false} LastOfSome(es: seq<Extension>)
    ensures forall k: nat :: LastSelects(es, k) ==> LastVersion(es) == Join(es[k].body[0], es[k].body[1])
    ensures (forall j | 0 <= j < |es| :: !Selects(es[j])) ==> LastVersion(es) == 0
    decreases |es|
  {
    hide Join;
    if es != [] {
      var n := |es| - 1;
      LastOfSome(es[..n]);
      forall k: nat | LastSelects(es, k) ensures LastVersion(es) == Join(es[k].body[0], es[k].body[1]) {
        if k < n {
          assert LastSelects(es[..n], k);
        }
      }
      assert (forall j | 0 <= j < |es| :: !Selects(es[j])) ==> forall j | 0 <= j < n :: !Selects(es[..n][j]);
    }
  }

  /** How many of the extensions are kept: those whose type is not one of the 16 reserved values. */
  function KeptOf(es: seq<Extension>): nat {
    if es == [] then 0
    else KeptOf(es[..|es| - 1]) + if Reserved(es[|es| - 1].kind) then 0 else 1
  }

  predicate Reserved(v: Word) {
    v in {0x0a0a, 0x1a1a, 0x2a2a, 0x3a3a, 0x4a4a, 0x5a5a, 0x6a6a, 0x7a7a,
          0x8a8a, 0x9a9a, 0xaaaa, 0xbaba, 0xcaca, 0xdada, 0xeaea, 0xfafa}
  }

  /** The types are those of the kept extensions, each at its place. */
  lemma {:induction false} TypesInOrder(f: Frame, es: seq<Extension>)
    requires AllEncodable(es) && f.block == ExtensionsBytes(es) && ValidFrame(f)
    ensures var types := Parsed(FrameBytes(f)).extensionTypes;
      && |types| == KeptOf(es)
      && forall k | 0 <= k < |es| && !Reserved(es[k].kind) ::
           KeptOf(es[..k]) < |types| && types[KeptOf(es[..k])] == es[k].kind
  {
    hide Parsed, FrameBytes, ExtensionsBytes;
    ParseInvertsEncode(f, es);
    KeptInOrder(es);
  }

  lemma {:induction false} KeptInOrder(es: seq<Extension>)
    ensures var types := NonGrease(es);
      && |types| == KeptOf(es)
      && forall k | 0 <= k < |es| && !Reserved(es[k].kind) ::
           KeptOf(es[..k]) < |types| && types[KeptOf(es[..k])] == es[k].kind
    decreases |es|
  {
    if es != [] {
      var n := |es| - 1;
      var types := NonGrease(es);
      KeptInOrder(es[..n]);
      GreaseValues(es[n].kind);
      hide IsGrease, Reserved;
      forall k | 0 <= k < |es| && !Reserved(es[k].kind)
        ensures KeptOf(es[..k]) < |types| && types[KeptOf(es[..k])] == es[k].kind
      {
        if k < n {
          assert es[..n][k] == es[k] && es[..n][..k] == es[..k];
        }
      }
    }
  }

  /** A message byte for byte: TLS 1.3 with supported_versions and a key share. */
  lemma {:induction false} MinimalHello(random: seq<Byte>)
    requires |random| == 32
    ensures Parsed([3, 3] + random + [0] + [0x13, 0x01] + [0] + [0, 14]
                     + ([0, 0x2b, 0, 2, 3, 4] + [0, 0x33, 0, 4, 0, 29, 0, 1]))
         == Ja4SInput(false, 0x0303, 0x0304, 0x1301, [0x2b, 0x33], "")
  {
    var e0, e1 := Extension(0x2b, [3, 4]), Extension(0x33, [0, 29, 0, 1]);
    var es: seq<Extension> := [e0] + [e1];
    var f := Frame(0x0303, random, [], 0x1301, 0, [0, 0x2b, 0, 2, 3, 4] + [0, 0x33, 0, 4, 0, 29, 0, 1], []);
    TwoExtensions(e0, e1);
    assert ExtensionBytes(e0) == [0, 0x2b, 0, 2, 3, 4] && ExtensionBytes(e1) == [0, 0x33, 0, 4, 0, 29, 0, 1];
    HelloBytes(f);
    hide ExtensionsBytes, ExtensionBytes, Parsed, FrameBytes, NonGrease, LastVersion;
    ParseInvertsEncode(f, es);
  }

  lemma {:induction false} TwoExtensions(e0: Extension, e1: Extension)
    requires Encodable(e0) && Encodable(e1)
    requires e0.kind == 0x2b && |e0.body| == 2 && e1.kind == 0x33
    ensures var es := [e0] + [e1];
      && AllEncodable(es) && ExtensionsBytes(es) == ExtensionBytes(e0) + ExtensionBytes(e1)
      && NonGrease(es) == [0x2b, 0x33] && LastVersion(es) == U16(e0.body, 0)
  {
    hide ExtensionBytes;
    ExtensionsBytesCons(e1, []);
    assert [e1] + [] == [e1] && ExtensionBytes(e1) + [] == ExtensionBytes(e1);
    ExtensionsBytesCons(e0, [e1]);
    OneMore([], e0);
    OneMore([e0], e1);
    assert [] + [e0] == [e0];
  }

  lemma {:induction false} HelloBytes(f: Frame)
    requires f.version == 0x0303 && f.cipher == 0x1301 && f.session == [] && f.trailing == []
    requires |f.random| == 32 && f.compression == 0 && |f.block| == 14
    ensures FrameBytes(f) == [3, 3] + f.random + [0] + [0x13, 0x01] + [0] + [0, 14] + f.block
  {
    assert U16Bytes(0x0303) == [3, 3] && U16Bytes(0x1301) == [0x13, 0x01] && U16Bytes(14) == [0, 14];
  }

  /** On arbitrary bytes: all-empty when no frame encodes to them, and otherwise the reading of the one
      frame that does. The all-empty result is no sure sign of failure: a frame gives it too exactly if
      all it holds is a zero version, a zero cipher, GREASE types and no other version than zero. */
  lemma {:induction false} ParseOfArbitraryBytes(b: seq<Byte>)
    ensures Framed(b) <==> exists f: Frame :: ValidFrame(f) && FrameBytes(f) == b
    ensures forall f: Frame :: ValidFrame(f) && FrameBytes(f) == b ==> Parsed(b) == Reading(f)
    ensures (forall f: Frame :: !(ValidFrame(f) && FrameBytes(f) == b)) ==>
      Parsed(b) == Ja4SInput(false, 0, 0, 0, [], "")
    ensures Parsed(b) == Ja4SInput(false, 0, 0, 0, [], "") <==>
      forall f: Frame :: ValidFrame(f) && FrameBytes(f) == b ==> SaysNothing(f)
  {
    hide Framed, FrameOf, FrameBytes, Reading, SaysNothing;
    if Framed(b) {
      FramedIsEncoding(b);
      BlankReading(FrameOf(b));
    }
    forall f: Frame | ValidFrame(f) && FrameBytes(f) == b ensures Framed(b) && FrameOf(b) == f {
      FramesAreUnique(f);
    }
  }

  lemma {:induction false} BlankReading(f: Frame)
    ensures Reading(f) == BLANK <==> SaysNothing(f)
  {
    hide Extensions, LastVersion;
    OnlyGrease(Extensions(f.block));
  }

  lemma {:induction false} OnlyGrease(es: seq<Extension>)
    ensures NonGrease(es) == [] <==> forall e | e in es :: IsGrease(e.kind)
    decreases |es|
  {
    if es != [] {
      var n := |es| - 1;
      OnlyGrease(es[..n]);
      assert forall e | e in es :: e in es[..n] || e == es[n];
      hide IsGrease;
    }
  }

  /** A ServerHello that ends after the compression method, as TLS 1.2 allows, is not recognised. */
  lemma {:induction false} ExtensionlessHelloIsLost(f: Frame)
    requires ValidFrame(f)
    ensures Parsed(U16Bytes(f.version) + f.random + [|f.session|] + f.session + U16Bytes(f.cipher) + [f.compression])
         == BLANK
  {
    var b := U16Bytes(f.version) + f.random + [|f.session|] + f.session + U16Bytes(f.cipher) + [f.compression];
    assert b[34] == |f.session|;
  }

  /** The parser over its buffer: a moving pointer, a shrinking length, and an offset into the block. */
  method ParseServerHello(data: array?<Byte>, length: nat) returns (input: Ja4SInput)
    requires data != null ==> length <= data.Length
    ensures input == if data == null then BLANK else Parsed(data[..length])
  {
    hide NonGrease, LastVersion, Extensions, Join;
    input := BLANK;
    if data == null || length < 40 {
      return;
    }
    ghost var b := data[..length];
    var p, len := 0, length;
    input := input.(legacyVersion := Join(data[p], data[p + 1]));
    p, len := p + 2, len - 2;
    p, len := p + 32, len - 32;
    var sessionLength := data[p];
    p, len := p + 1, len - 1;
    if len < sessionLength {
      return BLANK;
    }
    p, len := p + sessionLength, len - sessionLength;
    if len < 2 {
      return BLANK;
    }
    input := input.(cipherId := Join(data[p], data[p + 1]));
    p, len := p + 2, len - 2;
    if len < 1 {
      return BLANK;
    }
    p, len := p + 1, len - 1;
    if len < 2 {
      return BLANK;
    }
    var total: Word := Join(data[p], data[p + 1]);
    p, len := p + 2, len - 2;
    if len < total {
      return BLANK;
    }

    assert Framed(b) && FrameOf(b).block == b[p..p + total];
    var kinds, version := ReadExtensions(data, length, p, total);
    input := input.(extensionTypes := kinds, negotiatedVersion := version);
  }

  /** The extension at an offset into the block, or that there is none. */
  lemma {:induction false} ExtensionAt(block: seq<Byte>, off: nat, size: nat)
    requires off + 4 <= |block| && size == Join(block[off + 2], block[off + 3])
    ensures StartsWithExtension(block[off..]) <==> off + 4 + size <= |block|
    ensures off + 4 + size <= |block| ==>
      FirstExtension(block[off..]) == Extension(Join(block[off], block[off + 1]), block[off + 4..off + 4 + size])
    ensures off + 4 + size <= |block| ==>
      Extensions(block[off..]) == [FirstExtension(block[off..])] + Extensions(block[off + 4 + size..])
  {
    assert U16(block[off..], 2) == size;
    if off + 4 + size <= |block| {
      assert block[off..][4 + size..] == block[off + 4 + size..];
      assert block[off..][4..4 + size] == block[off + 4..off + 4 + size];
    }
  }

  lemma {:induction false} OneMore(done: seq<Extension>, e: Extension)
    ensures NonGrease(done + [e]) == NonGrease(done) + if IsGrease(e.kind) then [] else [e.kind]
    ensures LastVersion(done + [e]) == if NamesVersion(e) then U16(e.body, 0) else LastVersion(done)
  {
    assert (done + [e])[..|done|] == done;
  }

  /** What one round of the loop adds to the extensions already done. */
  lemma {:induction false} OneRound(block: seq<Byte>, off: nat, kind: Word, size: nat, done: seq<Extension>)
    returns (more: seq<Extension>)
    requires off + 4 + size <= |block|
    requires kind == Join(block[off], block[off + 1]) && size == Join(block[off + 2], block[off + 3])
    requires Extensions(block) == done + Extensions(block[off..])
    ensures Extensions(block) == more + Extensions(block[off + 4 + size..])
    ensures NonGrease(more) == NonGrease(done) + if IsGrease(kind) then [] else [kind]
    ensures LastVersion(more) == if kind == SUPPORTED_VERSIONS && size == 2 then Join(block[off + 4], block[off + 5])
                                 else LastVersion(done)
  {
    hide Join, IsGrease, Extensions, StartsWithExtension, FirstExtension, NonGrease, LastVersion;
    ExtensionAt(block, off, size);
    var e := Extension(kind, block[off + 4..off + 4 + size]);
    OneMore(done, e);
    more := done + [e];
    assert more + Extensions(block[off + 4 + size..]) == done + ([e] + Extensions(block[off + 4 + size..]));
  }

  /** The loop over the extension block: only the announced bytes are looked at. */
  method ReadExtensions(data: array<Byte>, length: nat, p: nat, total: nat)
    returns (kinds: seq<Word>, version: Word)
    requires p + total <= length <= data.Length
    ensures kinds == NonGrease(Extensions(data[..length][p..p + total]))
    ensures version == LastVersion(Extensions(data[..length][p..p + total]))
  {
    hide Join, IsGrease, Extensions, StartsWithExtension, FirstExtension, NonGrease, LastVersion;
    ghost var block := data[..length][p..p + total];
    ghost var done := NothingDone(block);
    var off := 0;
    kinds, version := [], 0;
    while off + 4 <= total
      invariant off <= total
      invariant Extensions(block) == done + Extensions(block[off..])
      invariant kinds == NonGrease(done) && version == LastVersion(done)
      decreases total - off
    {
      var kind: Word := Join(data[p + off], data[p + off + 1]);
      var size: Word := Join(data[p + off + 2], data[p + off + 3]);
      if off + 4 + size > total {
        break;
      }
      done := OneRound(block, off, kind, size, done);
      if !IsGrease(kind) {
        kinds := kinds + [kind];
      }
      if kind == 0x002b && size == 2 {
        version := Join(data[p + off + 4], data[p + off + 5]);
      }
      off := off + 4 + size;
    }
    NoneLeft(block, off);
    assert done + [] == done;
  }

  lemma {:induction false} NothingDone(block: seq<Byte>) returns (done: seq<Extension>)
    ensures Extensions(block) == done + Extensions(block[0..])
    ensures NonGrease(done) == [] && LastVersion(done) == 0
  {
    done := [];
    assert block[0..] == block;
  }

  lemma {:induction false} NoneLeft(block: seq<Byte>, off: nat)
    requires off <= |block| < off + 4 || (off + 4 <= |block| < off + 4 + Join(block[off + 2], block[off + 3]))
    ensures Extensions(block[off..]) == []
  {
    if off + 4 <= |block| {
      ExtensionAt(block, off, Join(block[off + 2], block[off + 3]));
    }
  }
}
