/** Which TCP payloads the native engine hands to the TLS detectors. */
module TlsPrefilter {
  import opened Prelude

  /** A heartbeat record, or a handshake record that carries a ClientHello. */
  predicate Interesting(payload: seq<Byte>) {
    || (|payload| >= 1 && payload[0] == 24)
    || (|payload| >= 6 && payload[0] == 22 && payload[5] == 1)
  }
}

/** JA3 fingerprinting of a ClientHello, over one captured TCP payload. */
module ClientHello {
  import opened Prelude
  import opened PythonBytes

  const HANDSHAKE := 22
  const CLIENT_HELLO := 1
  const RANDOM_LEN := 32
  const SUPPORTED_GROUPS := 10
  const EC_POINT_FORMATS := 11

  /** The five JA3 fields, GREASE already removed. */
  datatype Fingerprint = Fingerprint(
    version: nat,
    ciphers: seq<nat>,
    extensions: seq<nat>,
    curves: seq<nat>,
    formats: seq<nat>)

  /** Both bytes equal, ending in the nibble 0xA (RFC 8701). */
  predicate IsGrease(value: nat) {
    value / 256 == value % 256 && value % 256 % 16 == 10
  }

  function WithoutGrease(values: seq<nat>): seq<nat> {
    if values == [] then []
    else if IsGrease(values[0]) then WithoutGrease(values[1..])
    else [values[0]] + WithoutGrease(values[1..])
  }

  function Uint16List(data: seq<Byte>): seq<nat> {
    if |data| % 2 != 0 then [] else Pairs(data)
  }

  function Pairs(data: seq<Byte>): seq<nat>
    requires |data| % 2 == 0
  {
    if data == [] then [] else [UnpackH(data[..2])] + Pairs(data[2..])
  }

  // ------------------------------------------------------------ the extension walk

  datatype Extension = Extension(kind: nat, data: seq<Byte>)

  /** The type-length-value entries of an extensions block; the last value may be cut short. */
  function Walk(block: seq<Byte>): seq<Extension>
    decreases |block|, 1
  {
    if |block| < 4 then [] else WalkFirst(block)
  }

  function WalkFirst(block: seq<Byte>): seq<Extension>
    requires |block| >= 4
    decreases |block|, 0
  {
    var length := UnpackH(block[2..4]);
    [Extension(UnpackH(block[..2]), Slice(block, 4, 4 + length))] + Walk(Slice(block, 4 + length, |block|))
  }

  function Kinds(exts: seq<Extension>): seq<nat> {
    if exts == [] then [] else Kinds(exts[..|exts| - 1]) + [exts[|exts| - 1].kind]
  }

  /** The curve list after one more extension: a readable supported_groups replaces it. */
  function CurvesAfter(before: seq<nat>, e: Extension): seq<nat> {
    if e.kind == SUPPORTED_GROUPS && |e.data| >= 2
    then Uint16List(Slice(e.data, 2, 2 + UnpackH(e.data[..2]))) else before
  }

  function FormatsAfter(before: seq<nat>, e: Extension): seq<nat> {
    if e.kind == EC_POINT_FORMATS && |e.data| >= 1 then AsNats(Slice(e.data, 1, 1 + e.data[0] as nat)) else before
  }

  function Curves(exts: seq<Extension>): seq<nat> {
    if exts == [] then [] else CurvesAfter(Curves(exts[..|exts| - 1]), exts[|exts| - 1])
  }

  function Formats(exts: seq<Extension>): seq<nat> {
    if exts == [] then [] else FormatsAfter(Formats(exts[..|exts| - 1]), exts[|exts| - 1])
  }

  function AsNats(data: seq<Byte>): seq<nat> {
    if data == [] then [] else [data[0] as nat] + AsNats(data[1..])
  }

  function ExtensionBlock(remainder: seq<Byte>): seq<Byte> {
    if |remainder| < 2 then [] else Slice(remainder, 2, 2 + UnpackH(remainder[..2]))
  }

  /** The loop of the source: one pass that appends types and overwrites the two lists. */
  method ParseExtensions(remainder: seq<Byte>) returns (types: seq<nat>, curves: seq<nat>, formats: seq<nat>)
    ensures types == Kinds(Walk(ExtensionBlock(remainder)))
    ensures curves == Curves(Walk(ExtensionBlock(remainder)))
    ensures formats == Formats(Walk(ExtensionBlock(remainder)))
  {
    types, curves, formats := [], [], [];
    if |remainder| < 2 {
      return;
    }
    var block := Slice(remainder, 2, 2 + UnpackH(remainder[..2]));
    ghost var seen: seq<Extension> := [];
    var offset := 0;
    assert Slice(block, 0, |block|) == block;
    while offset + 4 <= |block|
      invariant seen + Walk(Slice(block, offset, |block|)) == Walk(block)
      invariant types == Kinds(seen) && curves == Curves(seen) && formats == Formats(seen)
      decreases |block| - offset
    {
      ghost var e;
      offset, types, curves, formats, e := ReadExtension(block, offset, types, curves, formats, seen);
      seen := seen + [e];
    }
    WalkEnd(block, offset);
    assert seen + [] == seen;
  }

  /** Reads the extension at `offset` into the three lists. */
  method ReadExtension(
    block: seq<Byte>, offset: nat, types: seq<nat>, curves: seq<nat>, formats: seq<nat>, ghost seen: seq<Extension>)
    returns (next: nat, types': seq<nat>, curves': seq<nat>, formats': seq<nat>, ghost e: Extension)
    requires offset + 4 <= |block| && types == Kinds(seen) && curves == Curves(seen) && formats == Formats(seen)
    ensures next > offset
    ensures seen + Walk(Slice(block, offset, |block|)) == (seen + [e]) + Walk(Slice(block, next, |block|))
    ensures types' == Kinds(seen + [e]) && curves' == Curves(seen + [e]) && formats' == Formats(seen + [e])
  {
    WalkStep(block, offset);
    var kind := UnpackH(Slice(block, offset, offset + 2));
    var length := UnpackH(Slice(block, offset + 2, offset + 4));
    var data := Slice(block, offset + 4, offset + 4 + length);
    e := Extension(kind, data);
    next := offset + 4 + length;
    Append(seen, e, Walk(Slice(block, next, |block|)));
    types' := types + [kind];
    curves', formats' := Overwrite(kind, data, curves, formats);
  }

  method Overwrite(
    kind: nat, data: seq<Byte>, curves: seq<nat>, formats: seq<nat>) returns (curves': seq<nat>, formats': seq<nat>)
    ensures curves' == CurvesAfter(curves, Extension(kind, data))
    ensures formats' == FormatsAfter(formats, Extension(kind, data))
  {
    curves', formats' := curves, formats;
    if kind == SUPPORTED_GROUPS && |data| >= 2 {
      curves' := Uint16List(Slice(data, 2, 2 + UnpackH(data[..2])));
    } else if kind == EC_POINT_FORMATS && |data| >= 1 {
      formats' := AsNats(Slice(data, 1, 1 + data[0] as nat));
    }
  }

  lemma WalkEnd(block: seq<Byte>, offset: nat)
    requires offset + 4 > |block|
    ensures Walk(Slice(block, offset, |block|)) == []
  {
  }

  lemma WalkStep(block: seq<Byte>, offset: nat)
    requires offset + 4 <= |block|
    ensures |Slice(block, offset, offset + 2)| == 2 && |Slice(block, offset + 2, offset + 4)| == 2
    ensures
      var length := UnpackH(Slice(block, offset + 2, offset + 4));
      Walk(Slice(block, offset, |block|)) ==
      [Extension(UnpackH(Slice(block, offset, offset + 2)), Slice(block, offset + 4, offset + 4 + length))]
      + Walk(Slice(block, offset + 4 + length, |block|))
  {
    var rest := block[offset..];
    var length := UnpackH(block[offset + 2..offset + 4]);
    assert Slice(block, offset, |block|) == rest;
    assert rest[..2] == block[offset..offset + 2] && rest[2..4] == block[offset + 2..offset + 4];
    DataOfRest(block, offset, length);
    TailOfRest(block, offset, length);
    assert Walk(rest) == WalkFirst(rest);
  }

  lemma DataOfRest(block: seq<Byte>, offset: nat, length: nat)
    requires offset + 4 <= |block|
    ensures Slice(block[offset..], 4, 4 + length) == Slice(block, offset + 4, offset + 4 + length)
  {
    if offset + 4 + length <= |block| {
      assert block[offset..][4..4 + length] == block[offset + 4..offset + 4 + length];
    } else {
      assert block[offset..][4..] == block[offset + 4..];
    }
  }

  lemma TailOfRest(block: seq<Byte>, offset: nat, length: nat)
    requires offset + 4 <= |block|
    ensures Slice(block[offset..], 4 + length, |block| - offset) == Slice(block, offset + 4 + length, |block|)
  {
    if offset + 4 + length <= |block| {
      assert block[offset..][4 + length..] == block[offset + 4 + length..];
    }
  }

  lemma Append(seen: seq<Extension>, e: Extension, rest: seq<Extension>)
    ensures seen + ([e] + rest) == (seen + [e]) + rest
    ensures Kinds(seen + [e]) == Kinds(seen) + [e.kind]
    ensures Curves(seen + [e]) == CurvesAfter(Curves(seen), e)
    ensures Formats(seen + [e]) == FormatsAfter(Formats(seen), e)
  {
    assert (seen + [e])[..|seen|] == seen;
  }

  // ------------------------------------------------------------- the whole parser

  /** The handshake body, or None when the payload is not a ClientHello record. */
  function HelloBody(payload: seq<Byte>): Option<seq<Byte>> {
    if |payload| < 5 || payload[0] != HANDSHAKE then None
    else
      var fragment := Slice(payload, 5, 5 + UnpackH(payload[3..5]));
      if |fragment| < 4 || fragment[0] != CLIENT_HELLO then None
      else Some(Slice(fragment, 4, 4 + fragment[1] as nat * 0x1_0000 + UnpackH(fragment[2..4])))
  }

  /** The parts of a body that JA3 reads: version, cipher suite bytes and extensions block. */
  datatype Parts = Parts(version: nat, ciphers: seq<Byte>, block: seq<Byte>)

  function ReadParts(body: seq<Byte>): Option<Parts> {
    if |body| < 2 then None
    else
      var version := UnpackH(body[..2]);
      var sessionAt := 2 + RANDOM_LEN;
      if |body| < sessionAt + 1 then None
      else
        var ciphersAt := sessionAt + 1 + body[sessionAt] as nat;
        if |body| < ciphersAt + 2 then None
        else
          var ciphersLength := UnpackH(body[ciphersAt..ciphersAt + 2]);
          var ciphers := Slice(body, ciphersAt + 2, ciphersAt + 2 + ciphersLength);
          var compressionAt := ciphersAt + 2 + ciphersLength;
          if |body| < compressionAt + 1 then None
          else
            var extensionsAt := compressionAt + 1 + body[compressionAt] as nat;
            Some(Parts(version, ciphers, ExtensionBlock(Slice(body, extensionsAt, |body|))))
  }

  function FromParts(p: Parts): Fingerprint {
    var exts := Walk(p.block);
    Fingerprint(p.version, WithoutGrease(Uint16List(p.ciphers)), WithoutGrease(Kinds(exts)),
                WithoutGrease(Curves(exts)), Formats(exts))
  }

  function ComputeJa3(payload: seq<Byte>): Option<string> {
    match HelloBody(payload)
    case None => None
    case Some(body) =>
      match ReadParts(body)
      case None => None
      case Some(parts) => Some(Render(FromParts(parts)))
  }

  // ---------------------------------------------------------------- the JA3 string

  function Digit(n: nat): char
    requires n < 10
  {
    '0' + n as char
  }

  /** `str(n)`. */
  function Decimal(n: nat): string {
    if n < 10 then [Digit(n)] else Decimal(n / 10) + [Digit(n % 10)]
  }

  function Join(parts: seq<string>, separator: char): string {
    if parts == [] then ""
    else if |parts| == 1 then parts[0]
    else parts[0] + [separator] + Join(parts[1..], separator)
  }

  function Decimals(values: seq<nat>): seq<string> {
    if values == [] then [] else [Decimal(values[0])] + Decimals(values[1..])
  }

  function Render(f: Fingerprint): string {
    Join([Decimal(f.version), Join(Decimals(f.ciphers), '-'), Join(Decimals(f.extensions), '-'),
          Join(Decimals(f.curves), '-'), Join(Decimals(f.formats), '-')], ',')
  }

  // ---------------------------------------------------------------- serialisation

  datatype HelloExtension =
    | Groups(groups: seq<nat>)
    | PointFormats(formats: seq<Byte>)
    | Opaque(kind: nat, data: seq<Byte>)

  /** A ClientHello as section 4.1.2 of RFC 8446 structures it. */
  datatype Hello = Hello(
    version: nat,
    random: seq<Byte>,
    sessionId: seq<Byte>,
    ciphers: seq<nat>,
    compressions: seq<Byte>,
    extensions: Option<seq<HelloExtension>>)
  {
    /** The extensions, none when the optional block is absent. */
    function Exts(): seq<HelloExtension> {
      if extensions.Some? then extensions.value else []
    }
  }

  predicate Words(values: seq<nat>) {
    forall i :: 0 <= i < |values| ==> values[i] < 0x1_0000
  }

  function PutWords(values: seq<nat>): (r: seq<Byte>)
    requires Words(values)
    ensures |r| == 2 * |values|
  {
    if values == [] then [] else PackH(values[0]) + PutWords(values[1..])
  }

  predicate ExtensionFits(e: HelloExtension) {
    match e
    case Groups(groups) => Words(groups) && 2 + 2 * |groups| < 0x1_0000
    case PointFormats(formats) => |formats| < 256
    case Opaque(kind, data) =>
      kind < 0x1_0000 && kind != 10 && kind != 11 && |data| < 0x1_0000
  }

  function KindOf(e: HelloExtension): nat {
    match e
    case Groups(_) => 10
    case PointFormats(_) => 11
    case Opaque(kind, _) => kind
  }

  function Payload(e: HelloExtension): seq<Byte>
    requires ExtensionFits(e)
  {
    match e
    case Groups(groups) => PackH(2 * |groups|) + PutWords(groups)
    case PointFormats(formats) => [|formats|] + formats
    case Opaque(_, data) => data
  }

  predicate AllFit(exts: seq<HelloExtension>) {
    forall i :: 0 <= i < |exts| ==> ExtensionFits(exts[i])
  }

  function PutExtension(e: HelloExtension): seq<Byte>
    requires ExtensionFits(e)
  {
    PackH(KindOf(e)) + PackH(|Payload(e)|) + Payload(e)
  }

  function PutExtensions(exts: seq<HelloExtension>): seq<Byte>
    requires AllFit(exts)
  {
    if exts == [] then [] else PutExtension(exts[0]) + PutExtensions(exts[1..])
  }

  predicate HelloFits(h: Hello) {
    && h.version < 0x1_0000 && |h.random| == 32 && |h.sessionId| < 256
    && Words(h.ciphers) && 2 * |h.ciphers| < 0x1_0000 && |h.compressions| < 256
    && AllFit(h.Exts()) && |PutExtensions(h.Exts())| < 0x1_0000
    && |PutBody(h)| + 4 < 0x1_0000
  }

  /** A ClientHello whose every length fits its field, in one record. */
  type WireHello = h: Hello | HelloFits(h) witness Hello(0, seq(32, _ => 0), [], [], [], None)

  // The body is written field after field; each function below ends where the next field starts.

  function PutRandom(h: Hello): seq<Byte>
    requires h.version < 0x1_0000
  {
    PackH(h.version) + h.random
  }

  function PutSession(h: Hello): seq<Byte>
    requires h.version < 0x1_0000 && |h.sessionId| < 256
  {
    PutRandom(h) + ([|h.sessionId|] + h.sessionId)
  }

  function PutCiphers(h: Hello): seq<Byte>
    requires h.version < 0x1_0000 && |h.sessionId| < 256 && Words(h.ciphers) && 2 * |h.ciphers| < 0x1_0000
  {
    PutSession(h) + (PackH(2 * |h.ciphers|) + PutWords(h.ciphers))
  }

  function PutCompressions(h: Hello): seq<Byte>
    requires h.version < 0x1_0000 && |h.sessionId| < 256 && Words(h.ciphers) && 2 * |h.ciphers| < 0x1_0000
    requires |h.compressions| < 256
  {
    PutCiphers(h) + ([|h.compressions|] + h.compressions)
  }

  /** The optional extensions block with its length. */
  function PutTail(h: Hello): seq<Byte>
    requires AllFit(h.Exts()) && |PutExtensions(h.Exts())| < 0x1_0000
  {
    if h.extensions.None? then [] else PackH(|PutExtensions(h.Exts())|) + PutExtensions(h.Exts())
  }

  function PutBody(h: Hello): seq<Byte>
    requires h.version < 0x1_0000 && |h.sessionId| < 256 && Words(h.ciphers) && 2 * |h.ciphers| < 0x1_0000
    requires |h.compressions| < 256
    requires AllFit(h.Exts()) && |PutExtensions(h.Exts())| < 0x1_0000
  {
    PutCompressions(h) + PutTail(h)
  }

  /** The handshake message: type, three-byte length, body. */
  function PutMessage(h: WireHello): seq<Byte>
  {
    ([1, 0] + PackH(|PutBody(h)|)) + PutBody(h)
  }

  /** One TLS record holding the whole ClientHello. */
  function PutRecord(h: WireHello, recordVersion: nat): seq<Byte>
    requires recordVersion < 0x1_0000
  {
    ([22] + PackH(recordVersion) + PackH(|PutMessage(h)|)) + PutMessage(h)
  }

  /** The last supported_groups list, GREASE included. */
  function GroupsOf(exts: seq<HelloExtension>): seq<nat> {
    if exts == [] then []
    else match exts[|exts| - 1]
      case Groups(groups) => groups
      case _ => GroupsOf(exts[..|exts| - 1])
  }

  function FormatsOf(exts: seq<HelloExtension>): seq<nat> {
    if exts == [] then []
    else match exts[|exts| - 1]
      case PointFormats(formats) => AsNats(formats)
      case _ => FormatsOf(exts[..|exts| - 1])
  }

  function KindsOf(exts: seq<HelloExtension>): seq<nat> {
    if exts == [] then [] else KindsOf(exts[..|exts| - 1]) + [KindOf(exts[|exts| - 1])]
  }

  /** The sixteen GREASE values of section 2 of RFC 8701. */
  const GREASE: set<nat> := {
    0x0A0A, 0x1A1A, 0x2A2A, 0x3A3A, 0x4A4A, 0x5A5A, 0x6A6A, 0x7A7A,
    0x8A8A, 0x9A9A, 0xAAAA, 0xBABA, 0xCACA, 0xDADA, 0xEAEA, 0xFAFA}

  /** The values that are none of them, in order. */
  function Ungreased(values: seq<nat>): seq<nat> {
    if values == [] then []
    else Ungreased(values[..|values| - 1]) + if values[|values| - 1] in GREASE then [] else [values[|values| - 1]]
  }

  /** What JA3 reads off a ClientHello, by its definition. */
  function FingerprintOf(h: Hello): Fingerprint {
    Fingerprint(h.version, Ungreased(h.ciphers), Ungreased(KindsOf(h.Exts())), Ungreased(GroupsOf(h.Exts())),
                FormatsOf(h.Exts()))
  }

  // ------------------------------------------------------------------- round trip

  /** What is read inside a prefix is what was written there. */
  lemma PrefixRead(p: seq<Byte>, s: seq<Byte>, lo: nat, hi: nat)
    requires p <= s && lo <= hi <= |p|
    ensures s[lo..hi] == p[lo..hi] && Slice(s, lo, hi) == p[lo..hi]
  {
  }

  lemma TailRead(a: seq<Byte>, b: seq<Byte>)
    ensures (a + b)[|a|..] == b && Slice(a + b, |a|, |a| + |b|) == b
  {
  }

  lemma {:induction false} PairsOfWords(values: seq<nat>)
    requires Words(values)
    ensures Uint16List(PutWords(values)) == values
  {
    if values != [] {
      PairsOfWords(values[1..]);
      var data := PutWords(values);
      assert data[..2] == PackH(values[0]) && data[2..] == PutWords(values[1..]);
    }
  }

  function ToExtension(e: HelloExtension): Extension
    requires ExtensionFits(e)
  {
    Extension(KindOf(e), Payload(e))
  }

  function ToExtensions(exts: seq<HelloExtension>): seq<Extension>
    requires AllFit(exts)
  {
    if exts == [] then [] else [ToExtension(exts[0])] + ToExtensions(exts[1..])
  }

  lemma {:induction false} WalkOfPut(exts: seq<HelloExtension>)
    requires AllFit(exts)
    ensures Walk(PutExtensions(exts)) == ToExtensions(exts)
  {
    if exts != [] {
      WalkOfPut(exts[1..]);
      var e := exts[0];
      var rest, data := PutExtensions(exts[1..]), Payload(e);
      var block := PutExtensions(exts);
      assert block[..2] == PackH(KindOf(e)) && block[2..4] == PackH(|data|);
      assert Slice(block, 4, 4 + |data|) == data;
      assert Slice(block, 4 + |data|, |block|) == rest;
      assert Walk(block) == WalkFirst(block);
    }
  }

  lemma ToExtensionsLast(exts: seq<HelloExtension>, e: HelloExtension)
    requires AllFit(exts) && ExtensionFits(e)
    ensures AllFit(exts + [e]) && ToExtensions(exts + [e]) == ToExtensions(exts) + [ToExtension(e)]
  {
    if exts != [] {
      ToExtensionsLast(exts[1..], e);
      assert (exts + [e])[1..] == exts[1..] + [e];
    }
  }

  lemma GroupsPayload(groups: seq<nat>)
    requires ExtensionFits(Groups(groups))
    ensures
      var data := Payload(Groups(groups));
      |data| >= 2 && Uint16List(Slice(data, 2, 2 + UnpackH(data[..2]))) == groups
  {
    var data := Payload(Groups(groups));
    assert data[..2] == PackH(2 * |groups|);
    assert Slice(data, 2, 2 + 2 * |groups|) == PutWords(groups);
    PairsOfWords(groups);
  }

  lemma FormatsPayload(formats: seq<Byte>)
    requires |formats| < 256
    ensures
      var data := Payload(PointFormats(formats));
      |data| >= 1 && AsNats(Slice(data, 1, 1 + data[0] as nat)) == AsNats(formats)
  {
    assert Slice(Payload(PointFormats(formats)), 1, 1 + |formats|) == formats;
  }

  /** What one serialised extension does to the two lists. */
  lemma AfterPut(e: HelloExtension, curves: seq<nat>, formats: seq<nat>)
    requires ExtensionFits(e)
    ensures CurvesAfter(curves, ToExtension(e)) == if e.Groups? then e.groups else curves
    ensures FormatsAfter(formats, ToExtension(e)) == if e.PointFormats? then AsNats(e.formats) else formats
  {
    if e.Groups? {
      GroupsPayload(e.groups);
    } else if e.PointFormats? {
      FormatsPayload(e.formats);
    }
  }

  lemma {:induction false} ListsOfPut(exts: seq<HelloExtension>)
    requires AllFit(exts)
    ensures Kinds(ToExtensions(exts)) == KindsOf(exts)
    ensures Curves(ToExtensions(exts)) == GroupsOf(exts)
    ensures Formats(ToExtensions(exts)) == FormatsOf(exts)
  {
    if exts != [] {
      var rest, e := exts[..|exts| - 1], exts[|exts| - 1];
      assert exts == rest + [e];
      ListsOfPut(rest);
      assert ToExtensions(exts) == ToExtensions(rest) + [ToExtension(e)] by {
        ToExtensionsLast(rest, e);
      }
      Append(ToExtensions(rest), ToExtension(e), []);
      AfterPut(e, GroupsOf(rest), FormatsOf(rest));
    }
  }

  /** `ReadParts` on a body whose fields lie where the lengths say. */
  lemma PartsAt(body: seq<Byte>, parts: Parts, session: nat, compressions: nat, ciphersAt: nat, compressionAt: nat)
    requires ciphersAt == 2 + RANDOM_LEN + 1 + session && compressionAt == ciphersAt + 2 + |parts.ciphers|
    requires compressionAt + 1 + compressions <= |body|
    requires UnpackH(body[..2]) == parts.version && body[2 + RANDOM_LEN] == session
    requires UnpackH(body[ciphersAt..ciphersAt + 2]) == |parts.ciphers|
    requires Slice(body, ciphersAt + 2, compressionAt) == parts.ciphers && body[compressionAt] == compressions
    requires ExtensionBlock(Slice(body, compressionAt + 1 + compressions, |body|)) == parts.block
    ensures ReadParts(body) == Some(parts)
  {
  }

  lemma Positions(h: WireHello)
    ensures |PutSession(h)| == 2 + RANDOM_LEN + 1 + |h.sessionId|
    ensures |PutCiphers(h)| == |PutSession(h)| + 2 + 2 * |h.ciphers|
    ensures |PutCompressions(h)| == |PutCiphers(h)| + 1 + |h.compressions|
    ensures |PutCompressions(h)| <= |PutBody(h)|
  {
  }

  lemma PrefixesOfBody(h: WireHello)
    ensures PutRandom(h) <= PutBody(h) && PutSession(h) <= PutBody(h)
    ensures PutCiphers(h) <= PutBody(h) && PutCompressions(h) <= PutBody(h)
  {
    assert PutRandom(h) <= PutSession(h) <= PutCiphers(h) <= PutCompressions(h) <= PutBody(h);
  }

  lemma CiphersWritten(h: WireHello)
    ensures
      var p, at := PutCiphers(h), |PutSession(h)|;
      && |p| >= at + 2 && p[at..at + 2] == PackH(2 * |h.ciphers|) && p[at + 2..|p|] == PutWords(h.ciphers)
  {
    TailRead(PutSession(h), PackH(2 * |h.ciphers|) + PutWords(h.ciphers));
    var p, at := PutCiphers(h), |PutSession(h)|;
    assert p[at..][..2] == p[at..at + 2] && p[at..][2..] == p[at + 2..];
  }

  lemma CiphersInBody(h: WireHello)
    ensures
      var body, ciphersAt, compressionAt := PutBody(h), |PutSession(h)|, |PutCiphers(h)|;
      && ciphersAt + 2 <= compressionAt <= |body|
      && UnpackH(body[ciphersAt..ciphersAt + 2]) == 2 * |h.ciphers|
      && Slice(body, ciphersAt + 2, compressionAt) == PutWords(h.ciphers)
  {
    var body, ciphersAt, compressionAt := PutBody(h), |PutSession(h)|, |PutCiphers(h)|;
    PrefixesOfBody(h);
    CiphersWritten(h);
    PrefixRead(PutCiphers(h), body, ciphersAt, ciphersAt + 2);
    PrefixRead(PutCiphers(h), body, ciphersAt + 2, compressionAt);
  }

  lemma CompressionsInBody(h: WireHello)
    ensures |PutCiphers(h)| < |PutBody(h)| && PutBody(h)[|PutCiphers(h)|] == |h.compressions|
  {
    PrefixesOfBody(h);
    assert PutBody(h)[|PutCiphers(h)|] == PutCompressions(h)[|PutCiphers(h)|];
  }

  lemma HeadInBody(h: WireHello)
    ensures |PutBody(h)| > 2 + RANDOM_LEN
    ensures UnpackH(PutBody(h)[..2]) == h.version && PutBody(h)[2 + RANDOM_LEN] == |h.sessionId|
  {
    PrefixesOfBody(h);
    PrefixRead(PutRandom(h), PutBody(h), 0, 2);
    assert PutRandom(h)[0..2] == PackH(h.version) && PutBody(h)[..2] == PutBody(h)[0..2];
    assert PutBody(h)[2 + RANDOM_LEN] == PutSession(h)[2 + RANDOM_LEN];
  }

  lemma TailBlock(h: WireHello)
    ensures ExtensionBlock(PutTail(h)) == PutExtensions(h.Exts())
  {
    if h.extensions.Some? {
      var exts := PutExtensions(h.Exts());
      TailRead(PackH(|exts|), exts);
      assert PutTail(h)[..2] == PackH(|exts|);
    }
  }

  lemma ExtensionsInBody(h: WireHello)
    ensures ExtensionBlock(Slice(PutBody(h), |PutCompressions(h)|, |PutBody(h)|)) == PutExtensions(h.Exts())
  {
    TailRead(PutCompressions(h), PutTail(h));
    TailBlock(h);
  }

  lemma PartsOfBody(h: WireHello)
    ensures ReadParts(PutBody(h)) == Some(Parts(h.version, PutWords(h.ciphers), PutExtensions(h.Exts())))
  {
    HeadInBody(h);
    CiphersInBody(h);
    CompressionsInBody(h);
    ExtensionsInBody(h);
    Positions(h);
    PartsAt(PutBody(h), Parts(h.version, PutWords(h.ciphers), PutExtensions(h.Exts())),
            |h.sessionId|, |h.compressions|, |PutSession(h)|, |PutCiphers(h)|);
  }

  /** The test on the two bytes finds exactly the sixteen values. */
  lemma GreaseIsListed(v: nat)
    ensures IsGrease(v) <==> v in GREASE
  {
    if IsGrease(v) {
      var nibble := v % 256 / 16;
      assert v == 257 * (16 * nibble + 10) && nibble < 16;
    }
  }

  /** The filter drops exactly those and keeps every other value, in order. */
  lemma {:induction false} GreaseFilterExact(values: seq<nat>)
    ensures WithoutGrease(values) == Ungreased(values)
  {
    if values != [] {
      var rest, v := values[..|values| - 1], values[|values| - 1];
      GreaseFilterExact(rest);
      GreaseIsListed(v);
      WithoutGreaseLast(rest, v);
      assert values == rest + [v];
    }
  }

  lemma FieldsOfParts(h: WireHello)
    ensures FromParts(Parts(h.version, PutWords(h.ciphers), PutExtensions(h.Exts()))) == FingerprintOf(h)
  {
    PairsOfWords(h.ciphers);
    WalkOfPut(h.Exts());
    ListsOfPut(h.Exts());
    GreaseFilterExact(h.ciphers);
    GreaseFilterExact(KindsOf(h.Exts()));
    GreaseFilterExact(GroupsOf(h.Exts()));
  }

  lemma BodyOfRecord(h: WireHello, recordVersion: nat, suffix: seq<Byte>)
    requires recordVersion < 0x1_0000
    ensures HelloBody(PutRecord(h, recordVersion) + suffix) == Some(PutBody(h))
  {
    var body, message := PutBody(h), PutMessage(h);
    var header := [HANDSHAKE] + PackH(recordVersion) + PackH(|message|);
    var payload := PutRecord(h, recordVersion) + suffix;
    assert header <= payload && header + message <= payload;
    PrefixRead(header, payload, 3, 5);
    assert header[3..5] == PackH(|message|);
    PrefixRead(header + message, payload, 5, 5 + |message|);
    TailRead(header, message);
    var lead := [CLIENT_HELLO, 0] + PackH(|body|);
    assert lead <= message;
    PrefixRead(lead, message, 2, 4);
    assert lead[2..4] == PackH(|body|);
    TailRead(lead, body);
  }

  /** The JA3 string of a serialised ClientHello, whatever follows it in the segment, is its GREASE-free field lists. */
  lemma Ja3OfHello(h: WireHello, recordVersion: nat, suffix: seq<Byte>)
    requires recordVersion < 0x1_0000
    ensures ComputeJa3(PutRecord(h, recordVersion) + suffix) == Some(Render(FingerprintOf(h)))
  {
    BodyOfRecord(h, recordVersion, suffix);
    PartsOfBody(h);
    FieldsOfParts(h);
  }

  lemma {:induction false} WithoutGreaseConcat(a: seq<nat>, b: seq<nat>)
    ensures WithoutGrease(a + b) == WithoutGrease(a) + WithoutGrease(b)
  {
    if a == [] {
      assert a + b == b;
    } else {
      assert (a + b)[1..] == a[1..] + b;
      WithoutGreaseConcat(a[1..], b);
    }
  }

  lemma {:induction false} AllGrease(grease: seq<nat>)
    requires forall g :: g in grease ==> IsGrease(g)
    ensures WithoutGrease(grease) == []
  {
    if grease != [] {
      assert grease[0] in grease && forall g :: g in grease[1..] ==> g in grease;
      AllGrease(grease[1..]);
    }
  }

  /** GREASE values inserted anywhere leave a list's GREASE-free form unchanged. */
  lemma GreaseVanishes(before: seq<nat>, grease: seq<nat>, after: seq<nat>)
    requires forall g :: g in grease ==> g in GREASE
    ensures Ungreased(before + grease + after) == Ungreased(before + after)
  {
    GreaseFilterExact(before + grease + after);
    GreaseFilterExact(before + after);
    forall g | g in grease ensures IsGrease(g) {
      GreaseIsListed(g);
    }
    WithoutGreaseConcat(before + grease, after);
    WithoutGreaseConcat(before, grease);
    WithoutGreaseConcat(before, after);
    AllGrease(grease);
    assert WithoutGrease(before) + [] == WithoutGrease(before);
  }

  /** One fingerprint, written out. */
  lemma RenderExample()
    ensures Render(Fingerprint(7, [1, 2], [3, 4], [], [0])) == "7,1-2,3-4,,0"
  {
    ListOfTwo(1, 2);
    ListOfTwo(3, 4);
    var fields := FieldTexts(Fingerprint(7, [1, 2], [3, 4], [], [0]));
    assert fields[4] == "0" by {
      assert Decimals([0]) == ["0"];
    }
    assert fields == ["7", "1-2", "3-4", "", "0"];
    JoinFive("7", "1-2", "3-4", "", "0", ',');
  }

  lemma JoinFive(a: string, b: string, c: string, d: string, e: string, separator: char)
    ensures Join([a, b, c, d, e], separator)
         == a + [separator] + (b + [separator] + (c + [separator] + (d + [separator] + e)))
  {
    assert [a, b, c, d, e][1..] == [b, c, d, e] && [b, c, d, e][1..] == [c, d, e];
    assert [c, d, e][1..] == [d, e] && [d, e][1..] == [e];
    assert Join([d, e], separator) == d + [separator] + e;
    assert Join([c, d, e], separator) == c + [separator] + Join([d, e], separator);
    assert Join([b, c, d, e], separator) == b + [separator] + Join([c, d, e], separator);
  }

  lemma ListOfTwo(a: nat, b: nat)
    requires a < 10 && b < 10
    ensures Join(Decimals([a, b]), '-') == [Digit(a), '-', Digit(b)]
  {
    assert [a, b][1..] == [b];
    assert Decimals([b]) == [[Digit(b)]];
    var texts := Decimals([a, b]);
    assert texts == [[Digit(a)], [Digit(b)]] && texts[1..] == [[Digit(b)]];
  }

  // ---------------------------------------------------------- GREASE does not show

  function StripExtensions(exts: seq<HelloExtension>): seq<HelloExtension> {
    if exts == [] then []
    else
      var rest, e := StripExtensions(exts[..|exts| - 1]), exts[|exts| - 1];
      match e
      case Groups(groups) => rest + [Groups(Ungreased(groups))]
      case PointFormats(_) => rest + [e]
      case Opaque(kind, _) => if kind in GREASE then rest else rest + [e]
  }

  /** The same ClientHello without GREASE cipher suites, extensions and groups. */
  function Strip(h: Hello): Hello {
    h.(ciphers := Ungreased(h.ciphers),
       extensions := if h.extensions.None? then None else Some(StripExtensions(h.Exts())))
  }

  lemma WithoutGreaseLast(values: seq<nat>, v: nat)
    ensures WithoutGrease(values + [v]) == WithoutGrease(values) + if IsGrease(v) then [] else [v]
  {
    WithoutGreaseConcat(values, [v]);
  }

  lemma UngreasedLast(values: seq<nat>, v: nat)
    ensures Ungreased(values + [v]) == Ungreased(values) + if v in GREASE then [] else [v]
  {
    assert (values + [v])[..|values|] == values;
  }

  lemma {:induction false} UngreasedTwice(values: seq<nat>)
    ensures Ungreased(Ungreased(values)) == Ungreased(values)
  {
    if values != [] {
      var rest, v := values[..|values| - 1], values[|values| - 1];
      UngreasedTwice(rest);
      UngreasedLast(Ungreased(rest), v);
      assert Ungreased(values) == if v in GREASE then Ungreased(rest) else Ungreased(rest) + [v];
    }
  }

  lemma {:induction false} StripLists(exts: seq<HelloExtension>)
    ensures Ungreased(KindsOf(StripExtensions(exts))) == Ungreased(KindsOf(exts))
    ensures Ungreased(GroupsOf(StripExtensions(exts))) == Ungreased(GroupsOf(exts))
    ensures FormatsOf(StripExtensions(exts)) == FormatsOf(exts)
  {
    if exts != [] {
      var before, e := exts[..|exts| - 1], exts[|exts| - 1];
      var rest, all := StripExtensions(before), StripExtensions(exts);
      StripLists(before);
      UngreasedLast(KindsOf(before), KindOf(e));
      UngreasedLast(KindsOf(rest), KindOf(e));
      assert all != rest ==> all[..|all| - 1] == rest;
      if e.Groups? {
        UngreasedTwice(e.groups);
      }
    }
  }

  /** JA3 sees only the GREASE-free ClientHello: two that differ in GREASE alone have one fingerprint. */
  lemma GreaseInvariant(h: Hello, h': Hello)
    requires Strip(h) == Strip(h')
    ensures FingerprintOf(h) == FingerprintOf(h') == FingerprintOf(Strip(h))
  {
    StripLists(h.Exts());
    StripLists(h'.Exts());
    UngreasedTwice(h.ciphers);
    UngreasedTwice(h'.ciphers);
  }

  /**
   On bytes: two serialised hellos, whatever record version they carry and whatever follows them, have one JA3
   string exactly when their fingerprints agree.
   */
  lemma Ja3IsTheFingerprint(
    h: WireHello, version: nat, suffix: seq<Byte>, h': WireHello, version': nat, suffix': seq<Byte>)
    requires version < 0x1_0000 && version' < 0x1_0000
    ensures ComputeJa3(PutRecord(h, version) + suffix) == ComputeJa3(PutRecord(h', version') + suffix')
            <==> FingerprintOf(h) == FingerprintOf(h')
  {
    Ja3OfHello(h, version, suffix);
    Ja3OfHello(h', version', suffix');
    RenderInjective(FingerprintOf(h), FingerprintOf(h'));
  }

  /** So GREASE alone never changes the JA3 string of a record. */
  lemma GreaseLeavesJa3(h: WireHello, version: nat, suffix: seq<Byte>, h': WireHello, version': nat, suffix': seq<Byte>)
    requires version < 0x1_0000 && version' < 0x1_0000 && Strip(h) == Strip(h')
    ensures ComputeJa3(PutRecord(h, version) + suffix) == ComputeJa3(PutRecord(h', version') + suffix')
  {
    GreaseInvariant(h, h');
    Ja3IsTheFingerprint(h, version, suffix, h', version', suffix');
  }

  // ---------------------------------------------- the string determines the fields

  predicate Digits(s: string) {
    s != [] && forall i :: 0 <= i < |s| ==> '0' <= s[i] <= '9'
  }

  function Value(s: string): nat
    requires forall i :: 0 <= i < |s| ==> '0' <= s[i] <= '9'
  {
    if s == [] then 0 else Value(s[..|s| - 1]) * 10 + (s[|s| - 1] - '0') as nat
  }

  lemma {:induction false} DecimalValue(n: nat)
    ensures Digits(Decimal(n)) && Value(Decimal(n)) == n
  {
    if n >= 10 {
      DecimalValue(n / 10);
      assert Decimal(n)[..|Decimal(n)| - 1] == Decimal(n / 10);
    } else {
      assert Decimal(n)[..0] == [];
    }
  }

  predicate Free(s: string, c: char) {
    forall i :: 0 <= i < |s| ==> s[i] != c
  }

  /** The text before the first separator; all of it when there is none. */
  function Head(s: string, separator: char): string {
    if s == [] || s[0] == separator then [] else [s[0]] + Head(s[1..], separator)
  }

  lemma {:induction false} HeadOfJoin(first: string, rest: string, separator: char)
    requires Free(first, separator)
    ensures Head(first + [separator] + rest, separator) == first
    ensures Head(first, separator) == first
  {
    if first != [] {
      HeadOfJoin(first[1..], rest, separator);
      assert (first + [separator] + rest)[1..] == first[1..] + [separator] + rest;
    }
  }

  predicate AllNonEmpty(parts: seq<string>) {
    forall i :: 0 <= i < |parts| ==> parts[i] != []
  }

  lemma {:induction false} JoinInjective(a: seq<string>, b: seq<string>, separator: char)
    requires forall i :: 0 <= i < |a| ==> Free(a[i], separator)
    requires forall i :: 0 <= i < |b| ==> Free(b[i], separator)
    requires |a| == |b| || (AllNonEmpty(a) && AllNonEmpty(b))
    requires Join(a, separator) == Join(b, separator)
    ensures a == b
    decreases |a|
  {
    if |a| == |b| == 0 {
    } else if a == [] || b == [] {
      JoinEmpty(a, separator);
      JoinEmpty(b, separator);
    } else {
      HeadOfJoin(a[0], Join(a[1..], separator), separator);
      HeadOfJoin(b[0], Join(b[1..], separator), separator);
      var n := |a[0]|;
      var ja, jb := Join(a, separator), Join(b, separator);
      assert a[0] == b[0];
      if |a| > 1 && |b| > 1 {
        assert ja[n + 1..] == Join(a[1..], separator) && jb[n + 1..] == Join(b[1..], separator);
        JoinInjective(a[1..], b[1..], separator);
        assert a == [a[0]] + a[1..] && b == [b[0]] + b[1..];
      } else {
        assert |a| > 1 ==> |ja| > n;
        assert |b| > 1 ==> |jb| > n;
        assert a == [a[0]] && b == [b[0]];
      }
    }
  }

  lemma JoinEmpty(parts: seq<string>, separator: char)
    requires AllNonEmpty(parts)
    ensures Join(parts, separator) == [] <==> parts == []
  {
  }

  lemma {:induction false} DecimalsInjective(a: seq<nat>, b: seq<nat>)
    requires Decimals(a) == Decimals(b)
    ensures a == b
  {
    if a != [] && b != [] {
      DecimalValue(a[0]);
      DecimalValue(b[0]);
      assert Decimals(a)[1..] == Decimals(a[1..]) && Decimals(b)[1..] == Decimals(b[1..]);
      DecimalsInjective(a[1..], b[1..]);
      assert a == [a[0]] + a[1..] && b == [b[0]] + b[1..];
    }
  }

  lemma {:induction false} DecimalsAreDigits(values: seq<nat>)
    ensures |Decimals(values)| == |values|
    ensures forall i :: 0 <= i < |values| ==> Digits(Decimals(values)[i])
  {
    if values != [] {
      DecimalsAreDigits(values[1..]);
      DecimalValue(values[0]);
    }
  }

  lemma {:induction false} JoinFree(parts: seq<string>, separator: char, c: char)
    requires c != separator && forall i :: 0 <= i < |parts| ==> Free(parts[i], c)
    ensures Free(Join(parts, separator), c)
  {
    if |parts| > 1 {
      JoinFree(parts[1..], separator, c);
    }
  }

  lemma ListTextFree(values: seq<nat>)
    ensures Free(Join(Decimals(values), '-'), ',')
  {
    DecimalsAreDigits(values);
    JoinFree(Decimals(values), '-', ',');
  }

  lemma ListTextInjective(a: seq<nat>, b: seq<nat>)
    requires Join(Decimals(a), '-') == Join(Decimals(b), '-')
    ensures a == b
  {
    DecimalsAreDigits(a);
    DecimalsAreDigits(b);
    JoinInjective(Decimals(a), Decimals(b), '-');
    DecimalsInjective(a, b);
  }

  function FieldTexts(f: Fingerprint): seq<string> {
    [Decimal(f.version), Join(Decimals(f.ciphers), '-'), Join(Decimals(f.extensions), '-'),
     Join(Decimals(f.curves), '-'), Join(Decimals(f.formats), '-')]
  }

  lemma FieldTextsFree(f: Fingerprint)
    ensures forall i :: 0 <= i < 5 ==> Free(FieldTexts(f)[i], ',')
  {
    DecimalValue(f.version);
    ListTextFree(f.ciphers);
    ListTextFree(f.extensions);
    ListTextFree(f.curves);
    ListTextFree(f.formats);
  }

  /** Two JA3 strings are equal exactly when all five fields are. */
  lemma RenderInjective(f: Fingerprint, g: Fingerprint)
    ensures Render(f) == Render(g) <==> f == g
  {
    if Render(f) == Render(g) {
      FieldTextsFree(f);
      FieldTextsFree(g);
      JoinInjective(FieldTexts(f), FieldTexts(g), ',');
      var a, b := FieldTexts(f), FieldTexts(g);
      assert a[0] == b[0] && a[1] == b[1] && a[2] == b[2] && a[3] == b[3] && a[4] == b[4];
      DecimalValue(f.version);
      DecimalValue(g.version);
      ListTextInjective(f.ciphers, g.ciphers);
      ListTextInjective(f.extensions, g.extensions);
      ListTextInjective(f.curves, g.curves);
      ListTextInjective(f.formats, g.formats);
    }
  }
}

/** The Heartbleed length check on one TLS record. */
module Heartbeat {
  import opened Prelude
  import opened PythonBytes
  import ClientHello
  import TlsPrefilter

  datatype Match = Match(claimed: nat, available: nat)

  const HEARTBEAT := 24
  const MAX_RECORD_LENGTH := 16384 + 256

  function CheckHeartbleed(payload: seq<Byte>): Option<Match> {
    if |payload| < 5 then None
    else if payload[0] != HEARTBEAT then None
    else if !(0x0300 <= UnpackH(payload[1..3]) <= 0x0304) then None
    else
      var declared := UnpackH(payload[3..5]);
      if declared < 3 || declared > MAX_RECORD_LENGTH then None
      else if |payload| < 5 + declared then None
      else
        var fragment := payload[5..5 + declared];
        if fragment[0] != 1 && fragment[0] != 2 then None
        else
          var claimed := UnpackH(fragment[1..3]);
          var available := declared - 3;
          if claimed > available then Some(Match(claimed, available)) else None
  }

  /** A heartbeat record with any claimed payload length over `content` (payload and padding together). */
  function PutHeartbeat(version: nat, kind: Byte, claimed: nat, content: seq<Byte>): seq<Byte>
    requires version < 0x1_0000 && claimed < 0x1_0000 && |content| + 3 < 0x1_0000
  {
    [24] + PackH(version) + PackH(|content| + 3) + [kind] + PackH(claimed) + content
  }

  /** A complete, legal heartbeat record is reported exactly when it claims more bytes than it carries. */
  lemma HeartbeatVerdict(version: nat, kind: Byte, claimed: nat, content: seq<Byte>, suffix: seq<Byte>)
    requires 0x0300 <= version <= 0x0304 && (kind == 1 || kind == 2)
    requires claimed < 0x1_0000 && |content| + 3 <= 16640
    ensures CheckHeartbleed(PutHeartbeat(version, kind, claimed, content) + suffix) ==
            if claimed > |content| then Some(Match(claimed, |content|)) else None
  {
    var payload := PutHeartbeat(version, kind, claimed, content) + suffix;
    assert payload[1..3] == PackH(version);
    assert payload[3..5] == PackH(|content| + 3);
    var fragment := payload[5..5 + |content| + 3];
    assert payload[5] == kind && payload[6..8] == PackH(claimed);
    assert fragment[0] == payload[5] && fragment[1..3] == payload[6..8];
  }

  /** Nothing else is reported: every match is such a record, cut nowhere, that claims more than it carries. */
  lemma OnlyOverclaims(payload: seq<Byte>) returns (version: nat, kind: Byte, content: seq<Byte>, suffix: seq<Byte>)
    requires CheckHeartbleed(payload).Some?
    ensures 0x0300 <= version <= 0x0304 && (kind == 1 || kind == 2) && |content| + 3 <= 16640
    ensures
      var m := CheckHeartbleed(payload).value;
      && m.available == |content| < m.claimed < 0x1_0000
      && payload == PutHeartbeat(version, kind, m.claimed, content) + suffix
  {
    var declared := UnpackH(payload[3..5]);
    version, kind := UnpackH(payload[1..3]), payload[5];
    content, suffix := payload[8..5 + declared], payload[5 + declared..];
    var fragment := payload[5..5 + declared];
    assert fragment[0] == kind && fragment[1..3] == payload[6..8];
    assert PackH(version) == payload[1..3] && PackH(declared) == payload[3..5];
    assert PackH(UnpackH(payload[6..8])) == payload[6..8];
  }

  /** The prefilter takes heartbeat records and handshake records that start a ClientHello, and nothing else. */
  lemma PrefilterExact(payload: seq<Byte>)
    ensures TlsPrefilter.Interesting(payload)
            <==> [24] <= payload || exists a: Byte, b: Byte, c: Byte, d: Byte :: [22, a, b, c, d, 1] <= payload
  {
    if |payload| >= 6 && payload[0] == 22 && payload[5] == 1 {
      assert [22, payload[1], payload[2], payload[3], payload[4], 1] <= payload;
    }
  }

  /** The native prefilter drops no payload on which either detector would answer. */
  lemma PrefilterLosesNothing(payload: seq<Byte>)
    requires !TlsPrefilter.Interesting(payload)
    ensures ClientHello.ComputeJa3(payload) == None && CheckHeartbleed(payload) == None
  {
    if |payload| >= 5 && payload[0] == ClientHello.HANDSHAKE {
      var fragment := Slice(payload, 5, 5 + UnpackH(payload[3..5]));
      assert fragment != [] ==> fragment[0] == payload[5];
    }
  }
}
