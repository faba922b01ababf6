/** Classic pcap files (sections 4 and 5 of draft-ietf-opsawg-pcap): writing, reading, and cutting them short. */
module Pcap {
  import opened Prelude
  import opened Fields

  const MAGIC_US := 0xA1B2C3D4
  const MAGIC_NS := 0xA1B23C4D
  const PCAPNG_SHB := 0x0A0D0D0A
  const LINKTYPE_ETHERNET := 1
  const MAX_RECORD_BYTES := 0x4_0000

  /** One captured frame as the reader returns it. */
  datatype Record = Record(data: seq<Byte>, tsUs: int, originalLength: nat)

  /** How a file ended: after a whole record, inside one, or with a length no record can have. */
  datatype End = Complete | TruncatedTail | Corrupt

  datatype Outcome = Outcome(records: seq<Record>, skipped: nat, end: End)

  datatype FileOutcome =
    | NotACapture
    | PcapNg
    | TruncatedHeader
    | Contents(linkType: nat, outcome: Outcome)

  // ------------------------------------------------------------------------- writing

  /** What a caller hands to `write`: bytes, microseconds, and nanoseconds below that. */
  datatype Frame = Frame(data: seq<Byte>, tsUs: int, nsRemainder: int)

  datatype Format = Format(nanosecond: bool, snaplen: nat, big: bool)

  predicate Writable(f: Frame) {
    && 0 <= f.tsUs && f.tsUs / 1_000_000 < U32
    && 0 <= f.nsRemainder < 1000
    && |f.data| < U32
  }

  function Captured(f: Frame, snaplen: nat): seq<Byte> {
    f.data[..Min(snaplen, |f.data|)]
  }

  function Fraction(f: Frame, nanosecond: bool): nat
    requires Writable(f)
  {
    var micros := f.tsUs % 1_000_000;
    if nanosecond then micros * 1000 + f.nsRemainder else micros
  }

  function RecordHeader(f: Frame, fmt: Format): (h: seq<Byte>)
    requires Writable(f)
    ensures |h| == 16
  {
    Put32(f.tsUs / 1_000_000, fmt.big) + Put32(Fraction(f, fmt.nanosecond), fmt.big)
    + Put32(|Captured(f, fmt.snaplen)|, fmt.big) + Put32(|f.data|, fmt.big)
  }

  function RecordBytes(f: Frame, fmt: Format): seq<Byte>
    requires Writable(f)
  {
    RecordHeader(f, fmt) + Captured(f, fmt.snaplen)
  }

  predicate AllWritable(frames: seq<Frame>) {
    forall i :: 0 <= i < |frames| ==> Writable(frames[i])
  }

  function Body(frames: seq<Frame>, fmt: Format): seq<Byte>
    requires AllWritable(frames)
  {
    if frames == [] then [] else RecordBytes(frames[0], fmt) + Body(frames[1..], fmt)
  }

  /** Magic, version 2.4, zone, accuracy, snaplen and link type. */
  function FileHeader(fmt: Format): (h: seq<Byte>)
    requires fmt.snaplen < U32
    ensures |h| == 24
  {
    Put32(if fmt.nanosecond then MAGIC_NS else MAGIC_US, fmt.big)
    + (if fmt.big then [0, 2, 0, 4] else [2, 0, 4, 0])
    + Put32(0, fmt.big) + Put32(0, fmt.big) + Put32(fmt.snaplen, fmt.big) + Put32(LINKTYPE_ETHERNET, fmt.big)
  }

  class PcapWriter {
    var stream: seq<Byte>
    const fmt: Format
    ghost var written: seq<Frame>

    ghost predicate Valid()
      reads this
    {
      && 0 < fmt.snaplen < U32 && !fmt.big
      && AllWritable(written)
      && stream == FileHeader(fmt) + Body(written, fmt)
    }

    constructor (nanosecond: bool, snaplen: nat)
      requires 0 < snaplen < U32
      ensures Valid() && fmt == Format(nanosecond, snaplen, false) && written == []
    {
      fmt := Format(nanosecond, snaplen, false);
      stream := FileHeader(Format(nanosecond, snaplen, false));
      written := [];
    }

    /** Append one frame. False, with nothing written, where the source raises. */
    method Write(data: seq<Byte>, tsUs: int, nsRemainder: int) returns (ok: bool)
      requires Valid()
      modifies this
      ensures Valid()
      ensures ok <==> Writable(Frame(data, tsUs, nsRemainder))
      ensures written == if ok then old(written) + [Frame(data, tsUs, nsRemainder)] else old(written)
    {
      var f := Frame(data, tsUs, nsRemainder);
      if tsUs < 0 || nsRemainder < 0 || nsRemainder >= 1000 {
        return false;
      }
      if tsUs / 1_000_000 >= U32 || |data| >= U32 {
        return false;
      }
      Extend(written, f, fmt);
      stream := stream + RecordHeader(f, fmt);
      stream := stream + Captured(f, fmt.snaplen);
      written := written + [f];
      ok := true;
    }
  }

  lemma Extend(frames: seq<Frame>, f: Frame, fmt: Format)
    requires AllWritable(frames) && Writable(f) && fmt.snaplen < U32
    ensures AllWritable(frames + [f])
    ensures FileHeader(fmt) + Body(frames, fmt) + RecordHeader(f, fmt) + Captured(f, fmt.snaplen)
            == FileHeader(fmt) + Body(frames + [f], fmt)
  {
    BodyLast(frames, f, fmt);
  }

  lemma {:induction false} BodyLast(frames: seq<Frame>, f: Frame, fmt: Format)
    requires AllWritable(frames) && Writable(f)
    ensures AllWritable(frames + [f]) && Body(frames + [f], fmt) == Body(frames, fmt) + RecordBytes(f, fmt)
  {
    var last := RecordBytes(f, fmt);
    if frames == [] {
      assert frames + [f] == [f] && [f][1..] == [];
      assert Body([f], fmt) == last + Body([], fmt) == last == [] + last;
    } else {
      var first, middle := RecordBytes(frames[0], fmt), Body(frames[1..], fmt);
      BodyLast(frames[1..], f, fmt);
      assert (frames + [f])[0] == frames[0] && (frames + [f])[1..] == frames[1..] + [f];
      assert Body(frames + [f], fmt) == first + (middle + last);
      Associate(first, middle, last);
    }
  }

  lemma Associate(a: seq<Byte>, b: seq<Byte>, c: seq<Byte>)
    ensures a + (b + c) == a + b + c
  {
  }

  // ------------------------------------------------------------------------- reading

  /** Ticks of the file's resolution as whole microseconds, floored. */
  function FloorToUs(units: nat, nanosecond: bool): nat {
    if nanosecond then units * 1_000_000 / 1_000_000_000 else units * 1_000_000 / 1_000_000
  }

  datatype Layout = Layout(big: bool, nanosecond: bool, ethernet: bool)

  function ReadOne(s: seq<Byte>, layout: Layout): Record
    requires |s| >= 16 && |s| >= 16 + Get32(s, 8, layout.big)
  {
    Record(s[16..16 + Get32(s, 8, layout.big)],
           Get32(s, 0, layout.big) * 1_000_000 + FloorToUs(Get32(s, 4, layout.big), layout.nanosecond),
           Get32(s, 12, layout.big))
  }

  /** The records of what follows the file header. */
  function ReadBody(s: seq<Byte>, layout: Layout): Outcome
    decreases |s|, 1
  {
    var end := EndOf(s, layout);
    if end.Some? then Outcome([], 0, end.value) else ReadFirst(s, layout)
  }

  /** A whole record, and what follows it. */
  function ReadFirst(s: seq<Byte>, layout: Layout): Outcome
    requires EndOf(s, layout).None?
    decreases |s|, 0
  {
    var rest := ReadBody(s[16 + Get32(s, 8, layout.big)..], layout);
    if layout.ethernet then rest.(records := [ReadOne(s, layout)] + rest.records)
    else rest.(skipped := rest.skipped + 1)
  }

  /** How reading stops here, if it does. */
  function EndOf(s: seq<Byte>, layout: Layout): Option<End> {
    if s == [] then Some(Complete)
    else if |s| < 16 then Some(TruncatedTail)
    else if Get32(s, 8, layout.big) > MAX_RECORD_BYTES then Some(Corrupt)
    else if |s| < 16 + Get32(s, 8, layout.big) then Some(TruncatedTail)
    else None
  }

  /** The reader's counters after a file. */
  datatype Report = Report(records: seq<Record>, skippedNonEthernet: nat, truncatedTail: bool)

  function ReportOf(o: Outcome): Report {
    Report(o.records, o.skipped, o.end.TruncatedTail?)
  }

  /** The reader's statistics, a record list, and how far the stream was read. */
  class PcapReader {
    var records: seq<Record>
    var skippedNonEthernet: nat
    var truncatedTail: bool

    constructor ()
      ensures Stats() == Report([], 0, false)
    {
      records, skippedNonEthernet, truncatedTail := [], 0, false;
    }

    ghost function Stats(): Report
      reads this
    {
      Report(records, skippedNonEthernet, truncatedTail)
    }

    /** The record loop over the rest of the stream; false where the source raises. */
    method ReadRecords(stream: seq<Byte>, layout: Layout) returns (ok: bool)
      requires Stats() == Report([], 0, false)
      modifies this
      ensures Stats() == ReportOf(ReadBody(stream, layout))
      ensures ok <==> !ReadBody(stream, layout).end.Corrupt?
    {
      var at := 0;
      ghost var whole := ReadBody(stream, layout);
      assert stream[0..] == stream;
      while true
        invariant 0 <= at <= |stream| && !truncatedTail
        invariant whole == After(records, skippedNonEthernet, ReadBody(stream[at..], layout))
        decreases |stream| - at
      {
        var end := EndOf(stream[at..], layout);
        assert records + [] == records;
        if end.Some? {
          truncatedTail := end.value.TruncatedTail?;
          return !end.value.Corrupt?;
        }
        at := ReadRecord(stream, at, layout);
      }
    }

    /** Takes one whole record off the front. */
    method ReadRecord(stream: seq<Byte>, at: nat, layout: Layout) returns (next: nat)
      requires at <= |stream| && EndOf(stream[at..], layout).None?
      modifies this`records, this`skippedNonEthernet
      ensures at < next <= |stream|
      ensures After(records, skippedNonEthernet, ReadBody(stream[next..], layout))
           == After(old(records), old(skippedNonEthernet), ReadBody(stream[at..], layout))
    {
      var rest := stream[at..];
      var captured := Get32(rest, 8, layout.big);
      ReadStep(rest, layout, records, skippedNonEthernet);
      next := at + 16 + captured;
      assert stream[next..] == rest[16 + captured..];
      if !layout.ethernet {
        skippedNonEthernet := skippedNonEthernet + 1;
      } else {
        records := records + [ReadOne(rest, layout)];
      }
    }
  }

  /** An outcome preceded by records already returned or skipped. */
  function After(records: seq<Record>, skipped: nat, rest: Outcome): Outcome {
    Outcome(records + rest.records, skipped + rest.skipped, rest.end)
  }

  lemma ReadStep(s: seq<Byte>, layout: Layout, records: seq<Record>, skipped: nat)
    requires |s| >= 16
    requires Get32(s, 8, layout.big) <= MAX_RECORD_BYTES && |s| >= 16 + Get32(s, 8, layout.big)
    ensures
      var rest := ReadBody(s[16 + Get32(s, 8, layout.big)..], layout);
      After(records, skipped, ReadBody(s, layout)) ==
      if layout.ethernet then After(records + [ReadOne(s, layout)], skipped, rest)
      else After(records, skipped + 1, rest)
  {
    var one, rest := ReadOne(s, layout), ReadBody(s[16 + Get32(s, 8, layout.big)..], layout);
    assert ReadBody(s, layout) == ReadFirst(s, layout);
    Regroup(records, one, rest.records);
  }

  lemma Regroup(a: seq<Record>, x: Record, b: seq<Record>)
    ensures a + ([x] + b) == a + [x] + b
  {
  }

  /** Byte order and whether stamps are in nanoseconds, from the magic number; little endian tried first. */
  function Magic(s: seq<Byte>): Option<(bool, bool)>
    requires |s| >= 4
  {
    if Get32(s, 0, false) == MAGIC_US then Some((false, false))
    else if Get32(s, 0, false) == MAGIC_NS then Some((false, true))
    else if Get32(s, 0, true) == MAGIC_US then Some((true, false))
    else if Get32(s, 0, true) == MAGIC_NS then Some((true, true))
    else None
  }

  function ReadFile(s: seq<Byte>): FileOutcome {
    if |s| < 4 then NotACapture
    else if Get32(s, 0, false) == PCAPNG_SHB then PcapNg
    else
      match Magic(s)
      case None => NotACapture
      case Some((big, nanosecond)) =>
        if |s| < 24 then TruncatedHeader
        else
          var linkType := Get32(s, 20, big) % 0x1_0000;
          Contents(linkType, ReadBody(s[24..], Layout(big, nanosecond, linkType == LINKTYPE_ETHERNET)))
  }

  // ---------------------------------------------------------------------- round trip

  /** What reading a written frame should return. */
  function Expected(f: Frame, snaplen: nat): Record {
    Record(Captured(f, snaplen), f.tsUs, |f.data|)
  }

  function AllExpected(frames: seq<Frame>, snaplen: nat): seq<Record> {
    if frames == [] then [] else [Expected(frames[0], snaplen)] + AllExpected(frames[1..], snaplen)
  }

  function LayoutOf(fmt: Format): Layout {
    Layout(fmt.big, fmt.nanosecond, true)
  }

  /** A record the reader does not take for corruption. */
  predicate Small(f: Frame, snaplen: nat) {
    |Captured(f, snaplen)| <= MAX_RECORD_BYTES
  }

  predicate AllSmall(frames: seq<Frame>, snaplen: nat) {
    forall i :: 0 <= i < |frames| ==> Small(frames[i], snaplen)
  }

  lemma StampRoundTrip(f: Frame, nanosecond: bool)
    requires Writable(f)
    ensures Fraction(f, nanosecond) < U32
    ensures f.tsUs / 1_000_000 * 1_000_000 + FloorToUs(Fraction(f, nanosecond), nanosecond) == f.tsUs
  {
    var micros := f.tsUs % 1_000_000;
    assert (micros * 1000 + f.nsRemainder) * 1_000_000 / 1_000_000_000 == micros;
  }

  lemma HeaderFields(f: Frame, fmt: Format, rest: seq<Byte>)
    requires Writable(f)
    ensures
      var s := RecordHeader(f, fmt) + rest;
      && Get32(s, 0, fmt.big) == f.tsUs / 1_000_000 && Get32(s, 4, fmt.big) == Fraction(f, fmt.nanosecond)
      && Get32(s, 8, fmt.big) == |Captured(f, fmt.snaplen)| && Get32(s, 12, fmt.big) == |f.data|
  {
    var seconds, fraction, captured := f.tsUs / 1_000_000, Fraction(f, fmt.nanosecond), |Captured(f, fmt.snaplen)|;
    FourWords(seconds, fraction, captured, |f.data|, fmt.big, rest);
  }

  lemma FourWords(a: nat, b: nat, c: nat, d: nat, big: bool, rest: seq<Byte>)
    requires a < U32 && b < U32 && c < U32 && d < U32
    ensures
      var s := Put32(a, big) + Put32(b, big) + Put32(c, big) + Put32(d, big) + rest;
      && Get32(s, 0, big) == a && Get32(s, 4, big) == b && Get32(s, 8, big) == c && Get32(s, 12, big) == d
  {
    var s := Put32(a, big) + Put32(b, big) + Put32(c, big) + Put32(d, big) + rest;
    WordRead(s, 0, a, big);
    WordRead(s, 4, b, big);
    WordRead(s, 8, c, big);
    WordRead(s, 12, d, big);
  }

  lemma OneRecord(f: Frame, fmt: Format, rest: seq<Byte>)
    requires Writable(f)
    ensures
      var s, r := RecordBytes(f, fmt) + rest, ReadBody(rest, LayoutOf(fmt));
      ReadBody(s, LayoutOf(fmt)) ==
      if Small(f, fmt.snaplen) then r.(records := [Expected(f, fmt.snaplen)] + r.records) else Outcome([], 0, Corrupt)
  {
    var captured := Captured(f, fmt.snaplen);
    var s := RecordBytes(f, fmt) + rest;
    assert s == RecordHeader(f, fmt) + (captured + rest);
    HeaderFields(f, fmt, captured + rest);
    StampRoundTrip(f, fmt.nanosecond);
    assert s[16..16 + |captured|] == captured && s[16 + |captured|..] == rest;
    OneRead(s, LayoutOf(fmt), |captured|, Expected(f, fmt.snaplen), rest);
  }

  lemma OneRead(s: seq<Byte>, layout: Layout, captured: nat, one: Record, rest: seq<Byte>)
    requires |s| >= 16 + captured && Get32(s, 8, layout.big) == captured && layout.ethernet
    requires ReadOne(s, layout) == one && s[16 + captured..] == rest
    ensures
      var r := ReadBody(rest, layout);
      ReadBody(s, layout) ==
      if captured <= MAX_RECORD_BYTES then r.(records := [one] + r.records) else Outcome([], 0, Corrupt)
  {
    if captured <= MAX_RECORD_BYTES {
      assert ReadBody(s, layout) == ReadFirst(s, layout);
    }
  }

  /** Reading back a body: every frame, if and only if no captured record exceeds the reader's limit. */
  lemma {:induction false} BodyRoundTrip(frames: seq<Frame>, fmt: Format)
    requires AllWritable(frames)
    ensures ReadBody(Body(frames, fmt), LayoutOf(fmt)) == Outcome(AllExpected(frames, fmt.snaplen), 0, Complete)
            <==> AllSmall(frames, fmt.snaplen)
    ensures ReadBody(Body(frames, fmt), LayoutOf(fmt)).end
         == if AllSmall(frames, fmt.snaplen) then Complete else Corrupt
  {
    if frames != [] {
      BodyRoundTrip(frames[1..], fmt);
      OneRecord(frames[0], fmt, Body(frames[1..], fmt));
      assert AllSmall(frames, fmt.snaplen) <==> Small(frames[0], fmt.snaplen) && AllSmall(frames[1..], fmt.snaplen);
    }
  }

  lemma MagicOf(fmt: Format, rest: seq<Byte>)
    requires fmt.snaplen < U32
    ensures
      var s := FileHeader(fmt) + rest;
      && Get32(s, 0, false) != PCAPNG_SHB && Magic(s) == Some((fmt.big, fmt.nanosecond))
      && Get32(s, 20, fmt.big) == LINKTYPE_ETHERNET && s[24..] == rest
  {
    var magic: nat := if fmt.nanosecond then MAGIC_NS else MAGIC_US;
    var head := Put32(magic, fmt.big);
    Widths();
    var s := FileHeader(fmt) + rest;
    FieldAt([], magic, 4, s[4..], fmt.big);
    assert s == [] + head + s[4..];
    FieldAt(s[..20], LINKTYPE_ETHERNET, 4, rest, fmt.big);
    assert s == s[..20] + Put32(LINKTYPE_ETHERNET, fmt.big) + rest;
    if fmt.big {
      assert s[0..4] == head;
      Swapped(magic);
    }
  }

  /** Neither magic number reads as a magic number in the other byte order. */
  lemma Swapped(magic: nat)
    requires magic == MAGIC_US || magic == MAGIC_NS
    ensures LeValue(Be(magic, 4)) !in {MAGIC_US, MAGIC_NS, PCAPNG_SHB}
  {
    var b0, b1, b2, b3 := magic / 0x100_0000, magic / 0x1_0000 % 256, magic / 256 % 256, magic % 256;
    assert Be(magic / 0x100_0000, 1) == [b0];
    assert Be(magic / 0x1_0000, 2) == [b0, b1];
    assert Be(magic / 256, 3) == [b0, b1, b2];
    var s := Be(magic, 4);
    assert s == [b0, b1, b2, b3];
    assert LeValue(s[3..]) == b3;
    assert LeValue(s[2..]) == b2 + 256 * b3 by { assert s[2..][1..] == s[3..]; }
    assert LeValue(s[1..]) == b1 + 256 * (b2 + 256 * b3) by { assert s[1..][1..] == s[2..]; }
  }

  lemma ReadAfterHeader(fmt: Format, rest: seq<Byte>)
    requires fmt.snaplen < U32
    ensures ReadFile(FileHeader(fmt) + rest) == Contents(LINKTYPE_ETHERNET, ReadBody(rest, LayoutOf(fmt)))
  {
    MagicOf(fmt, rest);
    ReadBehind(FileHeader(fmt) + rest, fmt.big, fmt.nanosecond, rest);
  }

  lemma ReadBehind(s: seq<Byte>, big: bool, nanosecond: bool, rest: seq<Byte>)
    requires |s| >= 24 && Get32(s, 0, false) != PCAPNG_SHB && Magic(s) == Some((big, nanosecond))
    requires Get32(s, 20, big) == LINKTYPE_ETHERNET && s[24..] == rest
    ensures ReadFile(s) == Contents(LINKTYPE_ETHERNET, ReadBody(rest, Layout(big, nanosecond, true)))
  {
  }

  /** What the writer wrote reads back as the same frames, cut to snaplen, unless a record is over the limit. */
  lemma FileRoundTrip(frames: seq<Frame>, fmt: Format)
    requires AllWritable(frames) && fmt.snaplen < U32
    ensures ReadFile(FileHeader(fmt) + Body(frames, fmt))
            == Contents(LINKTYPE_ETHERNET, Outcome(AllExpected(frames, fmt.snaplen), 0, Complete))
            <==> AllSmall(frames, fmt.snaplen)
  {
    ReadAfterHeader(fmt, Body(frames, fmt));
    BodyRoundTrip(frames, fmt);
  }

  /** A snaplen of at most 256 KiB is always safe; above it, one long frame it accepts makes the file unreadable. */
  lemma SnaplenBound(snaplen: nat)
    ensures (forall f: Frame :: Writable(f) ==> Small(f, snaplen)) <==> snaplen <= 262144
  {
    if snaplen > MAX_RECORD_BYTES {
      var f := Frame(seq(MAX_RECORD_BYTES + 1, _ => 0), 0, 0);
      assert Writable(f) && !Small(f, snaplen);
    }
  }

  // ------------------------------------------------------------------ the octets themselves

  /** A 32-bit number, least significant octet first. */
  function Octets(n: nat): seq<Byte>
    requires n < U32
  {
    [n % 256, n / 256 % 256, n / 0x1_0000 % 256, n / 0x100_0000]
  }

  lemma LittleOctets(n: nat)
    requires n < U32
    ensures Put32(n, false) == Octets(n)
  {
    var a, b, c := n / 256, n / 0x1_0000, n / 0x100_0000;
    assert a / 256 == b && b / 256 == c && c % 256 == c;
    assert Le(c, 1) == [c];
    assert Le(b, 2) == [b % 256, c];
    assert Le(a, 3) == [a % 256, b % 256, c];
    assert Le(n, 4) == [n % 256] + Le(a, 3);
  }

  /** The file the writer starts, octet by octet. */
  lemma HeaderOctets(nanosecond: bool, snaplen: nat)
    requires snaplen < U32
    ensures FileHeader(Format(nanosecond, snaplen, false))
         == (if nanosecond then [0x4D, 0x3C, 0xB2, 0xA1] else [0xD4, 0xC3, 0xB2, 0xA1])
            + [2, 0, 4, 0] + [0, 0, 0, 0] + [0, 0, 0, 0] + Octets(snaplen) + [1, 0, 0, 0]
  {
    var magic := if nanosecond then 0xA1B23C4D else 0xA1B2C3D4;
    LittleOctets(magic);
    LittleOctets(0);
    LittleOctets(1);
    LittleOctets(snaplen);
    MagicOctets();
    assert Octets(0) == [0, 0, 0, 0] && Octets(1) == [1, 0, 0, 0];
  }

  lemma MagicOctets()
    ensures Octets(0xA1B2C3D4) == [0xD4, 0xC3, 0xB2, 0xA1] && Octets(0xA1B23C4D) == [0x4D, 0x3C, 0xB2, 0xA1]
  {
  }

  /** And a record: seconds, micro- or nanoseconds, captured and original length, then the captured octets. */
  lemma RecordOctets(f: Frame, nanosecond: bool, snaplen: nat)
    requires Writable(f) && snaplen < U32
    ensures
      var captured := f.data[..if snaplen <= |f.data| then snaplen else |f.data|];
      var micros := f.tsUs % 1_000_000;
      RecordBytes(f, Format(nanosecond, snaplen, false))
      == Octets(f.tsUs / 1_000_000) + Octets(if nanosecond then 1000 * micros + f.nsRemainder else micros)
         + Octets(|captured|) + Octets(|f.data|) + captured
  {
    var fmt := Format(nanosecond, snaplen, false);
    LittleOctets(f.tsUs / 1_000_000);
    LittleOctets(Fraction(f, nanosecond));
    LittleOctets(|Captured(f, snaplen)|);
    LittleOctets(|f.data|);
  }

  /** The first four octets tell the kind of file: pcapng, or pcap in either resolution and byte order. */
  predicate IsPcap(head: seq<Byte>) {
    || head == [0xD4, 0xC3, 0xB2, 0xA1] || head == [0x4D, 0x3C, 0xB2, 0xA1]
    || head == [0xA1, 0xB2, 0xC3, 0xD4] || head == [0xA1, 0xB2, 0x3C, 0x4D]
  }

  function LittleNumber(a: int, b: int, c: int, d: int): int {
    a + 256 * (b + 256 * (c + 256 * d))
  }

  lemma ValueOfFour(s: seq<Byte>)
    requires |s| == 4
    ensures LeValue(s) == LittleNumber(s[0], s[1], s[2], s[3])
    ensures BeValue(s) == LittleNumber(s[3], s[2], s[1], s[0])
  {
    assert s[1..][1..] == s[2..] && s[2..][1..] == s[3..] && s[3..][1..] == [];
    assert LeValue(s[3..]) == s[3];
    assert LeValue(s[2..]) == s[2] as int + 256 * LeValue(s[3..]);
    assert LeValue(s[1..]) == s[1] as int + 256 * LeValue(s[2..]);
    assert s[..3][..2] == s[..2] && s[..2][..1] == s[..1] && s[..1][..0] == [];
    assert BeValue(s[..1]) == s[0];
    assert BeValue(s[..2]) == 256 * BeValue(s[..1]) + s[1] as int;
    assert BeValue(s[..3]) == 256 * BeValue(s[..2]) + s[2] as int;
  }

  /** A number in four octets tells the octets. */
  lemma OctetsTold(s: seq<Byte>, a: Byte, b: Byte, c: Byte, d: Byte)
    requires |s| == 4
    ensures LeValue(s) == LittleNumber(a, b, c, d) <==> s == [a, b, c, d]
    ensures BeValue(s) == LittleNumber(a, b, c, d) <==> s == [d, c, b, a]
  {
    ValueOfFour(s);
    assert s == [s[0], s[1], s[2], s[3]];
    NumbersDiffer(s[0], s[1], s[2], s[3], a, b, c, d);
    NumbersDiffer(s[3], s[2], s[1], s[0], a, b, c, d);
  }

  lemma NumbersDiffer(a: Byte, b: Byte, c: Byte, d: Byte, a': Byte, b': Byte, c': Byte, d': Byte)
    ensures LittleNumber(a, b, c, d) == LittleNumber(a', b', c', d') <==> a == a' && b == b' && c == c' && d == d'
  {
    DigitsDiffer(a, b + 256 * (c + 256 * d), a', b' + 256 * (c' + 256 * d'));
    DigitsDiffer(b, c + 256 * d, b', c' + 256 * d');
    DigitsDiffer(c, d, c', d');
  }

  lemma DigitsDiffer(a: Byte, rest: int, a': Byte, rest': int)
    ensures a + 256 * rest == a' + 256 * rest' <==> a == a' && rest == rest'
  {
  }

  lemma KindOfFile(s: seq<Byte>)
    ensures ReadFile(s).PcapNg? <==> |s| >= 4 && s[..4] == [0x0A, 0x0D, 0x0D, 0x0A]
    ensures ReadFile(s).TruncatedHeader? <==> 4 <= |s| < 24 && IsPcap(s[..4])
    ensures ReadFile(s).Contents? <==> |s| >= 24 && IsPcap(s[..4])
  {
    if |s| >= 4 {
      var head := s[..4];
      assert s[0..4] == head;
      OctetsTold(head, 0x0A, 0x0D, 0x0D, 0x0A);
      OctetsTold(head, 0xD4, 0xC3, 0xB2, 0xA1);
      OctetsTold(head, 0x4D, 0x3C, 0xB2, 0xA1);
      assert Magic(s).Some? <==> IsPcap(head);
    }
  }

  // ------------------------------------------------------------------- cut-off files

  /** How many whole records the first `n` bytes of a body hold. */
  function Whole(frames: seq<Frame>, fmt: Format, n: nat): (k: nat)
    requires AllWritable(frames)
    ensures k <= |frames|
  {
    if frames == [] || n < |RecordBytes(frames[0], fmt)| then 0
    else 1 + Whole(frames[1..], fmt, n - |RecordBytes(frames[0], fmt)|)
  }

  lemma {:induction false} WholeIsMaximal(frames: seq<Frame>, fmt: Format, n: nat)
    requires AllWritable(frames)
    ensures
      var k := Whole(frames, fmt, n);
      && |Body(frames[..k], fmt)| <= n
      && (k < |frames| ==> n < |Body(frames[..k + 1], fmt)|)
  {
    if frames != [] && n >= |RecordBytes(frames[0], fmt)| {
      WholeIsMaximal(frames[1..], fmt, n - |RecordBytes(frames[0], fmt)|);
      var k := Whole(frames, fmt, n);
      assert frames[..k][1..] == frames[1..][..k - 1];
      if k < |frames| {
        assert frames[..k + 1][1..] == frames[1..][..k];
      }
    } else if frames != [] {
      assert frames[..1][1..] == [];
    }
  }

  lemma CutRecord(f: Frame, fmt: Format, n: nat)
    requires Writable(f) && Small(f, fmt.snaplen) && 0 < n < |RecordBytes(f, fmt)|
    ensures ReadBody(RecordBytes(f, fmt)[..n], LayoutOf(fmt)) == Outcome([], 0, TruncatedTail)
  {
    if n >= 16 {
      var s := RecordBytes(f, fmt)[..n];
      assert s == RecordHeader(f, fmt) + s[16..];
      HeaderFields(f, fmt, s[16..]);
    }
  }

  /** What the first `n` bytes of a body should read as. */
  function CutOutcome(frames: seq<Frame>, fmt: Format, n: nat): Outcome
    requires AllWritable(frames)
  {
    var kept := frames[..Whole(frames, fmt, n)];
    Outcome(AllExpected(kept, fmt.snaplen), 0, if n == |Body(kept, fmt)| then Complete else TruncatedTail)
  }

  lemma CutStep(frames: seq<Frame>, fmt: Format, n: nat)
    requires AllWritable(frames) && frames != [] && n >= |RecordBytes(frames[0], fmt)|
    ensures
      var r := CutOutcome(frames[1..], fmt, n - |RecordBytes(frames[0], fmt)|);
      CutOutcome(frames, fmt, n) == r.(records := [Expected(frames[0], fmt.snaplen)] + r.records)
  {
    var k := Whole(frames, fmt, n);
    assert frames[..k][1..] == frames[1..][..k - 1];
  }

  /**
   Any prefix of a body reads as its whole records; the tail is reported truncated exactly when the
   cut falls inside a record.
   */
  lemma {:induction false} CutBody(frames: seq<Frame>, fmt: Format, n: nat)
    requires AllWritable(frames) && AllSmall(frames, fmt.snaplen) && n <= |Body(frames, fmt)|
    ensures ReadBody(Body(frames, fmt)[..n], LayoutOf(fmt)) == CutOutcome(frames, fmt, n)
  {
    if frames != [] {
      var first, rest := RecordBytes(frames[0], fmt), Body(frames[1..], fmt);
      if n >= |first| {
        CutBody(frames[1..], fmt, n - |first|);
        OneRecord(frames[0], fmt, rest[..n - |first|]);
        CutStep(frames, fmt, n);
        assert Body(frames, fmt)[..n] == first + rest[..n - |first|];
      } else if n > 0 {
        CutRecord(frames[0], fmt, n);
        assert Body(frames, fmt)[..n] == first[..n];
      }
    }
  }

  /** The same for a file: 24 bytes of header, then any cut. */
  lemma CutFile(frames: seq<Frame>, fmt: Format, n: nat)
    requires AllWritable(frames) && AllSmall(frames, fmt.snaplen) && fmt.snaplen < U32
    requires n <= |Body(frames, fmt)|
    ensures ReadFile((FileHeader(fmt) + Body(frames, fmt))[..24 + n])
        == Contents(LINKTYPE_ETHERNET, CutOutcome(frames, fmt, n))
  {
    var kept := Body(frames, fmt)[..n];
    assert (FileHeader(fmt) + Body(frames, fmt))[..24 + n] == FileHeader(fmt) + kept;
    ReadAfterHeader(fmt, kept);
    CutBody(frames, fmt, n);
  }
}
