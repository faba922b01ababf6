/** Fixed-width unsigned fields in byte strings, in either byte order. */
module Fields {
  import opened Prelude

  const U16 := 0x1_0000
  const U32 := 0x1_0000_0000

  function Pow256(n: nat): nat {
    if n == 0 then 1 else 256 * Pow256(n - 1)
  }

  /** `count` bytes of a number, least significant first. */
  function Le(n: nat, count: nat): (s: seq<Byte>)
    ensures |s| == count
  {
    if count == 0 then [] else [n % 256] + Le(n / 256, count - 1)
  }

  function Be(n: nat, count: nat): (s: seq<Byte>)
    ensures |s| == count
  {
    if count == 0 then [] else Be(n / 256, count - 1) + [n % 256]
  }

  function LeValue(s: seq<Byte>): (n: nat) {
    if s == [] then 0 else s[0] as int + 256 * LeValue(s[1..])
  }

  function BeValue(s: seq<Byte>): (n: nat) {
    if s == [] then 0 else 256 * BeValue(s[..|s| - 1]) + s[|s| - 1] as int
  }

  function Put(n: nat, count: nat, big: bool): (s: seq<Byte>)
    ensures |s| == count
  {
    if big then Be(n, count) else Le(n, count)
  }

  function Get(s: seq<Byte>, at: nat, count: nat, big: bool): nat
    requires at + count <= |s|
  {
    if big then BeValue(s[at..at + count]) else LeValue(s[at..at + count])
  }

  function Put32(n: nat, big: bool): (s: seq<Byte>)
    requires n < U32
    ensures |s| == 4
  {
    Put(n, 4, big)
  }

  function Get32(s: seq<Byte>, at: nat, big: bool): nat
    requires at + 4 <= |s|
  {
    Get(s, at, 4, big)
  }

  function Put16(n: nat, big: bool): (s: seq<Byte>)
    requires n < U16
    ensures |s| == 2
  {
    Put(n, 2, big)
  }

  function Get16(s: seq<Byte>, at: nat, big: bool): nat
    requires at + 2 <= |s|
  {
    Get(s, at, 2, big)
  }

  lemma {:induction false} LeRoundTrip(n: nat, count: nat)
    requires n < Pow256(count)
    ensures LeValue(Le(n, count)) == n
  {
    if count > 0 {
      LeRoundTrip(n / 256, count - 1);
      assert Le(n, count)[1..] == Le(n / 256, count - 1);
    }
  }

  lemma {:induction false} BeRoundTrip(n: nat, count: nat)
    requires n < Pow256(count)
    ensures BeValue(Be(n, count)) == n
  {
    if count > 0 {
      BeRoundTrip(n / 256, count - 1);
      assert Be(n, count)[..count - 1] == Be(n / 256, count - 1);
    }
  }

  /** A field written between two byte strings is read back at its offset. */
  lemma FieldAt(before: seq<Byte>, n: nat, count: nat, after: seq<Byte>, big: bool)
    requires n < Pow256(count)
    ensures Get(before + Put(n, count, big) + after, |before|, count, big) == n
  {
    LeRoundTrip(n, count);
    BeRoundTrip(n, count);
    assert (before + Put(n, count, big) + after)[|before|..|before| + count] == Put(n, count, big);
  }

  /** A 32-bit word is read where it was written. */
  lemma WordRead(s: seq<Byte>, at: nat, n: nat, big: bool)
    requires n < U32 && at + 4 <= |s| && s[at..at + 4] == Put32(n, big)
    ensures Get32(s, at, big) == n
  {
    Widths();
    LeRoundTrip(n, 4);
    BeRoundTrip(n, 4);
  }

  lemma Widths()
    ensures Pow256(2) == U16 && Pow256(4) == U32
  {
    assert Pow256(1) == 256 && Pow256(3) == 0x100_0000;
  }
}
