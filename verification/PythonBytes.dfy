/** Python's byte-string slices and big-endian 16-bit fields, which the parser and the TLS detectors share. */
module PythonBytes {
  import opened Prelude

  /** `raw[lo:hi]`: both ends clamped to the length. */
  function Slice(raw: seq<Byte>, lo: nat, hi: nat): seq<Byte> {
    var h := Min(hi, |raw|);
    if lo <= h then raw[lo..h] else []
  }

  /** `struct.unpack("!H", data)[0]`. */
  function UnpackH(data: seq<Byte>): (n: nat)
    requires |data| == 2
  {
    data[0] as int * 256 + data[1]
  }

  /** `struct.pack("!H", n)`. */
  function PackH(n: nat): (data: seq<Byte>)
    requires n < 0x1_0000
    ensures |data| == 2 && UnpackH(data) == n
  {
    [n / 256, n % 256]
  }
}
