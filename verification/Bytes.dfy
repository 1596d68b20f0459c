/** Big-endian integers over byte sequences, and a fact about concatenation. */
module Bytes {
  type byte = x: int | 0 <= x < 256

  function U16(hi: byte, lo: byte): nat { hi * 256 + lo }

  function U32(a: byte, b: byte, c: byte, d: byte): nat {
    U16(a, b) * 65536 + U16(c, d)
  }

  /** The low sixteen bits of `n`, as a truncating cast leaves them. */
  function Put16(n: nat): (bs: seq<byte>)
    ensures |bs| == 2 && U16(bs[0], bs[1]) == n % 65536
  {
    var m := n % 65536;
    [m / 256, m % 256]
  }

  lemma HasBytes16(n: nat) returns (hi: byte, lo: byte)
    requires n < 65536
    ensures U16(hi, lo) == n
  {
    hi, lo := n / 256, n % 256;
  }

  lemma HasBytes32(n: nat) returns (bs: seq<byte>)
    requires n < 0x1_0000_0000
    ensures |bs| == 4 && U32(bs[0], bs[1], bs[2], bs[3]) == n
  {
    var a, b := HasBytes16(n / 65536);
    var c, d := HasBytes16(n % 65536);
    bs := [a, b, c, d];
  }

  /** The four bytes of `n`. */
  ghost function Put32(n: nat): (bs: seq<byte>)
    requires n < 0x1_0000_0000
    ensures |bs| == 4 && U32(bs[0], bs[1], bs[2], bs[3]) == n
  {
    assert exists bs: seq<byte> :: |bs| == 4 && U32(bs[0], bs[1], bs[2], bs[3]) == n by {
      var bs := HasBytes32(n);
    }
    var bs: seq<byte> :| |bs| == 4 && U32(bs[0], bs[1], bs[2], bs[3]) == n;
    bs
  }

  /** Two bytes written by Put16 read back as the number exactly when it fits. */
  lemma Field16(n: nat, hi: byte, lo: byte)
    requires hi == Put16(n)[0] && lo == Put16(n)[1]
    ensures U16(hi, lo) == n <==> n < 65536
  {
  }

  lemma Field32(n: nat, a: byte, b: byte, c: byte, d: byte)
    requires n < 0x1_0000_0000 && [a, b, c, d] == Put32(n)
    ensures U32(a, b, c, d) == n
  {
  }

  function Zeros(n: nat): (bs: seq<byte>)
    ensures |bs| == n && forall i :: 0 <= i < n ==> bs[i] == 0
  {
    seq(n, _ => 0)
  }

  /** Octets needed for a prefix of `bits` bits. */
  function OctetsFor(bits: nat): nat { (bits + 7) / 8 }

  lemma Associate<T>(a: seq<T>, b: seq<T>, c: seq<T>)
    ensures a + (b + c) == a + b + c
  {
  }
}
