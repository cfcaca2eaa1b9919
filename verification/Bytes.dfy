/** Octets, C strings and 32-bit integers in network byte order. */
module Bytes {
  type byte = x: int | 0 <= x < 256

  const INT32_MAX := 0x7fff_ffff
  const TWO_32 := 0x1_0000_0000

  predicate IsInt32(v: int) {
    -0x8000_0000 <= v <= INT32_MAX
  }

  /** The four bytes of `htonl(v)`, most significant first. */
  function ToNet(v: int): (bs: seq<byte>)
    requires IsInt32(v)
    ensures |bs| == 4
  {
    var u := if v < 0 then v + TWO_32 else v;
    [u / 0x100_0000, u / 0x1_0000 % 256, u / 256 % 256, u % 256]
  }

  /** The signed value that four bytes in network order stand for. */
  function FromNet(bs: seq<byte>): (v: int)
    requires |bs| == 4
    ensures IsInt32(v)
  {
    var b0: int, b1: int, b2: int, b3: int := bs[0], bs[1], bs[2], bs[3];
    var u := b0 * 0x100_0000 + b1 * 0x1_0000 + b2 * 256 + b3;
    if u <= INT32_MAX then u else u - TWO_32
  }

  lemma NetRoundTrip(v: int)
    requires IsInt32(v)
    ensures FromNet(ToNet(v)) == v
  {
    var u := if v < 0 then v + TWO_32 else v;
    assert u == u / 0x100_0000 * 0x100_0000 + u / 0x1_0000 % 256 * 0x1_0000 + u / 256 % 256 * 256 + u % 256;
  }

  /** The unsigned number that four bytes are, most significant first. */
  function Weighted(bs: seq<byte>): int
    requires |bs| == 4
  {
    var b0: int, b1: int, b2: int, b3: int := bs[0], bs[1], bs[2], bs[3];
    b0 * 16777216 + b1 * 65536 + b2 * 256 + b3
  }

  /** Network byte order: the most significant byte comes first, and a negative value stands for itself plus 2^32. */
  lemma NetOrder(v: int)
    requires IsInt32(v)
    ensures var b0: int, b1: int, b2: int, b3: int := ToNet(v)[0], ToNet(v)[1], ToNet(v)[2], ToNet(v)[3];
            b0 * 16777216 + b1 * 65536 + b2 * 256 + b3 == if v < 0 then v + 4294967296 else v
    ensures Weighted(ToNet(v)) == if v < 0 then v + 4294967296 else v
  {
    var u := if v < 0 then v + TWO_32 else v;
    assert u == u / 0x100_0000 * 0x100_0000 + u / 0x1_0000 % 256 * 0x1_0000 + u / 256 % 256 * 256 + u % 256;
  }

  /** `std::string(const char*)`: the bytes before the first NUL. */
  function CString(s: seq<byte>): (r: seq<byte>)
    ensures r <= s
    ensures 0 !in r
    ensures |r| < |s| ==> s[|r|] == 0
  {
    if s == [] || s[0] == 0 then [] else [s[0]] + CString(s[1..])
  }

  lemma CStringWhole(s: seq<byte>)
    ensures CString(s) == s <==> 0 !in s
  {
  }

  /** A text literal of printable ASCII characters. */
  type Literal = s: string | forall c <- s :: ' ' <= c <= '~'

  function Ascii(s: Literal): (bs: seq<byte>)
    ensures |bs| == |s|
    ensures 0 !in bs
  {
    seq(|s|, i requires 0 <= i < |s| => s[i] as int)
  }

  function Zeros(n: nat): (z: seq<byte>)
    ensures |z| == n && forall i :: 0 <= i < n ==> z[i] == 0
  {
    seq(n, _ => 0)
  }
}
