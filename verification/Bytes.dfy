/** Bytes, 32-bit integers on the wire, and the small datatypes every other module uses. */
module Bytes {

  newtype byte = x: int | 0 <= x < 256

  type Bytes = seq<byte>

  datatype Option<+T> = None | Some(value: T)

  const POW31: int := 0x8000_0000
  const POW32: int := 0x1_0000_0000
  const POW64: int := 0x1_0000_0000_0000_0000

  type UInt = n: nat | n < POW32

  /** The value a 32-bit two's complement `int` keeps of `n`. */
  function ToInt32(n: int): int {
    var m := n % POW32;
    if m < POW31 then m else m - POW32
  }

  /** The four bytes of a 32-bit integer in memory, least significant first. */
  function EncodeInt(n: int): (b: Bytes)
    ensures |b| == 4
  {
    var m := n % POW32;
    [(m % 256) as byte, (m / 256 % 256) as byte, (m / 65536 % 256) as byte, (m / 16777216) as byte]
  }

  /** Writing a length through an `int` changes none of its four bytes. */
  lemma EncodeTruncated(n: int)
    ensures EncodeInt(ToInt32(n)) == EncodeInt(n)
  {
    assert ToInt32(n) % POW32 == n % POW32;
  }

  /** The unsigned reading of four bytes. */
  function DecodeUnsigned(b: Bytes): (n: int)
    requires |b| == 4
    ensures 0 <= n < POW32
  {
    b[0] as int + 256 * b[1] as int + 65536 * b[2] as int + 16777216 * b[3] as int
  }

  lemma DecodeEncodeInt(n: int)
    ensures DecodeUnsigned(EncodeInt(n)) == n % POW32
  {
    var m := n % POW32;
    var q1, q2 := m / 256, m / 65536;
    assert q2 == q1 / 256;
    assert m / 16777216 == q2 / 256;
  }

  /** `part` lies in `whole` at position `at`. */
  predicate Has<T(==)>(whole: seq<T>, at: nat, part: seq<T>) {
    at + |part| <= |whole| && whole[at..at + |part|] == part
  }

  /** A stretch that holds `a + b` holds `a`, then `b`. */
  lemma HasSplit<T>(whole: seq<T>, at: nat, a: seq<T>, b: seq<T>)
    requires Has(whole, at, a + b)
    ensures Has(whole, at, a) && Has(whole, at + |a|, b)
  {
    var s := whole[at..at + |a + b|];
    assert whole[at..at + |a|] == s[..|a|] == a;
    assert whole[at + |a|..at + |a| + |b|] == s[|a|..] == b;
  }

  function Flatten<T>(parts: seq<seq<T>>): seq<T> {
    if parts == [] then [] else parts[0] + Flatten(parts[1..])
  }

  lemma {:induction false} FlattenAppend<T>(a: seq<seq<T>>, b: seq<seq<T>>)
    ensures Flatten(a + b) == Flatten(a) + Flatten(b)
  {
    if a == [] {
      assert a + b == b;
    } else {
      assert (a + b)[0] == a[0] && (a + b)[1..] == a[1..] + b;
      FlattenAppend(a[1..], b);
    }
  }
}
