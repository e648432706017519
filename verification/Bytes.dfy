/** Bytes on the wire, the little-endian integers the frame header is made of, and C strings. */
module Bytes {

  newtype Byte = x: int | 0 <= x < 256

  /** The 16-bit signed value of two bytes, low byte first. */
  function Short(lo: Byte, hi: Byte): (r: int)
    ensures -32768 <= r < 32768
  {
    var u := lo as int + 256 * hi as int;
    if u < 32768 then u else u - 65536
  }

  /** In memory the low byte comes first, and a negative number is its two's complement. Division
      and remainder are Euclidean here, so that -1 / 256 is -1 and -1 % 256 is 255. */
  lemma ShortOrder(n: int)
    requires -32768 <= n < 32768
    ensures Short((n % 256) as Byte, (n / 256 % 256) as Byte) == n
    ensures 0 <= n ==> Short((n % 256) as Byte, (n / 256) as Byte) == n
  {
  }

  /** A positive number is read as its bytes say. */
  lemma ShortPositive(lo: Byte, hi: Byte)
    requires Short(lo, hi) > 0
    ensures Short(lo, hi) == lo as int + 256 * hi as int
  {
  }

  function ShortBytes(n: int): (b: seq<Byte>)
    requires -32768 <= n < 32768
    ensures |b| == 2 && Short(b[0], b[1]) == n
    ensures b[0] as int == n % 256 && b[1] as int == n / 256 % 256
  {
    var u := if n < 0 then n + 65536 else n;
    [(u % 256) as Byte, (u / 256) as Byte]
  }

  predicate IsInt32(n: int) {
    -0x8000_0000 <= n < 0x8000_0000
  }

  /** The 32-bit signed value of four bytes, low byte first. */
  function Int32(b: seq<Byte>): (r: int)
    requires |b| == 4
    ensures IsInt32(r)
  {
    var u := b[0] as int + 0x100 * b[1] as int + 0x1_0000 * b[2] as int + 0x100_0000 * b[3] as int;
    if u < 0x8000_0000 then u else u - 0x1_0000_0000
  }

  function Int32Bytes(n: int): (b: seq<Byte>)
    requires IsInt32(n)
    ensures |b| == 4 && Int32(b) == n
  {
    var u := if n < 0 then n + 0x1_0000_0000 else n;
    var q1 := u / 0x100;
    var q2 := q1 / 0x100;
    var q3 := q2 / 0x100;
    [(u % 0x100) as Byte, (q1 % 0x100) as Byte, (q2 % 0x100) as Byte, q3 as Byte]
  }

  lemma Carry(n: int, k: int)
    ensures (n + 0x100 * k) / 0x100 == n / 0x100 + k && (n + 0x100 * k) % 0x100 == n % 0x100
  {
  }

  /** Four bytes hold a number from the lowest byte to the highest, and a negative one as its
      two's complement. */
  lemma Int32BytesOrder(n: int)
    requires IsInt32(n)
    ensures var b, q := Int32Bytes(n), n / 0x100;
            && b[0] as int == n % 0x100 && b[1] as int == q % 0x100
            && b[2] as int == q / 0x100 % 0x100 && b[3] as int == q / 0x100 / 0x100 % 0x100
  {
    if n < 0 {
      Carry(n, 0x100_0000);
      Carry(n / 0x100, 0x1_0000);
      Carry(n / 0x100 / 0x100, 0x100);
      Carry(n / 0x100 / 0x100 / 0x100, 1);
    }
  }

  /** And they are read so. */
  lemma Int32Order(n: int)
    requires IsInt32(n)
    ensures var q := n / 0x100;
            Int32([(n % 0x100) as Byte, (q % 0x100) as Byte,
                   (q / 0x100 % 0x100) as Byte, (q / 0x100 / 0x100 % 0x100) as Byte]) == n
  {
    Int32BytesOrder(n);
    var q, b := n / 0x100, Int32Bytes(n);
    assert [(n % 0x100) as Byte, (q % 0x100) as Byte,
            (q / 0x100 % 0x100) as Byte, (q / 0x100 / 0x100 % 0x100) as Byte] == b;
  }

  /** What a C string constructor reads: everything before the first NUL, or all of `s` when it holds none. */
  function CString(s: seq<Byte>): (r: seq<Byte>)
    ensures r <= s && 0 !in r
    ensures 0 in s ==> |r| < |s| && s[|r|] == 0
    ensures 0 !in s ==> r == s
  {
    if s == [] || s[0] == 0 then [] else [s[0]] + CString(s[1..])
  }

  /** Bytes behind the first NUL do not change what is read. */
  lemma {:induction false} CStringPrefix(s: seq<Byte>, t: seq<Byte>)
    requires 0 in s && s <= t
    ensures CString(t) == CString(s)
  {
    assert t[0] == s[0];
    if s[0] != 0 {
      CStringPrefix(s[1..], t[1..]);
    }
  }

  /** Without a NUL nothing is cut off. */
  lemma {:induction false} CStringUnterminated(s: seq<Byte>, t: seq<Byte>)
    requires 0 !in s && s <= t
    ensures s <= CString(t)
  {
    if s == [] {
    } else {
      CStringUnterminated(s[1..], t[1..]);
    }
  }

  lemma {:induction false} CStringTerminated(s: seq<Byte>)
    requires 0 !in s
    ensures CString(s + [0]) == s
  {
    if s == [] {
    } else {
      assert (s + [0])[1..] == s[1..] + [0];
      CStringTerminated(s[1..]);
      assert [s[0]] + s[1..] == s;
    }
  }

  function Text(b: seq<Byte>): (t: string)
    ensures |t| == |b| && forall i :: 0 <= i < |b| ==> t[i] as int == b[i] as int
  {
    seq(|b|, i requires 0 <= i < |b| => b[i] as char)
  }

  lemma Assoc<T>(a: seq<T>, b: seq<T>, c: seq<T>)
    ensures a + b + c == a + (b + c)
  {
  }

  function Flatten<T>(ss: seq<seq<T>>): seq<T> {
    if ss == [] then [] else ss[0] + Flatten(ss[1..])
  }

  lemma {:induction false} FlattenAppend<T>(a: seq<seq<T>>, b: seq<seq<T>>)
    ensures Flatten(a + b) == Flatten(a) + Flatten(b)
  {
    if a == [] {
      assert a + b == b;
    } else {
      assert (a + b)[0] == a[0] && (a + b)[1..] == a[1..] + b;
      FlattenAppend(a[1..], b);
    }
  }

  lemma FlattenCons<T>(x: seq<T>, a: seq<seq<T>>)
    ensures Flatten([x] + a) == x + Flatten(a)
  {
    assert ([x] + a)[1..] == a;
  }

  lemma FlattenSnoc<T>(a: seq<seq<T>>, x: seq<T>)
    ensures Flatten(a + [x]) == Flatten(a) + x
  {
    FlattenAppend(a, [x]);
    assert Flatten([x]) == x;
  }
}
