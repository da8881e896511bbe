/** Fixed-width integers, byte strings and big-endian fields, as the Go code uses them. */
module Machine {
  const TWO16: int := 0x1_0000
  const TWO32: int := 0x1_0000_0000
  const TWO63: int := 0x8000_0000_0000_0000
  const TWO64: int := 0x1_0000_0000_0000_0000
  const MAX64: int := TWO64 - 1

  type byte = x: int | 0 <= x < 0x100
  type u64 = x: int | 0 <= x < TWO64
  type i64 = x: int | -TWO63 <= x < TWO63

  /** A Go string: its bytes. */
  type Str = seq<byte>

  datatype Option<+T> = None | Some(value: T) {
    function GetOr(default: T): T { if Some? then value else default }
  }

  /** Go's `<` on strings: lexicographic over bytes. */
  predicate Less(a: Str, b: Str) {
    b != [] && (a == [] || a[0] < b[0] || (a[0] == b[0] && Less(a[1..], b[1..])))
  }

  lemma {:induction false} LessTransitive(a: Str, b: Str, c: Str)
    requires Less(a, b) && Less(b, c)
    ensures Less(a, c)
  {
    if a != [] && a[0] == b[0] && b[0] == c[0] {
      LessTransitive(a[1..], b[1..], c[1..]);
    }
  }

  lemma {:induction false} LessTrichotomy(a: Str, b: Str)
    ensures a == b || Less(a, b) || Less(b, a)
    ensures !(Less(a, b) && Less(b, a))
    ensures !Less(a, a)
  {
    if a != [] {
      LessTrichotomy(a[1..], a[1..]);
      if b != [] {
        LessTrichotomy(a[1..], b[1..]);
        assert a == [a[0]] + a[1..] && b == [b[0]] + b[1..];
      }
    }
  }

  /** Up to `i` the strings agree, and there `a` ends or has the smaller byte. */
  predicate FirstAt(a: Str, b: Str, i: nat) {
    i <= |a| && i < |b| && a[..i] == b[..i] && (i == |a| || a[i] < b[i])
  }

  /** Which decides the order. */
  lemma {:induction false} LessExactly(a: Str, b: Str)
    ensures Less(a, b) <==> exists i: nat :: FirstAt(a, b, i)
  {
    if a == [] || b == [] || a[0] != b[0] {
      assert b != [] && (a == [] || a[0] < b[0]) ==> FirstAt(a, b, 0);
    } else {
      LessExactly(a[1..], b[1..]);
      if j: nat :| FirstAt(a[1..], b[1..], j) {
        assert a[..j + 1] == [a[0]] + a[1..][..j] && b[..j + 1] == [b[0]] + b[1..][..j];
        assert FirstAt(a, b, j + 1);
      }
      if i: nat :| FirstAt(a, b, i) {
        assert i > 0;
        assert a[1..][..i - 1] == a[..i][1..] && b[1..][..i - 1] == b[..i][1..];
        assert FirstAt(a[1..], b[1..], i - 1);
      }
    }
  }

  function Pow256(width: nat): (p: nat)
    ensures p >= 1
  {
    if width == 0 then 1 else 256 * Pow256(width - 1)
  }

  /** The low `width` bytes of `n`, most significant first: the truncating conversion plus PutUintN. */
  function Big(n: nat, width: nat): (s: seq<byte>)
    ensures |s| == width
  {
    if width == 0 then [] else Big(n / 256, width - 1) + [n % 256]
  }

  function Unbig(s: seq<byte>): (n: nat)
    ensures n < Pow256(|s|)
  {
    if s == [] then 0 else 256 * Unbig(s[..|s| - 1]) + s[|s| - 1]
  }

  lemma {:induction false} UnbigBig(n: nat, width: nat)
    requires n < Pow256(width)
    ensures Unbig(Big(n, width)) == n
  {
    if width > 0 {
      UnbigBig(n / 256, width - 1);
      assert Big(n, width)[..width - 1] == Big(n / 256, width - 1);
    }
  }

  lemma Widths()
    ensures Pow256(1) == 0x100 && Pow256(2) == TWO16 && Pow256(4) == TWO32 && Pow256(8) == TWO64
  {
    assert Pow256(3) == 256 * Pow256(2);
    assert Pow256(5) == 256 * Pow256(4);
    assert Pow256(6) == 256 * Pow256(5);
    assert Pow256(7) == 256 * Pow256(6);
  }

  /** Go's `uint64(x)` of an int64, and `int64(n)` of a uint64. */
  function ToU64(x: i64): u64 { if x < 0 then x + TWO64 else x }
  function ToI64(n: u64): i64 { if n < TWO63 then n else n - TWO64 }

  /** Two's-complement wrap of an int64 result. */
  function Wrap64(x: int): i64 { (x + TWO63) % TWO64 - TWO63 }

  lemma AddModulo(a: nat, b: nat)
    ensures (a % TWO64 + b) % TWO64 == (a + b) % TWO64
  {
    assert a + b == (a % TWO64 + b) + TWO64 * (a / TWO64);
  }

  lemma {:induction false} UnbigLast(s: seq<byte>)
    requires s != []
    ensures Unbig(s) == 256 * Unbig(s[..|s| - 1]) + s[|s| - 1]
  {
  }

  lemma Distribute(x: nat, p: nat)
    ensures 256 * (x * p) == x * (256 * p)
  {
  }

  /** The first byte is the most significant. */
  lemma {:induction false} BigEndian(x: byte, s: seq<byte>)
    ensures Unbig([x] + s) == x * Pow256(|s|) + Unbig(s)
  {
    if s == [] {
      assert [x] + s == [x] && [x][..0] == [];
      assert Unbig([x]) == 256 * Unbig([]) + x;
    } else {
      BigEndian(x, s[..|s| - 1]);
      UnbigLast([x] + s);
      UnbigLast(s);
      assert ([x] + s)[..|s|] == [x] + s[..|s| - 1] && ([x] + s)[|s|] == s[|s| - 1];
      assert Pow256(|s|) == 256 * Pow256(|s| - 1);
      hide Unbig, Pow256;
      Distribute(x, Pow256(|s| - 1));
    }
  }

  lemma {:induction false} BigUnbig(s: seq<byte>)
    ensures Big(Unbig(s), |s|) == s
  {
    if s != [] {
      BigUnbig(s[..|s| - 1]);
      UnbigLast(s);
      hide Unbig;
      assert s == s[..|s| - 1] + [s[|s| - 1]];
    }
  }
}
