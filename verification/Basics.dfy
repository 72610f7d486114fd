// Shared vocabulary: bytes, endpoint identifiers, a millisecond clock, machine-word
// arithmetic, and the cardinality facts that the counting arguments rest on.
module Basics {
  datatype Option<+T> = None | Some(value: T)

  /** Rust's `u8`: MAVLink system and component identifiers, and stream bytes. */
  type Byte = b: int | 0 <= b < 256 witness 0

  type EndpointId = nat

  /** A reading of the monotonic clock, in milliseconds. */
  type Time = nat

  const USIZE_MAX: nat := 0xFFFF_FFFF_FFFF_FFFF

  type Usize = n: int | 0 <= n <= USIZE_MAX witness 0

  function SaturatingAdd(a: Usize, b: Usize): Usize {
    if a + b > USIZE_MAX then USIZE_MAX else a + b
  }

  /** Saturating difference: `usize::saturating_sub`, and `Instant::duration_since`
      with `earlier` as the subtrahend. */
  function Minus(a: nat, b: nat): nat {
    if a < b then 0 else a - b
  }

  function Min(a: nat, b: nat): nat {
    if a < b then a else b
  }

  function Max(a: nat, b: nat): nat {
    if a < b then b else a
  }

  lemma {:induction false} SubsetSize<T>(a: set<T>, b: set<T>)
    requires a <= b
    ensures |a| <= |b|
    ensures |a| == |b| ==> a == b
  {
    assert b == a + (b - a);
    if |a| == |b| {
      assert |b - a| == 0;
    }
  }

  lemma {:induction false} DisjointUnion<T>(a: set<T>, b: set<T>, c: set<T>)
    requires a !! b
    requires forall x :: x in c <==> x in a || x in b
    ensures |c| == |a| + |b|
  {
    assert c == a + b;
  }

  lemma {:induction false} Associative<T>(a: seq<T>, b: seq<T>, c: seq<T>)
    ensures (a + b) + c == a + (b + c)
  {
  }

  /** Pigeonhole: a set that maps injectively into 0..n has at most n elements. */
  lemma {:induction false} Pigeonhole<T>(s: set<T>, f: T -> int, n: nat)
    requires forall x :: x in s ==> 0 <= f(x) < n
    requires forall x, y :: x in s && y in s && f(x) == f(y) ==> x == y
    ensures |s| <= n
    decreases n
  {
    if n == 0 {
      assert s == {};
    } else if x :| x in s && f(x) == n - 1 {
      Pigeonhole(s - {x}, f, n - 1);
    } else {
      Pigeonhole(s, f, n - 1);
    }
  }
}
