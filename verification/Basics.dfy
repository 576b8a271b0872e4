/** Small shared vocabulary: optional values, clipping, powers of two, and sums
    over numbered rows. */
module Basics {

  datatype Option<+T> = None | Some(value: T) {
    function GetOr(default: T): T {
      if Some? then value else default
    }
  }

  function Min(a: int, b: int): int {
    if a <= b then a else b
  }

  function Max(a: int, b: int): int {
    if a >= b then a else b
  }

  /** The slice `s[:n]`. */
  function Clip<T>(s: seq<T>, n: nat): (r: seq<T>)
    ensures r <= s && |r| == Min(|s|, n)
  {
    if |s| <= n then s else s[..n]
  }

  /** Among finitely many rows one is no younger than any other. */
  lemma {:induction false} LeastOf(ids: set<nat>, time: nat -> int) returns (least: nat)
    requires ids != {}
    ensures least in ids && forall id :: id in ids ==> time(least) <= time(id)
  {
    least :| least in ids;
    if ids != {least} {
      var rest := LeastOf(ids - {least}, time);
      if time(rest) <= time(least) {
        least := rest;
      }
    }
  }

  function Pow2(n: nat): (p: nat)
    ensures p >= 1
  {
    if n == 0 then 1 else 2 * Pow2(n - 1)
  }

  lemma {:induction false} Pow2Monotone(a: nat, b: nat)
    requires a <= b
    ensures Pow2(a) <= Pow2(b)
    decreases b
  {
    if a < b {
      Pow2Monotone(a, b - 1);
    }
  }

  lemma PowersOfTwo()
    ensures Pow2(9) == 512 && Pow2(10) == 1024
  {
    assert Pow2(3) == 8;
    assert Pow2(6) == 64;
    assert Pow2(8) == 256;
  }

  /** The powers of two up to the tenth. */
  lemma PowerTable(n: nat)
    requires n <= 10
    ensures Pow2(n) == [1, 2, 4, 8, 16, 32, 64, 128, 256, 512, 1024][n]
  {
    if n > 0 {
      PowerTable(n - 1);
    }
  }

  /** The sum of the weights of the rows numbered below `n`. */
  ghost function Sum(w: map<nat, nat>, n: nat): nat {
    if n == 0 then 0 else Sum(w, n - 1) + Weight(w, n - 1)
  }

  ghost function Weight(w: map<nat, nat>, i: nat): nat {
    if i in w then w[i] else 0
  }

  lemma {:induction false} SumIsMonotone(a: map<nat, nat>, b: map<nat, nat>, n: nat)
    requires forall i: nat :: i < n ==> Weight(a, i) <= Weight(b, i)
    ensures Sum(a, n) <= Sum(b, n)
  {
    if n > 0 {
      SumIsMonotone(a, b, n - 1);
      assert Weight(a, n - 1) <= Weight(b, n - 1);
    }
  }

  /** Changing one row's weight changes the sum by that difference. */
  lemma {:induction false} SumAfterOneChange(a: map<nat, nat>, b: map<nat, nat>, n: nat, i: nat)
    requires i < n
    requires forall k: nat :: k < n && k != i ==> Weight(a, k) == Weight(b, k)
    ensures Sum(b, n) - Weight(b, i) == Sum(a, n) - Weight(a, i)
  {
    if i == n - 1 {
      SumIsMonotone(a, b, n - 1);
      SumIsMonotone(b, a, n - 1);
    } else {
      SumAfterOneChange(a, b, n - 1, i);
      assert Weight(a, n - 1) == Weight(b, n - 1);
    }
  }

  /** Raising the weight of each row in `grown` by at most one, and no other's, raises the
      sum by at most the number of those rows. */
  lemma {:induction false} SumGrowsAtMost(a: map<nat, nat>, b: map<nat, nat>, n: nat, grown: set<nat>)
    requires forall k: nat :: k < n ==> Weight(b, k) <= Weight(a, k) + if k in grown then 1 else 0
    ensures Sum(b, n) <= Sum(a, n) + |grown|
  {
    if n > 0 {
      var rest := grown - {n - 1};
      SumGrowsAtMost(a, b, n - 1, rest);
      assert Weight(b, n - 1) <= Weight(a, n - 1) + if n - 1 in grown then 1 else 0;
    }
  }
}
