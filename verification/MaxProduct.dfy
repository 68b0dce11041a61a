/** Cutting a rope: the table of `maxproduct` and the greatest product over all cuts. */
module MaxProduct {

  // ---- What is to be maximised ----

  function Sum(parts: seq<nat>): nat {
    if parts == [] then 0 else parts[0] + Sum(parts[1..])
  }

  function Prod(parts: seq<nat>): nat {
    if parts == [] then 1 else parts[0] * Prod(parts[1..])
  }

  /** A way to write `n` as a sum of positive parts. */
  ghost predicate Cuts(parts: seq<nat>, n: nat) {
    parts != [] && Sum(parts) == n && forall i :: 0 <= i < |parts| ==> parts[i] >= 1
  }

  /** `m` is the greatest product over all the ways to cut `n`. */
  ghost predicate IsGreatest(m: int, n: nat) {
    && (exists parts :: Cuts(parts, n) && Prod(parts) == m)
    && (forall parts :: Cuts(parts, n) ==> Prod(parts) <= m)
  }

  // ---- The recurrence behind the table ----

  function Best(n: nat): nat {
    if n <= 4 then n else 3 * Best(n - 3)
  }

  function Pow(b: nat, e: nat): nat {
    if e == 0 then 1 else b * Pow(b, e - 1)
  }

  lemma {:induction false} BestGrows(n: nat)
    requires n >= 1
    ensures n <= Best(n) < Best(n + 1)
  {
    if n > 4 { BestGrows(n - 3); }
  }

  lemma {:induction false} BestMonotone(m: nat, n: nat)
    requires 1 <= m <= n
    ensures Best(m) <= Best(n)
    decreases n - m
  {
    if m < n {
      BestGrows(m);
      BestMonotone(m + 1, n);
    }
  }

  lemma ThreeTimes(x: nat, y: nat)
    ensures (3 * x) * y == 3 * (x * y) == x * (3 * y)
  {
  }

  lemma BestOfSmall(a: nat, b: nat)
    requires 2 <= a <= 4 && 2 <= b <= 4
    ensures a * b <= Best(a + b)
  {
    assert Best(4) == 4 && Best(5) == 6 && Best(6) == 9 && Best(7) == 12 && Best(8) == 18;
    assert a * b == if a == 2 then 2 * b else if a == 3 then 3 * b else 4 * b;
  }

  /** Joining two cut ropes never beats cutting the joined rope best. */
  lemma {:induction false} BestOfJoined(a: nat, b: nat)
    requires a >= 1 && b >= 1
    ensures Best(a) * Best(b) <= Best(a + b)
    decreases a + b
  {
    if a > 4 {
      BestOfJoined(a - 3, b);
      ThreeTimes(Best(a - 3), Best(b));
      assert Best(a + b) == 3 * Best(a - 3 + b);
    } else if b > 4 {
      BestOfJoined(a, b - 3);
      ThreeTimes(Best(a), Best(b - 3));
      assert Best(a + b) == 3 * Best(a + (b - 3));
    } else if a == 1 {
      BestGrows(b);
    } else if b == 1 {
      BestGrows(a);
    } else {
      BestOfSmall(a, b);
    }
  }

  lemma {:induction false} ProdAtMostBest(parts: seq<nat>, n: nat)
    requires Cuts(parts, n)
    ensures Prod(parts) <= Best(n)
  {
    BestGrows(parts[0]);
    if |parts| == 1 {
      assert parts[1..] == [];
    } else {
      var rest := n - parts[0];
      assert parts[1..][0] == parts[1];
      ProdAtMostBest(parts[1..], rest);
      BestOfJoined(parts[0], rest);
      MulMonotone(parts[0], Best(parts[0]), Prod(parts[1..]), Best(rest));
    }
  }

  lemma MulMonotone(a: nat, b: nat, c: nat, d: nat)
    requires a <= b && c <= d
    ensures a * c <= b * d
  {
    assert a * c <= b * c;
    assert b * c <= b * d;
  }

  lemma {:induction false} BestIsReached(n: nat)
    requires n >= 1
    ensures exists parts :: Cuts(parts, n) && Prod(parts) == Best(n)
  {
    if n <= 4 {
      var whole := [n];
      assert whole[0] == n && whole[1..] == [];
      assert Sum(whole) == n + Sum([]) && Prod(whole) == n * Prod([]);
      assert Cuts(whole, n);
    } else {
      BestIsReached(n - 3);
      var parts :| Cuts(parts, n - 3) && Prod(parts) == Best(n - 3);
      var more := [3] + parts;
      assert more[1..] == parts;
      assert Cuts(more, n) && Prod(more) == Best(n);
    }
  }

  lemma BestIsGreatest(n: nat)
    requires n >= 1
    ensures IsGreatest(Best(n), n)
  {
    BestIsReached(n);
    forall parts | Cuts(parts, n) ensures Prod(parts) <= Best(n) {
      ProdAtMostBest(parts, n);
    }
  }

  /** The closed form, by the remainder of the length modulo 3. */
  lemma {:induction false} ClosedForm(k: nat)
    ensures k >= 1 ==> Best(3 * k) == Pow(3, k) && Best(3 * k + 1) == 4 * Pow(3, k - 1)
    ensures Best(3 * k + 2) == 2 * Pow(3, k)
  {
    if k == 0 {
      assert Best(2) == 2;
    } else if k == 1 {
      assert Pow(3, 0) == 1 && Pow(3, 1) == 3 && Best(5) == 6;
    } else {
      ClosedForm(k - 1);
      assert Best(3 * k) == 3 * Best(3 * (k - 1));
      assert Best(3 * k + 1) == 3 * Best(3 * (k - 1) + 1);
      assert Best(3 * k + 2) == 3 * Best(3 * (k - 1) + 2);
    }
  }

  // ---- The table ----

  /** What the inner loop computes for cut point `j`. */
  function Split(i: nat, j: nat): (p: nat)
    requires 1 <= j < i
    ensures p <= Best(i)
  {
    BestOfJoined(j, i - j);
    Best(j) * Best(i - j)
  }

  /** The largest of the splits of `i` at the cut points below `j`. */
  function MaxSplit(i: nat, j: nat): nat
    requires 1 <= j <= i
  {
    if j == 1 then 0
    else if MaxSplit(i, j - 1) < Split(i, j - 1) then Split(i, j - 1)
    else MaxSplit(i, j - 1)
  }

  lemma {:induction false} MaxSplitBounds(i: nat, j: nat)
    requires 1 <= j <= i
    ensures MaxSplit(i, j) <= Best(i)
    ensures forall k :: 1 <= k < j ==> Split(i, k) <= MaxSplit(i, j)
  {
    if j > 1 { MaxSplitBounds(i, j - 1); }
  }

  /** Some cut point that the inner loop tries reaches `Best(i)`. */
  lemma HalfReaches(i: nat)
    requires i >= 4
    ensures MaxSplit(i, i / 2 + 1) == Best(i)
    ensures exists j :: 1 <= j <= i / 2 && Split(i, j) == Best(i)
  {
    MaxSplitBounds(i, i / 2 + 1);
    if i <= 5 {
      assert Split(i, 2) == Best(i);
    } else {
      assert Split(i, 3) == Best(i);
    }
  }

  /** The first `n` entries of the table are the best products. */
  ghost predicate Filled(table: array<int>, n: nat)
    reads table
  {
    n <= table.Length && forall k :: 0 <= k < n ==> table[k] == Best(k)
  }

  /** The body of `maxproduct`, on unbounded integers; the lemmas below say when 32 bits hold every
      product. */
  method Table(length: nat) returns (max: int)
    ensures max == Best(length)
  {
    if length == 0 {
      return 0;
    } else if length == 1 {
      return 1;
    } else if length == 2 {
      return 2;
    } else if length == 3 {
      return 3;
    }

    var product := new int[length + 1](_ => 0);
    product[0] := 0;
    product[1] := 1;
    product[2] := 2;
    product[3] := 3;
    var i := 4;
    while i <= length
      invariant 4 <= i <= length + 1
      invariant Filled(product, i)
    {
      max := Entry(product, i);
      product[i] := max;
      i := i + 1;
    }
    max := product[length];
  }

  /** The inner loop: the best product for length `i` from the shorter lengths. */
  method Entry(product: array<int>, i: nat) returns (max: int)
    requires 4 <= i < product.Length && Filled(product, i)
    ensures max == Best(i)
  {
    max := 0;
    var j := 1;
    while j <= i / 2
      invariant 1 <= j <= i / 2 + 1
      invariant max == MaxSplit(i, j)
    {
      var tmp := product[j] * product[i - j];
      assert tmp == Split(i, j);
      if max < tmp {
        max := tmp;
      }
      j := j + 1;
    }
    HalfReaches(i);
  }

  /** `maxproduct`: for a rope that exists, the greatest product over all the ways to cut it. */
  method MaxProductOf(length: nat) returns (max: int)
    ensures max == Best(length)
    ensures length >= 1 ==> IsGreatest(max, length)
  {
    if length >= 1 { BestIsGreatest(length); }
    max := Table(length);
  }

  // ---- 32-bit products ----

  const INT_MAX: nat := 0x7fff_ffff

  /** Every product the loops form for this length fits a signed 32-bit int. */
  ghost predicate ProductsFit(length: nat) {
    forall i, j :: 4 <= i <= length && 1 <= j <= i / 2 ==> Split(i, j) <= INT_MAX
  }

  lemma ValueAt58And59()
    ensures Best(58) <= INT_MAX < Best(59)
  {
    assert Best(22) == 2916 && Best(23) == 4374;
    assert Best(40) == 2125764 && Best(41) == 3188646;
    assert Best(58) == 1549681956 && Best(59) == 2324522934;
  }

  /** No product overflows exactly up to length 58. */
  lemma FitsExactlyTo58(length: nat)
    ensures ProductsFit(length) <==> length <= 58
  {
    ValueAt58And59();
    if length <= 58 {
      forall i, j | 4 <= i <= length && 1 <= j <= i / 2 ensures Split(i, j) <= INT_MAX {
        BestMonotone(i, 58);
      }
    } else {
      HalfReaches(59);
    }
  }
}
