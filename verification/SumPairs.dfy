/** Pairs with a given sum: the two-pointer sweep of `getSumB` finds a maximum matching. */
module SumPairs {

  // ---- std::sort ----

  predicate Sorted(s: seq<int>) {
    forall i, j :: 0 <= i <= j < |s| ==> s[i] <= s[j]
  }

  function Insert(x: int, s: seq<int>): (r: seq<int>)
    ensures multiset(r) == multiset(s) + multiset{x}
    ensures r != [] && (r[0] == x || (s != [] && r[0] == s[0]))
  {
    if s == [] || x <= s[0] then
      [x] + s
    else
      assert s == [s[0]] + s[1..];
      [s[0]] + Insert(x, s[1..])
  }

  lemma {:induction false} InsertSorts(x: int, s: seq<int>)
    requires Sorted(s)
    ensures Sorted(Insert(x, s))
  {
    if s != [] && s[0] < x {
      InsertSorts(x, s[1..]);
      var rest := Insert(x, s[1..]);
      assert s[0] <= rest[0];
    }
  }

  /** A sorted rearrangement: what `std::sort` leaves in the vector. */
  function SortedCopy(s: seq<int>): (r: seq<int>)
    ensures Sorted(r) && multiset(r) == multiset(s) && |r| == |s|
  {
    if s == [] then []
    else
      assert s == [s[0]] + s[1..];
      var r := Insert(s[0], SortedCopy(s[1..]));
      InsertSorts(s[0], SortedCopy(s[1..]));
      assert |r| == |multiset(r)| == |multiset(s)| == |s|;
      r
  }

  method Sort(a: seq<int>) returns (s: seq<int>)
    ensures Sorted(s) && multiset(s) == multiset(a) && |s| == |a|
  {
    s := SortedCopy(a);
  }

  // ---- Matchings ----

  type Pair = (int, int)

  predicate Apart(p: Pair, q: Pair) {
    p.0 != q.0 && p.0 != q.1 && p.1 != q.0 && p.1 != q.1
  }

  /** Pairs of different positions in [lo, hi), each summing to the target, no position used twice. */
  ghost predicate Matching(s: seq<int>, target: int, lo: int, hi: int, m: set<Pair>) {
    && 0 <= lo && hi <= |s|
    && (forall p :: p in m ==> lo <= p.0 < hi && lo <= p.1 < hi && p.0 != p.1 && s[p.0] + s[p.1] == target)
    && (forall p, q :: p in m && q in m && p != q ==> Apart(p, q))
  }

  /** How many pairs the sweep finds from `left` and `right` on. */
  function Swept(s: seq<int>, target: int, left: int, right: int): nat
    requires 0 <= left && right < |s|
    decreases right - left
  {
    if left >= right then 0
    else if s[left] + s[right] == target then 1 + Swept(s, target, left + 1, right - 1)
    else if s[left] + s[right] < target then Swept(s, target, left + 1, right)
    else Swept(s, target, left, right - 1)
  }

  lemma SubMatching(s: seq<int>, target: int, lo: int, hi: int, lo': int, hi': int, m: set<Pair>, k: set<Pair>)
    requires Matching(s, target, lo, hi, m) && k <= m && lo <= lo' && hi' <= hi
    requires forall p :: p in k ==> lo' <= p.0 < hi' && lo' <= p.1 < hi'
    ensures Matching(s, target, lo', hi', k)
  {
  }

  /** A position takes part in at most one pair. */
  lemma AtMostOneTouches(s: seq<int>, target: int, lo: int, hi: int, m: set<Pair>, x: int) returns (touching: set<Pair>)
    requires Matching(s, target, lo, hi, m)
    ensures touching == (set p | p in m && (p.0 == x || p.1 == x))
    ensures |touching| <= 1
    ensures touching != {} ==> exists p :: p in m && touching == {p}
  {
    touching := set p | p in m && (p.0 == x || p.1 == x);
    if touching != {} {
      var p :| p in touching;
      assert forall q :: q in touching && q != p ==> Apart(p, q);
      assert touching == {p};
    }
  }

  function Other(p: Pair, x: int): int {
    if p.0 == x then p.1 else p.0
  }

  /** The partners freed by giving `l` and `r` to each other sum to the target as well. */
  lemma FreedPartners(s: seq<int>, target: int, l: int, r: int, m: set<Pair>, p: Pair, q: Pair) returns (k: set<Pair>)
    requires 0 <= l < r < |s| && s[l] + s[r] == target
    requires Matching(s, target, l, r + 1, m) && p in m && q in m && p != q
    requires (p.0 == l || p.1 == l) && (q.0 == r || q.1 == r)
    requires forall o :: o in m && o != p && o != q ==> l < o.0 < r && l < o.1 < r
    ensures Matching(s, target, l + 1, r, k) && |m| == |k| + 1
  {
    var rest := m - {p, q};
    SubMatching(s, target, l, r + 1, l + 1, r, m, rest);
    assert Apart(p, q);
    var freed := (Other(p, l), Other(q, r));
    forall o | o in rest ensures Apart(o, freed) && Apart(freed, o) {
      assert Apart(o, p) && Apart(o, q);
    }
    assert freed !in rest;
    k := rest + {freed};
    assert m == rest + {p, q};
  }

  /** A matching on [l, r] loses at most one pair when both ends, which sum to the target, are
      given to each other. */
  lemma ExchangeEnds(s: seq<int>, target: int, l: int, r: int, m: set<Pair>) returns (k: set<Pair>)
    requires 0 <= l < r < |s| && s[l] + s[r] == target
    requires Matching(s, target, l, r + 1, m)
    ensures Matching(s, target, l + 1, r, k) && |m| <= |k| + 1
  {
    var tl := AtMostOneTouches(s, target, l, r + 1, m, l);
    var tr := AtMostOneTouches(s, target, l, r + 1, m, r);
    if tl == {} || tr == {} || tl == tr {
      var ends := tl + tr;
      k := m - ends;
      SubMatching(s, target, l, r + 1, l + 1, r, m, k);
      assert ends == tl || ends == tr;
      SetBound(m, k, ends);
    } else {
      var p :| p in m && tl == {p};
      var q :| q in m && tr == {q};
      assert p in tl && q in tr;
      forall o | o in m && o != p && o != q ensures l < o.0 < r && l < o.1 < r {
        assert o !in tl && o !in tr;
      }
      k := FreedPartners(s, target, l, r, m, p, q);
    }
  }

  lemma SetBound(m: set<Pair>, rest: set<Pair>, extra: set<Pair>)
    requires m <= rest + extra
    ensures |m| <= |rest| + |extra|
  {
    var u := rest + extra;
    assert |u| <= |rest| + |extra| by {
      assert |u| == |rest| + |extra| - |rest * extra|;
    }
    assert |m| <= |u| by {
      assert u == m + (u - m);
    }
  }

  /** An end too small for the other end is too small for every partner. */
  lemma DropLeft(s: seq<int>, target: int, l: int, r: int, m: set<Pair>)
    requires Sorted(s) && 0 <= l < r < |s| && s[l] + s[r] < target
    requires Matching(s, target, l, r + 1, m)
    ensures Matching(s, target, l + 1, r + 1, m)
  {
    forall p | p in m ensures l + 1 <= p.0 && l + 1 <= p.1 {
      assert s[p.0] <= s[r] && s[p.1] <= s[r];
    }
  }

  lemma DropRight(s: seq<int>, target: int, l: int, r: int, m: set<Pair>)
    requires Sorted(s) && 0 <= l < r < |s| && s[l] + s[r] > target
    requires Matching(s, target, l, r + 1, m)
    ensures Matching(s, target, l, r, m)
  {
    forall p | p in m ensures p.0 < r && p.1 < r {
      assert s[l] <= s[p.0] && s[l] <= s[p.1];
    }
  }

  /** No matching on [l, r] is larger than what the sweep finds there. */
  lemma {:induction false} SweepIsMaximum(s: seq<int>, target: int, l: int, r: int, m: set<Pair>)
    requires Sorted(s) && 0 <= l <= r + 1 && r < |s|
    requires Matching(s, target, l, r + 1, m)
    ensures |m| <= Swept(s, target, l, r)
    decreases r - l
  {
    if l >= r {
      assert m == {};
    } else if s[l] + s[r] == target {
      var k := ExchangeEnds(s, target, l, r, m);
      SweepIsMaximum(s, target, l + 1, r - 1, k);
    } else if s[l] + s[r] < target {
      DropLeft(s, target, l, r, m);
      SweepIsMaximum(s, target, l + 1, r, m);
    } else {
      DropRight(s, target, l, r, m);
      SweepIsMaximum(s, target, l, r - 1, m);
    }
  }

  // ---- The sweep ----

  function Positions(pairs: seq<Pair>): set<Pair> {
    set i | 0 <= i < |pairs| :: pairs[i]
  }

  ghost predicate AtMost(s: seq<int>, target: int, bound: nat) {
    forall m :: Matching(s, target, 0, |s|, m) ==> |m| <= bound
  }

  lemma SweptIsBound(s: seq<int>, target: int)
    requires Sorted(s) && s != []
    ensures AtMost(s, target, Swept(s, target, 0, |s| - 1))
  {
    forall m | Matching(s, target, 0, |s|, m) ensures |m| <= Swept(s, target, 0, |s| - 1) {
      SweepIsMaximum(s, target, 0, |s| - 1, m);
    }
  }

  /** The pairs found with `left` and `right` still to go: outside them and apart. */
  ghost predicate Found(s: seq<int>, target: int, at: seq<Pair>, left: int, right: int) {
    && (forall i :: 0 <= i < |at| ==>
          0 <= at[i].0 < left && right < at[i].1 < |s| && at[i].0 < at[i].1 && s[at[i].0] + s[at[i].1] == target)
    && (forall i, j :: 0 <= i < j < |at| ==> Apart(at[i], at[j]))
  }

  /** Each line holds the numbers at the positions of its pair. */
  ghost predicate LinesRead(s: seq<int>, lines: seq<(int, int)>, at: seq<Pair>) {
    && |lines| == |at|
    && forall i :: 0 <= i < |at| ==> 0 <= at[i].0 < |s| && 0 <= at[i].1 < |s| && lines[i] == (s[at[i].0], s[at[i].1])
  }

  lemma FoundOneMore(s: seq<int>, target: int, at: seq<Pair>, left: int, right: int)
    requires Found(s, target, at, left, right)
    requires 0 <= left < right < |s| && s[left] + s[right] == target
    ensures Found(s, target, at + [(left, right)], left + 1, right - 1)
  {
  }

  lemma FoundStill(s: seq<int>, target: int, at: seq<Pair>, left: int, right: int, left': int, right': int)
    requires Found(s, target, at, left, right) && left <= left' && right' <= right
    ensures Found(s, target, at, left', right')
  {
  }

  lemma FoundIsMatching(s: seq<int>, target: int, at: seq<Pair>, left: int, right: int)
    requires Found(s, target, at, left, right)
    ensures Matching(s, target, 0, |s|, Positions(at)) && |Positions(at)| == |at|
  {
    PositionsCount(at);
  }

  /** `getSumB`. The vector comes by value and is sorted into `s`; `lines` holds the two numbers of
      each printed line, and `at` the positions in `s` they were read from. */
  method GetSumB(a: seq<int>, target: int) returns (lines: seq<(int, int)>, at: seq<Pair>, s: seq<int>)
    requires a != []
    ensures Sorted(s) && multiset(s) == multiset(a) && |s| == |a|
    ensures Matching(s, target, 0, |s|, Positions(at)) && |Positions(at)| == |at|
    ensures LinesRead(s, lines, at)
    ensures AtMost(s, target, |at|)
  {
    s := Sort(a);
    lines, at := Sweep(s, target);
  }

  /** The loop of `getSumB`. */
  method Sweep(s: seq<int>, target: int) returns (lines: seq<(int, int)>, at: seq<Pair>)
    requires Sorted(s) && s != []
    ensures Matching(s, target, 0, |s|, Positions(at)) && |Positions(at)| == |at|
    ensures LinesRead(s, lines, at)
    ensures AtMost(s, target, |at|)
  {
    var left, right := 0, |s| - 1;
    lines, at := [], [];
    while left < right
      invariant 0 <= left <= right + 1 && right < |s|
      invariant |at| + Swept(s, target, left, right) == Swept(s, target, 0, |s| - 1)
      invariant Found(s, target, at, left, right)
      invariant LinesRead(s, lines, at)
      decreases right - left
    {
      if s[left] + s[right] == target {
        FoundOneMore(s, target, at, left, right);
        lines, at := lines + [(s[left], s[right])], at + [(left, right)];
        left := left + 1;
        right := right - 1;
      } else if s[left] + s[right] < target {
        FoundStill(s, target, at, left, right, left + 1, right);
        left := left + 1;
      } else {
        FoundStill(s, target, at, left, right, left, right - 1);
        right := right - 1;
      }
    }
    FoundIsMatching(s, target, at, left, right);
    SweptIsBound(s, target);
  }

  // ---- 32-bit sums ----

  const INT_MIN: int := -0x8000_0000
  const INT_MAX: int := 0x7fff_ffff

  predicate IsInt(x: int) {
    INT_MIN <= x <= INT_MAX
  }

  /** The sums that the sweep compares with the target from `left` and `right` on. */
  function Compared(s: seq<int>, target: int, left: int, right: int): set<int>
    requires 0 <= left && right < |s|
    decreases right - left
  {
    if left >= right then {}
    else
      var sum := s[left] + s[right];
      {sum} + (if sum == target then Compared(s, target, left + 1, right - 1)
               else if sum < target then Compared(s, target, left + 1, right)
               else Compared(s, target, left, right - 1))
  }

  lemma {:induction false} ComparedBetweenEnds(s: seq<int>, target: int, left: int, right: int)
    requires Sorted(s) && |s| >= 2 && 0 <= left && right < |s|
    ensures forall x :: x in Compared(s, target, left, right) ==> s[0] + s[1] <= x <= s[|s| - 2] + s[|s| - 1]
    decreases right - left
  {
    if left < right {
      var sum := s[left] + s[right];
      if sum == target { ComparedBetweenEnds(s, target, left + 1, right - 1); }
      else if sum < target { ComparedBetweenEnds(s, target, left + 1, right); }
      else { ComparedBetweenEnds(s, target, left, right - 1); }
    }
  }

  /** All the sums that the sweep computes. */
  function Sums(s: seq<int>, target: int): set<int>
    requires s != []
  {
    Compared(s, target, 0, |s| - 1)
  }

  predicate SumsFit(s: seq<int>, target: int)
    requires s != []
  {
    forall x :: x in Sums(s, target) ==> IsInt(x)
  }

  /** If the sums of the two smallest numbers and of the two largest fit an `int`, so does every sum that
      the sweep computes, for every target: its comparisons are those of the unbounded sums. */
  lemma SumsFitIfEndsFit(s: seq<int>, target: int)
    requires Sorted(s) && |s| >= 2 && IsInt(s[0] + s[1]) && IsInt(s[|s| - 2] + s[|s| - 1])
    ensures SumsFit(s, target)
  {
    ComparedBetweenEnds(s, target, 0, |s| - 1);
  }

  /** That is not necessary: here the two smallest overflow, but no target brings the sweep to them. */
  lemma EndsNeedNotFit(target: int)
    requires IsInt(target)
    ensures var s := [INT_MIN, -1, 0]; Sorted(s) && !IsInt(s[0] + s[1]) && SumsFit(s, target)
  {
    var s := [INT_MIN, -1, 0];
    assert Compared(s, target, 1, 1) == {} && Compared(s, target, 2, 2) == {};
    assert Compared(s, target, 1, 2) <= {-1};
    assert Compared(s, target, 0, 2) <= {INT_MIN, -1};
  }

  /** The sweep for `target` stays to the right of the one for `min`, which has reached `low` with the
      same `right`: if that one computes no sum below `min`, neither does this one. */
  lemma {:induction false} NoneBelow(s: seq<int>, min: int, target: int, low: int, left: int, right: int)
    requires Sorted(s) && 0 <= low <= left && right < |s| && min <= target
    requires forall x :: x in Compared(s, min, low, right) ==> min <= x
    ensures forall x :: x in Compared(s, target, left, right) ==> min <= x
    decreases right - left
  {
    if left < right {
      var sum, least := s[left] + s[right], s[low] + s[right];
      assert least in Compared(s, min, low, right);
      var next := if least == min then low + 1 else low;
      if sum == target {
        NoneBelow(s, min, target, next, left + 1, right - 1);
      } else if sum < target {
        NoneBelow(s, min, target, low, left + 1, right);
      } else {
        NoneBelow(s, min, target, next, left, right - 1);
      }
    }
  }

  /** And it stays to the left of the one for `max`. */
  lemma {:induction false} NoneAbove(s: seq<int>, max: int, target: int, left: int, right: int, high: int)
    requires Sorted(s) && 0 <= left && right <= high < |s| && target <= max
    requires forall x :: x in Compared(s, max, left, high) ==> x <= max
    ensures forall x :: x in Compared(s, target, left, right) ==> x <= max
    decreases right - left
  {
    if left < right {
      var sum, greatest := s[left] + s[right], s[left] + s[high];
      assert greatest in Compared(s, max, left, high);
      var next := if greatest == max then high - 1 else high;
      if sum == target {
        NoneAbove(s, max, target, left + 1, right - 1, next);
      } else if sum < target {
        NoneAbove(s, max, target, left + 1, right, next);
      } else {
        NoneAbove(s, max, target, left, right - 1, high);
      }
    }
  }

  lemma ExtremesSuffice(s: seq<int>, min: int, max: int, target: int)
    requires Sorted(s) && s != [] && min <= target <= max
    requires forall x :: x in Sums(s, min) ==> min <= x
    requires forall x :: x in Sums(s, max) ==> x <= max
    ensures forall x :: x in Sums(s, target) ==> min <= x <= max
  {
    var end := |s| - 1;
    assert forall x :: x in Compared(s, min, 0, end) ==> x in Sums(s, min);
    assert forall x :: x in Compared(s, max, 0, end) ==> x in Sums(s, max);
    NoneBelow(s, min, target, 0, 0, end);
    NoneAbove(s, max, target, 0, end, end);
  }

  /** For one vector: no target that is an `int` makes the sweep overflow exactly when the smallest `int`
      and the largest do not. */
  lemma SumsFitIffExtremesFit(s: seq<int>)
    requires Sorted(s) && s != []
    ensures (forall target :: IsInt(target) ==> SumsFit(s, target)) <==> SumsFit(s, INT_MIN) && SumsFit(s, INT_MAX)
  {
    if SumsFit(s, INT_MIN) && SumsFit(s, INT_MAX) {
      forall target | IsInt(target) ensures SumsFit(s, target) {
        ExtremesSuffice(s, INT_MIN, INT_MAX, target);
      }
    }
  }

  /** A vector after sorting, with numbers from `lo` to `hi`. */
  ghost predicate SortedWithin(s: seq<int>, lo: int, hi: int) {
    Sorted(s) && s != [] && forall i :: 0 <= i < |s| ==> lo <= s[i] <= hi
  }

  /** For a range of numbers: no vector with numbers from it, and no target, makes the sweep overflow
      exactly when twice its bounds fit. */
  lemma RangeFitsIffDoubleFits(lo: int, hi: int)
    requires INT_MIN <= lo <= hi <= INT_MAX
    ensures (forall s, target :: SortedWithin(s, lo, hi) && IsInt(target) ==> SumsFit(s, target)) <==>
      INT_MIN <= 2 * lo && 2 * hi <= INT_MAX
  {
    if INT_MIN <= 2 * lo && 2 * hi <= INT_MAX {
      forall s, target | SortedWithin(s, lo, hi) && IsInt(target) ensures SumsFit(s, target) {
        if |s| >= 2 { SumsFitIfEndsFit(s, target); }
      }
    } else {
      assert SortedWithin([lo, lo], lo, hi) && 2 * lo in Sums([lo, lo], 0);
      assert SortedWithin([hi, hi], lo, hi) && 2 * hi in Sums([hi, hi], 0);
      assert SumsFit([lo, lo], 0) ==> IsInt(2 * lo);
      assert SumsFit([hi, hi], 0) ==> IsInt(2 * hi);
    }
  }

  lemma {:induction false} PositionsCount(at: seq<Pair>)
    requires forall i, j :: 0 <= i < j < |at| ==> Apart(at[i], at[j])
    ensures |Positions(at)| == |at|
  {
    if at != [] {
      var n := |at| - 1;
      PositionsCount(at[..n]);
      assert Positions(at) == Positions(at[..n]) + {at[n]};
      assert at[n] !in Positions(at[..n]);
    }
  }

  /** The printed pairs are a matching of a sorted copy of `a`, and none is larger. */
  ghost predicate Answers(a: seq<int>, target: int, lines: seq<(int, int)>) {
    exists s, at :: AnswersIn(a, target, lines, s, at)
  }

  /** The lines were read at the positions `at` of the sorted copy `s`, no position twice. */
  ghost predicate AnswersIn(a: seq<int>, target: int, lines: seq<(int, int)>, s: seq<int>, at: seq<Pair>) {
    && Sorted(s) && multiset(s) == multiset(a)
    && Matching(s, target, 0, |s|, Positions(at)) && |Positions(at)| == |at|
    && LinesRead(s, lines, at) && AtMost(s, target, |lines|)
  }

  /** `func`: nothing for an empty vector, otherwise one sweep for each target. */
  method Func(a: seq<int>, b: seq<int>) returns (out: seq<seq<(int, int)>>)
    ensures |out| == if a == [] then 0 else |b|
    ensures forall t :: 0 <= t < |out| ==> Answers(a, b[t], out[t])
  {
    out := [];
    if a == [] || b == [] { return; }
    for t := 0 to |b|
      invariant |out| == t
      invariant forall u :: 0 <= u < t ==> Answers(a, b[u], out[u])
    {
      var lines, at, s := GetSumB(a, b[t]);
      assert AnswersIn(a, b[t], lines, s, at);
      out := out + [lines];
    }
  }
}
