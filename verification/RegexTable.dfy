/** Matching a string against a pattern of characters, '.' and '*', by filling a table. */
module RegexTable {

  // ---- What a pattern means ----

  /** One character of the pattern and whether a '*' follows it. */
  datatype Item = Item(c: char, star: bool)

  predicate Fits(c: char, x: char) {
    c == '.' || c == x
  }

  /** The strings one item stands for. */
  ghost predicate InItem(item: Item, w: string) {
    && (forall i :: 0 <= i < |w| ==> Fits(item.c, w[i]))
    && (item.star || |w| == 1)
  }

  function Concat(parts: seq<string>): string {
    if parts == [] then "" else Concat(parts[..|parts| - 1]) + parts[|parts| - 1]
  }

  ghost predicate PartsFit(items: seq<Item>, parts: seq<string>) {
    |parts| == |items| && forall i :: 0 <= i < |items| ==> InItem(items[i], parts[i])
  }

  /** `s` is a concatenation of strings that the items stand for, one each, in order. */
  ghost predicate Matches(items: seq<Item>, s: string) {
    exists parts :: PartsFit(items, parts) && Concat(parts) == s
  }

  /** No '*' at the start and no two in a row. */
  predicate WellFormed(p: string) {
    && (p != "" ==> p[0] != '*')
    && forall i :: 0 < i < |p| && p[i] == '*' ==> p[i - 1] != '*'
  }

  function Items(p: string): seq<Item>
    requires WellFormed(p)
  {
    if p == "" then []
    else if p[|p| - 1] == '*' then Items(p[..|p| - 2]) + [Item(p[|p| - 2], true)]
    else Items(p[..|p| - 1]) + [Item(p[|p| - 1], false)]
  }

  // ---- What the table holds ----

  /** The cell for the first `i` characters of `s` and the first `j` of `p`. Row 0 is written only at
      column 0 and after each '*'; `unset` is what the rest of it held before. */
  function Cell(s: string, p: string, unset: int -> bool, i: nat, j: nat): bool
    requires i <= |s| && j <= |p|
    decreases j, i
  {
    if j == 0 then i == 0
    else if i == 0 then
      if j >= 2 && p[j - 1] == '*' then Cell(s, p, unset, 0, j - 2) else unset(j)
    else if p[j - 1] != '*' then
      (s[i - 1] == p[j - 1] || p[j - 1] == '.') && Cell(s, p, unset, i - 1, j - 1)
    else
      j >= 2 && (
        || Cell(s, p, unset, i, j - 2)
        || (Cell(s, p, unset, i - 1, j - 2) && (s[i - 1] == p[j - 2] || p[j - 2] == '.'))
        || (Cell(s, p, unset, i - 1, j) && (s[i - 1] == p[j - 2] || p[j - 2] == '.')))
  }

  /** The cells of row 0 that the code never writes. */
  predicate Unwritten(p: string, j: nat)
    requires j <= |p|
  {
    j >= 1 && !(j >= 2 && p[j - 1] == '*')
  }

  ghost predicate UnwrittenFalse(p: string, unset: int -> bool) {
    forall j :: 1 <= j <= |p| && Unwritten(p, j) ==> !unset(j)
  }

  /** Cell `k` of row 0 ends a plain item of the first `n` characters: the cells that count. */
  predicate Live(p: string, n: nat, k: nat)
    requires 1 <= k <= n <= |p|
  {
    p[k - 1] != '*' && (k == n || p[k] != '*')
  }

  ghost predicate LiveFalse(p: string, n: nat, unset: int -> bool)
    requires n <= |p|
  {
    forall k :: 1 <= k <= n && Live(p, n, k) ==> !unset(k)
  }

  // ---- Matching from the last item ----

  lemma PrefixWellFormed(p: string, j: nat)
    requires WellFormed(p) && j <= |p|
    ensures WellFormed(p[..j])
  {
  }

  lemma ConcatSnoc(parts: seq<string>, w: string)
    ensures Concat(parts + [w]) == Concat(parts) + w
  {
    assert (parts + [w])[..|parts|] == parts;
  }

  lemma SnocParts(items: seq<Item>, parts: seq<string>, item: Item, w: string)
    requires PartsFit(items, parts) && InItem(item, w)
    ensures Matches(items + [item], Concat(parts) + w)
  {
    ConcatSnoc(parts, w);
    assert PartsFit(items + [item], parts + [w]);
  }

  /** Taking the last item's share off the end. */
  lemma SplitLast(items: seq<Item>, item: Item, s: string) returns (k: nat)
    requires Matches(items + [item], s)
    ensures k <= |s| && Matches(items, s[..k]) && InItem(item, s[k..])
  {
    var parts :| PartsFit(items + [item], parts) && Concat(parts) == s;
    var front, w := parts[..|items|], parts[|items|];
    assert parts == front + [w];
    ConcatSnoc(front, w);
    k := |Concat(front)|;
    assert s[..k] == Concat(front) && s[k..] == w;
    assert InItem((items + [item])[|items|], w);
    assert PartsFit(items, front) by {
      forall i | 0 <= i < |items| ensures InItem(items[i], front[i]) {
        assert InItem((items + [item])[i], parts[i]);
      }
    }
  }

  lemma JoinLast(items: seq<Item>, item: Item, s: string, k: nat)
    requires k <= |s| && Matches(items, s[..k]) && InItem(item, s[k..])
    ensures Matches(items + [item], s)
  {
    var parts :| PartsFit(items, parts) && Concat(parts) == s[..k];
    SnocParts(items, parts, item, s[k..]);
    assert s[..k] + s[k..] == s;
  }

  lemma NoItems(s: string)
    ensures Matches([], s) <==> s == ""
  {
    assert PartsFit([], []) && Concat([]) == "";
  }

  lemma LastPlain(items: seq<Item>, c: char, s: string)
    ensures Matches(items + [Item(c, false)], s) <==>
      s != "" && Fits(c, s[|s| - 1]) && Matches(items, s[..|s| - 1])
  {
    if Matches(items + [Item(c, false)], s) {
      var k := SplitLast(items, Item(c, false), s);
      assert k == |s| - 1 && s[k..][0] == s[k];
    }
    if s != "" && Fits(c, s[|s| - 1]) && Matches(items, s[..|s| - 1]) {
      assert s[|s| - 1..] == [s[|s| - 1]];
      JoinLast(items, Item(c, false), s, |s| - 1);
    }
  }

  lemma LastStar(items: seq<Item>, c: char, s: string)
    ensures Matches(items + [Item(c, true)], s) <==>
      Matches(items, s) ||
      (s != "" && Fits(c, s[|s| - 1]) && Matches(items + [Item(c, true)], s[..|s| - 1]))
  {
    var item := Item(c, true);
    if Matches(items + [item], s) {
      var k := SplitLast(items, item, s);
      if k == |s| {
        assert s[..k] == s;
      } else {
        assert s[k..][|s| - 1 - k] == s[|s| - 1];
        var t := s[..|s| - 1];
        assert t[..k] == s[..k];
        forall i | 0 <= i < |t[k..]| ensures Fits(c, t[k..][i]) {
          assert t[k..][i] == s[k..][i];
        }
        JoinLast(items, item, t, k);
      }
    }
    if Matches(items, s) {
      assert s[..|s|] == s;
      JoinLast(items, item, s, |s|);
    }
    if s != "" && Fits(c, s[|s| - 1]) && Matches(items + [item], s[..|s| - 1]) {
      var t := s[..|s| - 1];
      var k := SplitLast(items, item, t);
      assert t[..k] == s[..k];
      forall i | 0 <= i < |s[k..]| ensures Fits(c, s[k..][i]) {
        if i < |s| - 1 - k { assert s[k..][i] == t[k..][i]; }
      }
      JoinLast(items, item, s, k);
    }
  }

  // ---- The table means matching ----

  lemma ItemsOfPlain(p: string, j: nat)
    requires WellFormed(p) && 1 <= j <= |p| && p[j - 1] != '*'
    ensures WellFormed(p[..j]) && WellFormed(p[..j - 1])
    ensures Items(p[..j]) == Items(p[..j - 1]) + [Item(p[j - 1], false)]
  {
    PrefixWellFormed(p, j);
    PrefixWellFormed(p, j - 1);
    assert p[..j][..j - 1] == p[..j - 1];
  }

  lemma ItemsOfStar(p: string, j: nat)
    requires WellFormed(p) && 1 <= j <= |p| && p[j - 1] == '*'
    ensures j >= 2 && WellFormed(p[..j]) && WellFormed(p[..j - 2])
    ensures Items(p[..j]) == Items(p[..j - 2]) + [Item(p[j - 2], true)]
  {
    PrefixWellFormed(p, j);
    PrefixWellFormed(p, j - 2);
    assert p[..j][..j - 2] == p[..j - 2];
  }

  /** With the cells that end plain items false, a cell holds exactly when the prefixes match. */
  lemma {:induction false} CellIsMatch(s: string, p: string, unset: int -> bool, i: nat, j: nat)
    requires WellFormed(p) && i <= |s| && j <= |p| && LiveFalse(p, j, unset)
    ensures WellFormed(p[..j])
    ensures Cell(s, p, unset, i, j) <==> Matches(Items(p[..j]), s[..i])
    decreases j, i
  {
    var t := s[..i];
    if j == 0 {
      NoItems(t);
    } else if p[j - 1] != '*' {
      ItemsOfPlain(p, j);
      LastPlain(Items(p[..j - 1]), p[j - 1], t);
      assert Live(p, j, j);
      LiveFalseBelow(p, j, unset, j - 1);
      if i > 0 {
        assert t[..i - 1] == s[..i - 1];
        CellIsMatch(s, p, unset, i - 1, j - 1);
      }
    } else {
      ItemsOfStar(p, j);
      var items := Items(p[..j - 2]);
      LastStar(items, p[j - 2], t);
      LiveFalseBelow(p, j, unset, j - 2);
      CellIsMatch(s, p, unset, i, j - 2);
      if i > 0 {
        assert t[..i - 1] == s[..i - 1];
        CellIsMatch(s, p, unset, i - 1, j);
        CellIsMatch(s, p, unset, i - 1, j - 2);
        LastStar(items, p[j - 2], s[..i - 1]);
      }
    }
  }

  lemma LiveFalseBelow(p: string, n: nat, unset: int -> bool, m: nat)
    requires m < n <= |p| && LiveFalse(p, n, unset) && p[m] != '*'
    ensures LiveFalse(p, m, unset)
  {
    forall k | 1 <= k <= m && Live(p, m, k) ensures !unset(k) {
      assert Live(p, n, k);
    }
  }

  // ---- When the result is right ----

  ghost predicate ResultRight(s: string, p: string, unset: int -> bool)
    requires WellFormed(p)
  {
    Cell(s, p, unset, |s|, |p|) <==> Matches(Items(p), s)
  }

  /** The characters of the plain items of `p` from `j` to `k`, which starts and ends between items:
      the shortest word of that part of the pattern. */
  function ShortWord(p: string, j: nat, k: nat): string
    requires WellFormed(p) && j <= k <= |p| && (j < |p| ==> p[j] != '*')
  {
    if k == j then ""
    else if p[k - 1] == '*' then ShortWord(p, j, k - 2)
    else ShortWord(p, j, k - 1) + [p[k - 1]]
  }

  /** From a true cell of row 0 the table says yes to the shortest word of what comes after. */
  lemma {:induction false} TrueCellSpreads(p: string, unset: int -> bool, j: nat, k: nat, s: string)
    requires WellFormed(p) && 1 <= j <= k <= |p| && Live(p, |p|, j) && unset(j)
    requires ShortWord(p, j, k) <= s
    ensures Cell(s, p, unset, |ShortWord(p, j, k)|, k)
  {
    if k > j {
      if p[k - 1] == '*' {
        TrueCellSpreads(p, unset, j, k - 2, s);
      } else {
        var w := ShortWord(p, j, k - 1);
        assert w <= s && s[|w|] == p[k - 1];
        TrueCellSpreads(p, unset, j, k - 1, s);
      }
    }
  }

  function PlainCount(items: seq<Item>): nat {
    if items == [] then 0
    else PlainCount(items[..|items| - 1]) + if items[|items| - 1].star then 0 else 1
  }

  /** Every plain item takes a character. */
  lemma {:induction false} MatchIsLong(items: seq<Item>, s: string)
    requires Matches(items, s)
    ensures |s| >= PlainCount(items)
  {
    if items != [] {
      var n := |items| - 1;
      assert items == items[..n] + [items[n]];
      var k := SplitLast(items[..n], items[n], s);
      MatchIsLong(items[..n], s[..k]);
    }
  }

  lemma {:induction false} PlainsBehind(p: string, j: nat, k: nat)
    requires WellFormed(p) && j <= k <= |p| && (j < |p| ==> p[j] != '*')
    ensures WellFormed(p[..j]) && WellFormed(p[..k])
    ensures PlainCount(Items(p[..k])) == PlainCount(Items(p[..j])) + |ShortWord(p, j, k)|
  {
    PrefixWellFormed(p, j);
    PrefixWellFormed(p, k);
    if k > j {
      if p[k - 1] == '*' {
        ItemsOfStar(p, k);
        PlainsBehind(p, j, k - 2);
      } else {
        ItemsOfPlain(p, k);
        PlainsBehind(p, j, k - 1);
      }
    }
  }

  /** The result is right for every string exactly when no cell that ends a plain item held true. */
  lemma ResultRightIffLiveFalse(p: string, unset: int -> bool)
    requires WellFormed(p)
    ensures (forall s :: ResultRight(s, p, unset)) <==> LiveFalse(p, |p|, unset)
  {
    assert p[..|p|] == p;
    if LiveFalse(p, |p|, unset) {
      forall s ensures ResultRight(s, p, unset) {
        assert s[..|s|] == s;
        CellIsMatch(s, p, unset, |s|, |p|);
      }
    } else {
      var j :| 1 <= j <= |p| && Live(p, |p|, j) && unset(j);
      var w := ShortWord(p, j, |p|);
      TrueCellSpreads(p, unset, j, |p|, w);
      PlainsBehind(p, j, |p|);
      ItemsOfPlain(p, j);
      assert PlainCount(Items(p)) > |w|;
      if Matches(Items(p), w) { MatchIsLong(Items(p), w); }
      assert !ResultRight(w, p, unset);
    }
  }

  ghost predicate AllStarred(p: string)
    requires WellFormed(p)
  {
    forall i :: 0 <= i < |Items(p)| ==> Items(p)[i].star
  }

  ghost predicate HasLive(p: string, n: nat)
    requires n <= |p|
  {
    exists k :: 1 <= k <= n && Live(p, n, k)
  }

  lemma HasLiveBelow(p: string, n: nat)
    requires WellFormed(p) && 2 <= n <= |p| && p[n - 1] == '*'
    ensures HasLive(p, n) <==> HasLive(p, n - 2)
  {
    if HasLive(p, n) {
      var k :| 1 <= k <= n && Live(p, n, k);
      assert k <= n - 2 && Live(p, n - 2, k);
    }
    if HasLive(p, n - 2) {
      var k :| 1 <= k <= n - 2 && Live(p, n - 2, k);
      assert Live(p, n, k);
    }
  }

  ghost predicate HasPlain(items: seq<Item>) {
    exists i :: 0 <= i < |items| && !items[i].star
  }

  lemma HasPlainSnoc(items: seq<Item>, item: Item)
    ensures HasPlain(items + [item]) <==> HasPlain(items) || !item.star
  {
    var more := items + [item];
    if HasPlain(items) {
      var i :| 0 <= i < |items| && !items[i].star;
      assert !more[i].star;
    }
    assert more[|items|] == item;
  }

  lemma {:induction false} LiveIffPlainItem(p: string, n: nat)
    requires WellFormed(p) && n <= |p|
    ensures WellFormed(p[..n])
    ensures HasLive(p, n) <==> HasPlain(Items(p[..n]))
  {
    PrefixWellFormed(p, n);
    if n > 0 {
      if p[n - 1] == '*' {
        ItemsOfStar(p, n);
        LiveIffPlainItem(p, n - 2);
        HasLiveBelow(p, n);
        HasPlainSnoc(Items(p[..n - 2]), Item(p[n - 2], true));
      } else {
        ItemsOfPlain(p, n);
        assert Live(p, n, n);
        HasPlainSnoc(Items(p[..n - 1]), Item(p[n - 1], false));
      }
    }
  }

  /** A caller can rely on the result, whatever the memory held, exactly for the patterns that have a
      '*' behind every character. */
  lemma RightForAnyMemoryIffAllStarred(p: string)
    requires WellFormed(p)
    ensures (forall unset, s :: ResultRight(s, p, unset)) <==> AllStarred(p)
  {
    assert p[..|p|] == p;
    LiveIffPlainItem(p, |p|);
    if AllStarred(p) {
      forall unset, s ensures ResultRight(s, p, unset) {
        ResultRightIffLiveFalse(p, unset);
      }
    } else {
      ResultRightIffLiveFalse(p, _ => true);
    }
  }

  // ---- When every cell is right ----

  /** Every cell means what it should, for every string, exactly when the unwritten cells of row 0
      happened to hold false. */
  lemma TableRightIffUnwrittenFalse(p: string, unset: int -> bool)
    requires WellFormed(p)
    ensures (forall s: string, i, j :: 0 <= i <= |s| && 0 <= j <= |p| ==> CellRight(s, p, unset, i, j))
      <==> UnwrittenFalse(p, unset)
  {
    if UnwrittenFalse(p, unset) {
      forall s: string, i, j | 0 <= i <= |s| && 0 <= j <= |p| ensures CellRight(s, p, unset, i, j) {
        assert LiveFalse(p, j, unset);
        CellIsMatch(s, p, unset, i, j);
      }
    } else {
      var j :| 1 <= j <= |p| && Unwritten(p, j) && unset(j);
      ItemsOfPlain(p, j);
      LastPlain(Items(p[..j - 1]), p[j - 1], "");
      assert ""[..0] == "";
      assert !CellRight("", p, unset, 0, j);
    }
  }

  ghost predicate CellRight(s: string, p: string, unset: int -> bool, i: nat, j: nat)
    requires WellFormed(p) && i <= |s| && j <= |p|
  {
    PrefixWellFormed(p, j);
    Cell(s, p, unset, i, j) <==> Matches(Items(p[..j]), s[..i])
  }

  // ---- The loops ----

  /** The first `n` cells of row `i` are filled in. */
  ghost predicate Row(dp: array2<bool>, s: string, p: string, unset: int -> bool, i: nat, n: nat)
    requires dp.Length0 == |s| + 1 && dp.Length1 == |p| + 1
    reads dp
  {
    i <= |s| && n <= |p| + 1 && forall k :: 0 <= k < n ==> dp[i, k] == Cell(s, p, unset, i, k)
  }

  /** `isMatch` with its two strings as parameters. `unset` stands for what the unwritten cells of
      the table's first row hold. */
  method IsMatch(s: string, p: string, unset: int -> bool) returns (res: bool)
    ensures res == Cell(s, p, unset, |s|, |p|)
    ensures WellFormed(p) && (LiveFalse(p, |p|, unset) || AllStarred(p)) ==> (res <==> Matches(Items(p), s))
  {
    var len1, len2 := |s|, |p|;
    var dp := new bool[len1 + 1, len2 + 1]((_, j) => unset(j));
    var i := 0;
    while i < len1 + 1
      invariant 0 <= i <= len1 + 1
      invariant forall k :: 0 <= k < i ==> !dp[k, 0]
      invariant forall j :: 1 <= j <= len2 ==> dp[0, j] == unset(j)
    {
      dp[i, 0] := false;
      i := i + 1;
    }
    dp[0, 0] := true;
    FillFirstRow(dp, s, p, unset);
    i := 0;
    while i < len1
      invariant 0 <= i <= len1
      invariant forall k :: i < k <= len1 ==> !dp[k, 0]
      invariant Row(dp, s, p, unset, i, len2 + 1)
    {
      FillRow(dp, s, p, unset, i);
      i := i + 1;
    }
    res := dp[len1, len2];
    if WellFormed(p) {
      ResultRightIffLiveFalse(p, unset);
      RightForAnyMemoryIffAllStarred(p);
      assert LiveFalse(p, |p|, unset) || AllStarred(p) ==> ResultRight(s, p, unset);
    }
  }

  /** The loop of lines 57-61 over row 0. */
  method FillFirstRow(dp: array2<bool>, s: string, p: string, unset: int -> bool)
    requires dp.Length0 == |s| + 1 && dp.Length1 == |p| + 1
    requires dp[0, 0] && forall j :: 1 <= j <= |p| ==> dp[0, j] == unset(j)
    modifies dp
    ensures Row(dp, s, p, unset, 0, |p| + 1)
    ensures forall h, k :: 1 <= h <= |s| && 0 <= k <= |p| ==> dp[h, k] == old(dp[h, k])
  {
    var j := 1;
    while j < |p|
      invariant 1 <= j && (|p| >= 1 ==> j <= |p|)
      invariant Row(dp, s, p, unset, 0, if j <= |p| then j + 1 else 1)
      invariant forall k :: j < k <= |p| ==> dp[0, k] == unset(k)
      invariant forall h, k :: 1 <= h <= |s| && 0 <= k <= |p| ==> dp[h, k] == old(dp[h, k])
    {
      if p[j] == '*' {
        dp[0, j + 1] := dp[0, j - 1];
      }
      j := j + 1;
    }
  }

  /** The inner loop of lines 63-76: row `i + 1` from row `i`. */
  method FillRow(dp: array2<bool>, s: string, p: string, unset: int -> bool, i: nat)
    requires dp.Length0 == |s| + 1 && dp.Length1 == |p| + 1 && i < |s|
    requires !dp[i + 1, 0] && Row(dp, s, p, unset, i, |p| + 1)
    modifies dp
    ensures Row(dp, s, p, unset, i + 1, |p| + 1)
    ensures forall h, k :: 0 <= h <= |s| && h != i + 1 && 0 <= k <= |p| ==> dp[h, k] == old(dp[h, k])
  {
    var j := 0;
    while j < |p|
      invariant 0 <= j <= |p|
      invariant Row(dp, s, p, unset, i + 1, j + 1)
      invariant forall h, k :: 0 <= h <= |s| && h != i + 1 && 0 <= k <= |p| ==> dp[h, k] == old(dp[h, k])
    {
      if p[j] != '*' {
        if s[i] == p[j] || p[j] == '.' {
          dp[i + 1, j + 1] := dp[i, j];
        } else {
          dp[i + 1, j + 1] := false;
        }
      } else {
        dp[i + 1, j + 1] := j > 0 && (dp[i + 1, j - 1] ||
          (dp[i, j - 1] && (s[i] == p[j - 1] || p[j - 1] == '.')) ||
          (dp[i, j + 1] && (s[i] == p[j - 1] || p[j - 1] == '.')));
      }
      j := j + 1;
    }
  }
}
