/** The names of the election's sequential nodes, `<id>-by-<ten digits>`, and what
    `split("-by-")` and `min` make of a list of them. */
module NodeNames {
  import opened Wrappers

  const SEP := "-by-"

  /** ZooKeeper keeps the counter of sequential nodes in a signed 32-bit integer. */
  const MAX_SEQ: nat := 0x7fff_ffff

  // ---- str.split ----

  /** Whether the separator stands at position `i` of `s`. */
  predicate SepAt(s: string, i: nat) {
    i + |SEP| <= |s| && s[i..i + |SEP|] == SEP
  }

  /** The first position at or after `from` where the separator stands, or `|s|`. */
  function FirstSep(s: string, from: nat): (i: nat)
    requires from <= |s|
    ensures from <= i <= |s|
    decreases |s| - from
  {
    if from == |s| || SepAt(s, from) then from else FirstSep(s, from + 1)
  }

  lemma {:induction false} FirstSepIsFirst(s: string, from: nat)
    requires from <= |s|
    ensures var i := FirstSep(s, from); i < |s| ==> SepAt(s, i)
    ensures forall k :: from <= k < FirstSep(s, from) ==> !SepAt(s, k)
    decreases |s| - from
  {
    if from < |s| && !SepAt(s, from) { FirstSepIsFirst(s, from + 1); }
  }

  /** `(s.split("-by-")[1], s.split("-by-")[0])`; None where index 1 is out of range. */
  function SplitName(s: string): Option<(string, string)> {
    var i := FirstSep(s, 0);
    if i + |SEP| > |s| then None
    else Some((s[i + |SEP|..FirstSep(s, i + |SEP|)], s[..i]))
  }

  // ---- Ten-digit sequence numbers ----

  function Pow10(k: nat): (p: nat)
    ensures p >= 1
  {
    if k == 0 then 1 else 10 * Pow10(k - 1)
  }

  function DigitChar(d: nat): char
    requires d < 10
  {
    '0' + d as char
  }

  /** The last `k` decimal digits of `n`, zero-padded. */
  function Digits(n: nat, k: nat): (s: string)
    ensures |s| == k
    ensures forall i :: 0 <= i < k ==> '0' <= s[i] <= '9'
  {
    if k == 0 then "" else Digits(n / 10, k - 1) + [DigitChar(n % 10)]
  }

  /** The number field of a name. */
  function SeqField(seqNo: nat): (s: string)
    ensures |s| == 10
    ensures forall i :: 0 <= i < 10 ==> '0' <= s[i] <= '9'
  {
    Digits(seqNo, 10)
  }

  function NodeName(id: string, seqNo: nat): string {
    id + SEP + SeqField(seqNo)
  }

  /** The first separator of a name made from `id` is the one the name was made with. */
  predicate PlainId(id: string) {
    FirstSep(id + SEP, 0) == |id|
  }

  // ---- Order on strings and on the tuples handed to min ----

  predicate StrLess(a: string, b: string) {
    if a == "" || b == "" then b != "" && a == ""
    else a[0] < b[0] || (a[0] == b[0] && StrLess(a[1..], b[1..]))
  }

  predicate TupleLess(p: (string, string), q: (string, string)) {
    StrLess(p.0, q.0) || (p.0 == q.0 && StrLess(p.1, q.1))
  }

  /** `min` of a list: the first entry that no later one is below. */
  function MinTuple(l: seq<(string, string)>): (r: (string, string))
    requires l != []
    ensures r in l
  {
    if |l| == 1 then l[0]
    else
      var r := MinTuple(l[..|l| - 1]);
      if TupleLess(l[|l| - 1], r) then l[|l| - 1] else r
  }

  /** `[(ins.split("-by-")[1], ins.split("-by-")[0]) for ins in names]`; None for the IndexError. */
  function SplitAll(names: seq<string>): Option<seq<(string, string)>> {
    if names == [] then Some([])
    else
      var first, rest := SplitName(names[0]), SplitAll(names[1..]);
      if first.Some? && rest.Some? then Some([first.value] + rest.value) else None
  }

  lemma {:induction false} SplitAllIs(names: seq<string>, l: seq<(string, string)>)
    requires |l| == |names| && forall i :: 0 <= i < |names| ==> SplitName(names[i]) == Some(l[i])
    ensures SplitAll(names) == Some(l)
  {
    if names != [] {
      SplitAllIs(names[1..], l[1..]);
      assert l == [l[0]] + l[1..];
    }
  }

  // ---- The separator and the digits ----

  lemma SepAtPrefix(s: string, t: string, i: nat)
    requires i + |SEP| <= |s|
    ensures SepAt(s + t, i) == SepAt(s, i)
  {
    assert (s + t)[i..i + |SEP|] == s[i..i + |SEP|];
  }

  lemma NoSepWithoutDash(s: string, k: nat)
    requires k < |s| && s[k] != '-'
    ensures !SepAt(s, k)
  {
    if k + |SEP| <= |s| {
      assert s[k..k + |SEP|][0] == s[k];
    }
  }

  lemma NoSepWithoutY(s: string, k: nat)
    requires k + 2 < |s| && s[k + 2] != 'y'
    ensures !SepAt(s, k)
  {
    if k + |SEP| <= |s| {
      assert s[k..k + |SEP|][2] == s[k + 2];
    }
  }

  /** No separator begins inside the ten digits. */
  lemma NoSepInDigits(id: string, seqNo: nat)
    ensures FirstSep(NodeName(id, seqNo), |id| + |SEP|) == |NodeName(id, seqNo)|
  {
    var s := NodeName(id, seqNo);
    forall k | |id| + |SEP| <= k < |s| ensures !SepAt(s, k) {
      assert s[k] == SeqField(seqNo)[k - |id| - |SEP|];
      NoSepWithoutDash(s, k);
    }
    FirstSepIsFirst(s, |id| + |SEP|);
  }

  /** Where the first separator stands does not depend on what follows the id's own one. */
  lemma FirstSepInHead(id: string, tail: string)
    ensures FirstSep(id + SEP + tail, 0) == FirstSep(id + SEP, 0) <= |id|
  {
    var head := id + SEP;
    FirstSepIsFirst(head, 0);
    FirstSepIsFirst(head + tail, 0);
    assert head[|id|..|id| + |SEP|] == SEP;
    assert SepAt(head, |id|);
    SepAtPrefix(head, tail, |id|);
    SepAtPrefix(head, tail, FirstSep(head, 0));
    SepAtPrefix(head, tail, FirstSep(head + tail, 0));
  }

  /** A name splits back into its parts exactly when its id is plain. A host called
      `stand-by-1` makes ids that are not. */
  lemma SplitsBackIffPlain(id: string, seqNo: nat)
    ensures SplitName(NodeName(id, seqNo)) == Some((SeqField(seqNo), id)) <==> PlainId(id)
  {
    var s := NodeName(id, seqNo);
    FirstSepInHead(id, SeqField(seqNo));
    var i := FirstSep(s, 0);
    assert |s[..i]| == i;
    if i == |id| {
      NoSepInDigits(id, seqNo);
      assert s[i + |SEP|..|s|] == SeqField(seqNo);
      assert s[..i] == id;
    }
  }

  lemma {:induction false} FirstSepIs(s: string, from: nat, i: nat)
    requires from <= i && SepAt(s, i) && forall k :: from <= k < i ==> s[k] != '-'
    ensures FirstSep(s, from) == i
    decreases i - from
  {
    if from < i {
      NoSepWithoutDash(s, from);
      FirstSepIs(s, from + 1, i);
    }
  }

  // ---- What names split into ----

  /** The part of an id before its first separator: all of it, if the id is plain. */
  function CutId(id: string): (cut: string)
    ensures cut == id <==> PlainId(id)
  {
    FirstSepInHead(id, "");
    assert |id[..FirstSep(id + SEP, 0)]| == FirstSep(id + SEP, 0);
    id[..FirstSep(id + SEP, 0)]
  }

  /** Every name of a node splits: into the cut id and some field, which is the sequence number's if
      the id is plain. */
  function NamePair(id: string, seqNo: nat): (p: (string, string))
    ensures SplitName(NodeName(id, seqNo)) == Some(p)
    ensures p.1 == CutId(id) && PlainId(p.1)
    ensures PlainId(id) ==> p == (SeqField(seqNo), id)
  {
    FirstSepInHead(id, SeqField(seqNo));
    SplitsBackIffPlain(id, seqNo);
    assert NodeName(id, seqNo)[..FirstSep(id + SEP, 0)] == id[..FirstSep(id + SEP, 0)];
    SplitIdIsPlain(NodeName(id, seqNo));
    SplitName(NodeName(id, seqNo)).value
  }

  /** The field of a name whose id is not plain does not depend on its number, or begins with 'b'. */
  lemma CutField(id: string, m: nat, n: nat)
    requires !PlainId(id)
    ensures var f, g := NamePair(id, m).0, NamePair(id, n).0;
      f == g || (f != "" && g != "" && f[0] == g[0] == 'b')
  {
    var i := FirstSep(id + SEP, 0);
    FirstSepInHead(id, "");
    if i + |SEP| <= |id| {
      FieldInHead(id, m, i);
      FieldInHead(id, n, i);
    } else {
      SepsOverlapInDash(id, i);
      FieldBeginsWithB(id, m, i);
      FieldBeginsWithB(id, n, i);
    }
  }

  lemma FieldInHead(id: string, n: nat, i: nat)
    requires FirstSep(id + SEP, 0) == i && i + |SEP| <= |id|
    ensures FirstSep(id + SEP, i + |SEP|) <= |id|
    ensures NamePair(id, n).0 == (id + SEP)[i + |SEP|..FirstSep(id + SEP, i + |SEP|)]
  {
    FirstSepInHead(id, SeqField(n));
    SecondSepInHead(id, SeqField(n), i + |SEP|);
    var j := FirstSep(id + SEP, i + |SEP|);
    assert NodeName(id, n)[i + |SEP|..j] == (id + SEP)[i + |SEP|..j];
  }

  lemma SepsOverlapInDash(id: string, i: nat)
    requires FirstSep(id + SEP, 0) == i < |id| < i + |SEP|
    ensures i + 3 == |id|
  {
    var head := id + SEP;
    FirstSepIsFirst(head, 0);
    var k := |id| - i;
    assert SEP[k] == head[i..i + |SEP|][k] == head[|id|] == '-';
  }

  lemma SecondSepInHead(id: string, tail: string, from: nat)
    requires from <= |id|
    ensures FirstSep(id + SEP + tail, from) == FirstSep(id + SEP, from) <= |id|
  {
    var head := id + SEP;
    FirstSepIsFirst(head, from);
    FirstSepIsFirst(head + tail, from);
    assert head[|id|..|id| + |SEP|] == SEP;
    assert SepAt(head, |id|);
    SepAtPrefix(head, tail, |id|);
    SepAtPrefix(head, tail, FirstSep(head, from));
    SepAtPrefix(head, tail, FirstSep(head + tail, from));
  }

  lemma FieldBeginsWithB(id: string, n: nat, i: nat)
    requires i + 3 == |id| && FirstSep(id + SEP, 0) == i
    ensures NamePair(id, n).0 != "" && NamePair(id, n).0[0] == 'b'
  {
    var s := NodeName(id, n);
    FirstSepInHead(id, SeqField(n));
    assert s[|id|..|id| + |SEP|] == SEP;
    assert s[i + |SEP|] == SEP[1] == 'b';
    NoSepWithoutDash(s, i + |SEP|);
    FirstSepIsFirst(s, i + |SEP|);
    assert FirstSep(s, i + |SEP|) > i + |SEP|;
  }

  // ---- Hosts whose ids are not plain ----

  /** The text of a uuid: no 'y' in it. */
  predicate UuidText(uuid: string) {
    forall i :: 0 <= i < |uuid| ==> uuid[i] != 'y'
  }

  /** The ids of worker 0 on a host named `stand-by-1` are cut behind `stand`, and what follows stands
      in the place of the sequence number. */
  lemma StandByHostIsCut(uuid: string, seqNo: nat)
    requires UuidText(uuid)
    ensures !PlainId("stand-by-1.0." + uuid)
    ensures NamePair("stand-by-1.0." + uuid, seqNo) == ("1.0." + uuid, "stand")
  {
    assert "stand-by-1.0." + uuid == "stand-by-" + ("1.0." + uuid);
    CutBehindStand("1.0." + uuid, seqNo);
  }

  /** On a host named `stand-by` there is no such separator. */
  lemma StandByAloneIsPlain(uuid: string)
    requires UuidText(uuid)
    ensures PlainId("stand-by.0." + uuid)
  {
    var s := "stand-by.0." + uuid + SEP;
    var n := |uuid| + 11;
    assert s[n..] == SEP && s[n..n + |SEP|] == SEP;
    assert SepAt(s, n) && s[8] == '.';
    assert forall m :: 0 <= m < 11 && m != 7 ==> "stand-by.0."[m] != 'y';
    forall k | 0 <= k < n ensures !SepAt(s, k) {
      if k == 5 {
        assert s[5..9][3] == s[8];
      } else {
        assert k + 2 < 11 ==> s[k + 2] == "stand-by.0."[k + 2];
        assert 11 <= k + 2 < n ==> s[k + 2] == uuid[k + 2 - 11];
        assert k + 2 >= n ==> s[k + 2] == s[n..n + |SEP|][k + 2 - n];
        NoSepWithoutY(s, k);
      }
    }
    FirstSepIsFirst(s, 0);
  }

  lemma CutBehindStand(rest: string, seqNo: nat)
    requires forall i :: 0 <= i < |rest| ==> rest[i] != 'y'
    ensures !PlainId("stand-by-" + rest)
    ensures NamePair("stand-by-" + rest, seqNo) == (rest, "stand")
  {
    var id := "stand-by-" + rest;
    var s := NodeName(id, seqNo);
    var n := |id|;
    assert s[5..9] == SEP && s[n..n + |SEP|] == SEP && s[..5] == "stand" && s[9..n] == rest;
    FirstSepIs(s, 0, 5);
    FirstSepInHead(id, SeqField(seqNo));
    assert SepAt(s, n);
    forall k | 9 <= k < n ensures !SepAt(s, k) {
      assert k + 2 < n ==> s[k + 2] == s[9..n][k + 2 - 9];
      assert k + 2 >= n ==> s[k + 2] == s[n..n + |SEP|][k + 2 - n];
      NoSepWithoutY(s, k);
    }
    FirstSepIsFirst(s, 9);
  }

  /** What comes out of a name as its id is always plain. */
  lemma SplitIdIsPlain(name: string)
    requires SplitName(name).Some?
    ensures PlainId(SplitName(name).value.1)
  {
    FirstSepIsFirst(name, 0);
    var i := FirstSep(name, 0);
    assert name == name[..i] + SEP + name[i + |SEP|..] by { SplitAround(name, i); }
    FirstSepInHead(name[..i], name[i + |SEP|..]);
  }

  lemma SplitAround(s: string, i: nat)
    requires SepAt(s, i)
    ensures s == s[..i] + SEP + s[i + |SEP|..]
  {
    assert s == s[..i] + s[i..i + |SEP|] + s[i + |SEP|..];
  }

  lemma {:induction false} SplitIdsArePlain(names: seq<string>, p: (string, string))
    requires SplitAll(names).Some? && p in SplitAll(names).value
    ensures PlainId(p.1)
  {
    SplitIdIsPlain(names[0]);
    if p != SplitName(names[0]).value { SplitIdsArePlain(names[1..], p); }
  }

  /** The listing makes `_elect` find `id` at its head. */
  predicate Elects(names: seq<string>, id: string) {
    SplitAll(names).Some? && SplitAll(names).value != [] && MinTuple(SplitAll(names).value).1 == id
  }

  /** An id can win an election exactly when it is plain: for any other id no listing of any names,
      by whomever they were created, makes its worker leader. */
  lemma ElectableIffPlain(id: string)
    ensures (exists names :: Elects(names, id)) <==> PlainId(id)
  {
    if PlainId(id) {
      SplitsBackIffPlain(id, 0);
      var names := [NodeName(id, 0)];
      SplitAllIs(names, [(SeqField(0), id)]);
      assert Elects(names, id);
    }
    forall names | Elects(names, id) ensures PlainId(id) {
      SplitIdsArePlain(names, MinTuple(SplitAll(names).value));
    }
  }

  // ---- String order is numeric order ----

  lemma {:induction false} StrLessSnoc(a: string, b: string, c: char, d: char)
    requires |a| == |b|
    ensures StrLess(a + [c], b + [d]) <==> StrLess(a, b) || (a == b && c < d)
  {
    if a == "" {
      assert ([c])[1..] == "" && ([d])[1..] == "";
      assert a + [c] == [c] && b + [d] == [d];
    } else {
      assert (a + [c])[1..] == a[1..] + [c];
      assert (b + [d])[1..] == b[1..] + [d];
      StrLessSnoc(a[1..], b[1..], c, d);
      assert a == b <==> a[0] == b[0] && a[1..] == b[1..] by {
        assert a == [a[0]] + a[1..] && b == [b[0]] + b[1..];
      }
    }
  }

  /** On numbers of at most `k` digits, the padded forms are ordered and distinguished as the numbers are. */
  lemma {:induction false} DigitsOrder(m: nat, n: nat, k: nat)
    requires m < Pow10(k) && n < Pow10(k)
    ensures StrLess(Digits(m, k), Digits(n, k)) <==> m < n
    ensures Digits(m, k) == Digits(n, k) <==> m == n
  {
    if k > 0 {
      DigitsOrder(m / 10, n / 10, k - 1);
      StrLessSnoc(Digits(m / 10, k - 1), Digits(n / 10, k - 1), DigitChar(m % 10), DigitChar(n % 10));
      var a, b := Digits(m / 10, k - 1), Digits(n / 10, k - 1);
      var c, d := DigitChar(m % 10), DigitChar(n % 10);
      assert a + [c] == b + [d] <==> a == b && c == d by {
        assert (a + [c])[..k - 1] == a && (b + [d])[..k - 1] == b;
        assert (a + [c])[k - 1] == c && (b + [d])[k - 1] == d;
      }
    }
  }

  lemma TenDigitsSuffice()
    ensures MAX_SEQ < Pow10(10)
  {
    assert Pow10(5) == 100_000;
    assert Pow10(10) == 10 * (10 * (10 * (10 * (10 * Pow10(5)))));
  }

  lemma SeqFieldOrder(m: nat, n: nat)
    requires m <= MAX_SEQ && n <= MAX_SEQ
    ensures StrLess(SeqField(m), SeqField(n)) <==> m < n
    ensures SeqField(m) == SeqField(n) <==> m == n
  {
    TenDigitsSuffice();
    DigitsOrder(m, n, 10);
  }

  lemma {:induction false} StrLessIrreflexive(s: string)
    ensures !StrLess(s, s)
  {
    if s != "" { StrLessIrreflexive(s[1..]); }
  }

  lemma {:induction false} StrLessTotal(a: string, b: string)
    ensures StrLess(a, b) || a == b || StrLess(b, a)
  {
    if a != "" && b != "" && a[0] == b[0] {
      StrLessTotal(a[1..], b[1..]);
      assert a == [a[0]] + a[1..] && b == [b[0]] + b[1..];
    }
  }

  lemma {:induction false} StrLessTransitive(a: string, b: string, c: string)
    requires StrLess(a, b) && StrLess(b, c)
    ensures StrLess(a, c)
  {
    if a != "" && a[0] == b[0] == c[0] { StrLessTransitive(a[1..], b[1..], c[1..]); }
  }

  lemma TupleLessTotal(p: (string, string), q: (string, string))
    ensures TupleLess(p, q) || p == q || TupleLess(q, p)
  {
    StrLessTotal(p.0, q.0);
    StrLessTotal(p.1, q.1);
  }

  lemma TupleLessTransitive(p: (string, string), q: (string, string), r: (string, string))
    requires TupleLess(p, q) && TupleLess(q, r)
    ensures TupleLess(p, r)
  {
    if StrLess(p.0, q.0) && StrLess(q.0, r.0) { StrLessTransitive(p.0, q.0, r.0); }
    if StrLess(p.1, q.1) && StrLess(q.1, r.1) { StrLessTransitive(p.1, q.1, r.1); }
  }

  lemma TupleLessIrreflexive(p: (string, string))
    ensures !TupleLess(p, p)
  {
    StrLessIrreflexive(p.0);
    StrLessIrreflexive(p.1);
  }

  /** `min` finds an entry that no entry is below, whatever the strings. */
  lemma {:induction false} MinTupleIsMinimal(l: seq<(string, string)>)
    requires l != []
    ensures MinTuple(l) in l && forall i :: 0 <= i < |l| ==> !TupleLess(l[i], MinTuple(l))
  {
    var n := |l| - 1;
    TupleLessIrreflexive(l[n]);
    if n > 0 {
      var r := MinTuple(l[..n]);
      MinTupleIsMinimal(l[..n]);
      forall i | 0 <= i < n ensures !TupleLess(l[i], MinTuple(l)) {
        assert l[i] == l[..n][i];
        if TupleLess(l[n], r) && TupleLess(l[i], l[n]) { TupleLessTransitive(l[i], l[n], r); }
      }
    }
  }

  /** So it is the only such entry, in whatever order they are listed. */
  lemma MinTupleIs(l: seq<(string, string)>, p: (string, string))
    requires p in l && forall i :: 0 <= i < |l| ==> !TupleLess(l[i], p)
    ensures MinTuple(l) == p
  {
    MinTupleIsMinimal(l);
    TupleLessTotal(MinTuple(l), p);
  }
}
