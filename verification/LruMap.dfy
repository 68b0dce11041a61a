/** The LRU map: what its recency list holds after any run of operations, how two capacities
    compare, and the class with its map and its list of stored positions. */
module LruMap {
  import opened Wrappers

  // ---- The recency list ----

  /** Most recent first. */
  type Items<K, V> = seq<(K, V)>

  ghost predicate DistinctKeys<K, V>(l: Items<K, V>) {
    forall i, j :: 0 <= i < j < |l| ==> l[i].0 != l[j].0
  }

  /** Where `k` is in the list; its length if it is not there. */
  function KeyIndex<K(==), V>(l: Items<K, V>, k: K): (p: nat)
    ensures p <= |l|
    ensures p < |l| ==> l[p].0 == k
    ensures forall i :: 0 <= i < p ==> l[i].0 != k
  {
    if l == [] || l[0].0 == k then 0 else 1 + KeyIndex(l[1..], k)
  }

  predicate HasKey<K(==), V>(l: Items<K, V>, k: K) {
    KeyIndex(l, k) < |l|
  }

  function Lookup<K(==), V>(l: Items<K, V>, k: K): Option<V> {
    if HasKey(l, k) then Some(l[KeyIndex(l, k)].1) else None
  }

  function Remove<K(==), V>(l: Items<K, V>, k: K): Items<K, V> {
    var p := KeyIndex(l, k);
    if p < |l| then l[..p] + l[p + 1..] else l
  }

  function Found<K(==), V>(l: Items<K, V>, k: K): Items<K, V> {
    match Lookup(l, k)
    case None => l
    case Some(v) => [(k, v)] + Remove(l, k)
  }

  function Added<K(==), V>(max: nat, l: Items<K, V>, k: K, v: V): Items<K, V> {
    var longer := [(k, v)] + Remove(l, k);
    if |longer| > max then longer[..|longer| - 1] else longer
  }

  datatype Op<K, V> = Find(k: K) | Add(k: K, v: V) | Erase(k: K)

  function Step<K(==), V>(max: nat, l: Items<K, V>, op: Op<K, V>): Items<K, V> {
    match op
    case Find(k) => Found(l, k)
    case Add(k, v) => Added(max, l, k, v)
    case Erase(k) => Remove(l, k)
  }

  function Exec<K(==), V>(max: nat, ops: seq<Op<K, V>>): Items<K, V> {
    if ops == [] then [] else Step(max, Exec(max, ops[..|ops| - 1]), ops[|ops| - 1])
  }

  // ---- Lookup and Remove ----

  lemma KeyAt<K, V>(l: Items<K, V>, i: nat)
    requires DistinctKeys(l) && i < |l|
    ensures KeyIndex(l, l[i].0) == i && HasKey(l, l[i].0) && Lookup(l, l[i].0) == Some(l[i].1)
  {
  }

  lemma {:induction false} RemoveShifts<K, V>(l: Items<K, V>, k: K)
    ensures var r := Remove(l, k);
      && |r| == (if HasKey(l, k) then |l| - 1 else |l|)
      && forall i :: 0 <= i < |r| ==> r[i] == l[if i < KeyIndex(l, k) then i else i + 1]
  {
  }

  lemma RemoveKeeps<K, V>(l: Items<K, V>, k: K)
    requires DistinctKeys(l)
    ensures DistinctKeys(Remove(l, k)) && !HasKey(Remove(l, k), k)
    ensures |Remove(l, k)| == if HasKey(l, k) then |l| - 1 else |l|
    ensures forall i :: 0 <= i < |Remove(l, k)| ==> Remove(l, k)[i].0 != k
  {
    RemoveShifts(l, k);
    var r, p := Remove(l, k), KeyIndex(l, k);
    forall i | 0 <= i < |r| ensures r[i].0 != k {
      if i >= p { assert l[p].0 != l[i + 1].0; }
    }
    forall i, j | 0 <= i < j < |r| ensures r[i].0 != r[j].0 {
      assert l[if i < p then i else i + 1].0 != l[if j < p then j else j + 1].0;
    }
  }

  lemma RemoveCons<K, V>(l: Items<K, V>, k: K)
    requires l != []
    ensures Remove(l, k) == if l[0].0 == k then l[1..] else [l[0]] + Remove(l[1..], k)
  {
    var p := KeyIndex(l[1..], k);
    if l[0].0 != k && p < |l| - 1 {
      assert l[..p + 1] == [l[0]] + l[1..][..p];
      assert l[p + 2..] == l[1..][p + 1..];
    }
  }

  // ---- Every run: distinct keys, bounded size ----

  lemma StepOk<K, V>(max: nat, l: Items<K, V>, op: Op<K, V>)
    requires DistinctKeys(l) && |l| <= max
    ensures DistinctKeys(Step(max, l, op)) && |Step(max, l, op)| <= max
  {
    RemoveKeeps(l, op.k);
    match op {
      case Find(k) => if HasKey(l, k) { InFront(Remove(l, k), k, Lookup(l, k).value); }
      case Add(k, v) => InFront(Remove(l, k), k, v);
      case Erase(_) =>
    }
  }

  lemma InFront<K, V>(rest: Items<K, V>, k: K, v: V)
    requires DistinctKeys(rest) && forall i :: 0 <= i < |rest| ==> rest[i].0 != k
    ensures DistinctKeys([(k, v)] + rest)
  {
  }

  lemma {:induction false} AlwaysOk<K, V>(max: nat, ops: seq<Op<K, V>>)
    ensures DistinctKeys(Exec(max, ops)) && |Exec(max, ops)| <= max
  {
    if ops != [] {
      AlwaysOk(max, ops[..|ops| - 1]);
      StepOk(max, Exec(max, ops[..|ops| - 1]), ops[|ops| - 1]);
    }
  }

  // ---- What one operation does to every key ----

  /** Dropping the key at `p` leaves all others with their values. */
  lemma LookupRemoved<K, V>(l: Items<K, V>, k: K, x: K)
    requires DistinctKeys(l)
    ensures Lookup(Remove(l, k), x) == if x == k then None else Lookup(l, x)
  {
    RemoveKeeps(l, k);
    RemoveShifts(l, k);
    var r, p, q := Remove(l, k), KeyIndex(l, k), KeyIndex(l, x);
    if x != k && q < |l| {
      var at := if q < p then q else q - 1;
      assert r[at] == l[q];
      KeyAt(r, at);
    }
  }

  lemma LookupInFront<K, V>(rest: Items<K, V>, k: K, v: V, x: K)
    requires DistinctKeys(rest)
    ensures Lookup([(k, v)] + rest, x) == if x == k then Some(v) else Lookup(rest, x)
  {
    assert ([(k, v)] + rest)[1..] == rest;
  }

  lemma LookupInit<K, V>(l: Items<K, V>, x: K)
    requires DistinctKeys(l) && l != []
    ensures Lookup(l[..|l| - 1], x) == if x == l[|l| - 1].0 then None else Lookup(l, x)
  {
    var n := |l| - 1;
    KeyAt(l, n);
    var q := KeyIndex(l, x);
    if q < n { KeyAt(l[..n], q); }
    if HasKey(l[..n], x) {
      assert l[KeyIndex(l[..n], x)].0 == x;
      KeyAt(l, KeyIndex(l[..n], x));
    }
  }

  /** An erased key is gone, and no other. */
  lemma EraseLaw<K, V>(max: nat, ops: seq<Op<K, V>>, k: K, x: K)
    ensures var l, after := Exec(max, ops), Exec(max, ops + [Erase(k)]);
      && Lookup(after, x) == (if x == k then None else Lookup(l, x))
      && |after| == if HasKey(l, k) then |l| - 1 else |l|
  {
    AlwaysOk(max, ops);
    assert (ops + [Erase(k)])[..|ops|] == ops;
    LookupRemoved(Exec(max, ops), k, x);
    RemoveKeeps(Exec(max, ops), k);
  }

  /** A find changes no value and no key; a hit comes to the front. */
  lemma FindLaw<K, V>(max: nat, ops: seq<Op<K, V>>, k: K, x: K)
    ensures var l, after := Exec(max, ops), Exec(max, ops + [Find(k)]);
      && Lookup(after, x) == Lookup(l, x) && |after| == |l|
      && (HasKey(l, k) ==> after[0].0 == k)
  {
    AlwaysOk(max, ops);
    assert (ops + [Find(k)])[..|ops|] == ops;
    var l := Exec(max, ops);
    FoundLaw(l, k, x);
  }

  lemma FoundLaw<K, V>(l: Items<K, V>, k: K, x: K)
    requires DistinctKeys(l)
    ensures Lookup(Found(l, k), x) == Lookup(l, x) && |Found(l, k)| == |l|
    ensures HasKey(l, k) ==> Found(l, k)[0].0 == k
  {
    RemoveKeeps(l, k);
    LookupRemoved(l, k, x);
    if HasKey(l, k) { LookupInFront(Remove(l, k), k, Lookup(l, k).value, x); }
  }

  /** What an add makes of the key `x`: its own key has the value, the one at the back goes if the list was
      full and the key is new, and every other keeps what it had. */
  function AfterAdd<K(==), V>(max: nat, l: Items<K, V>, k: K, v: V, x: K): Option<V> {
    if max == 0 then None
    else if x == k then Some(v)
    else if !HasKey(l, k) && |l| == max && x == l[max - 1].0 then None
    else Lookup(l, x)
  }

  lemma AddedLaw<K, V>(max: nat, l: Items<K, V>, k: K, v: V, x: K)
    requires DistinctKeys(l) && |l| <= max
    ensures Lookup(Added(max, l, k, v), x) == AfterAdd(max, l, k, v, x)
    ensures |Added(max, l, k, v)| == if HasKey(l, k) || |l| == max then |l| else |l| + 1
  {
    RemoveKeeps(l, k);
    var rest := Remove(l, k);
    var longer := [(k, v)] + rest;
    InFront(rest, k, v);
    LookupRemoved(l, k, x);
    LookupInFront(rest, k, v, x);
    if |longer| > max {
      LookupInit(longer, x);
      assert max > 0 ==> longer[|longer| - 1] == l[|l| - 1];
    }
  }

  // ---- What a run leaves: last values, recency order ----

  /** The value of the last `Add` of `k`. */
  function LastAdded<K(==), V>(ops: seq<Op<K, V>>, k: K): Option<V> {
    if ops == [] then None
    else
      var op := ops[|ops| - 1];
      if op.Add? && op.k == k then Some(op.v) else LastAdded(ops[..|ops| - 1], k)
  }

  /** When `k` was last looked up or added; -1 for never. */
  function LastTouch<K(==), V>(ops: seq<Op<K, V>>, k: K): (t: int)
    ensures -1 <= t < |ops|
  {
    if ops == [] then -1
    else
      var op := ops[|ops| - 1];
      if (op.Add? || op.Find?) && op.k == k then |ops| - 1 else LastTouch(ops[..|ops| - 1], k)
  }

  ghost predicate ByRecency<K, V>(l: Items<K, V>, ops: seq<Op<K, V>>) {
    && (forall i :: 0 <= i < |l| ==> LastAdded(ops, l[i].0) == Some(l[i].1))
    && (forall i, j :: 0 <= i < j < |l| ==> LastTouch(ops, l[i].0) > LastTouch(ops, l[j].0))
  }

  /** An operation leaves the history of the other keys as it was. */
  lemma OthersUntouched<K, V>(l: Items<K, V>, ops: seq<Op<K, V>>, op: Op<K, V>)
    requires ByRecency(l, ops) && forall i :: 0 <= i < |l| ==> l[i].0 != op.k
    ensures ByRecency(l, ops + [op])
    ensures forall i :: 0 <= i < |l| ==> LastTouch(ops + [op], l[i].0) < |ops|
  {
    assert (ops + [op])[..|ops|] == ops;
  }

  /** A touched key goes to the front. */
  lemma TouchFront<K, V>(l: Items<K, V>, ops: seq<Op<K, V>>, op: Op<K, V>, v: V)
    requires ByRecency(l, ops) && forall i :: 0 <= i < |l| ==> l[i].0 != op.k
    requires op.Find? || op.Add?
    requires LastAdded(ops + [op], op.k) == Some(v)
    ensures ByRecency([(op.k, v)] + l, ops + [op])
  {
    assert (ops + [op])[..|ops|] == ops;
    OthersUntouched(l, ops, op);
    assert LastTouch(ops + [op], op.k) == |ops|;
  }

  lemma RemoveByRecency<K, V>(l: Items<K, V>, ops: seq<Op<K, V>>, k: K)
    requires ByRecency(l, ops)
    ensures ByRecency(Remove(l, k), ops)
  {
    RemoveShifts(l, k);
    var r, p := Remove(l, k), KeyIndex(l, k);
    forall i, j | 0 <= i < j < |r| ensures LastTouch(ops, r[i].0) > LastTouch(ops, r[j].0) {
      assert r[i] == l[if i < p then i else i + 1] && r[j] == l[if j < p then j else j + 1];
    }
  }

  lemma StepByRecency<K, V>(max: nat, l: Items<K, V>, ops: seq<Op<K, V>>, op: Op<K, V>)
    requires ByRecency(l, ops) && DistinctKeys(l)
    ensures ByRecency(Step(max, l, op), ops + [op])
  {
    assert (ops + [op])[..|ops|] == ops;
    RemoveKeeps(l, op.k);
    RemoveByRecency(l, ops, op.k);
    if op.Erase? || (op.Find? && Lookup(l, op.k).None?) {
      OthersUntouched(Remove(l, op.k), ops, op);
    } else if op.Find? {
      TouchFront(Remove(l, op.k), ops, op, Lookup(l, op.k).value);
    } else {
      TouchFront(Remove(l, op.k), ops, op, op.v);
      DropByRecency([(op.k, op.v)] + Remove(l, op.k), ops + [op]);
    }
  }

  lemma DropByRecency<K, V>(l: Items<K, V>, ops: seq<Op<K, V>>)
    requires ByRecency(l, ops) && l != []
    ensures ByRecency(l[..|l| - 1], ops)
  {
  }

  /** After any run, a key that is present has the value last added for it, and the list is in
      order of last touch. */
  lemma {:induction false} AlwaysByRecency<K, V>(max: nat, ops: seq<Op<K, V>>)
    ensures ByRecency(Exec(max, ops), ops)
  {
    if ops != [] {
      var before, op := ops[..|ops| - 1], ops[|ops| - 1];
      var l := Exec(max, before);
      assert before + [op] == ops && Exec(max, ops) == Step(max, l, op);
      AlwaysOk(max, before);
      AlwaysByRecency(max, before);
      StepByRecency(max, l, before, op);
    }
  }

  /** In every run, a hit returns the value last added for the key. */
  lemma HitIsLastAdded<K, V>(max: nat, ops: seq<Op<K, V>>, k: K)
    requires Lookup(Exec(max, ops), k).Some?
    ensures Lookup(Exec(max, ops), k) == LastAdded(ops, k)
  {
    AlwaysByRecency(max, ops);
  }

  /** In every run an add leaves its key with its value, and every other key with what it had: except
      that, if its key is new and the list was full, exactly the key touched least recently is gone. */
  lemma AddLaw<K, V>(max: nat, ops: seq<Op<K, V>>, k: K, v: V, x: K)
    ensures var l, after := Exec(max, ops), Exec(max, ops + [Add(k, v)]);
      && |after| == (if HasKey(l, k) || |l| == max then |l| else |l| + 1)
      && (max > 0 ==> Lookup(after, k) == Some(v))
      && (x != k && HasKey(after, x) ==> Lookup(after, x) == Lookup(l, x))
      && (x != k && HasKey(l, x) ==>
           (!HasKey(after, x) <==> !HasKey(l, k) && |l| == max && LeastRecent(l, ops, x)))
      && (x != k && !HasKey(l, x) ==> !HasKey(after, x))
  {
    AlwaysOk(max, ops);
    AlwaysByRecency(max, ops);
    assert (ops + [Add(k, v)])[..|ops|] == ops;
    var l := Exec(max, ops);
    AddedLaw(max, l, k, v, k);
    AddedLaw(max, l, k, v, x);
    if HasKey(l, x) { LeastRecentIsLast(l, ops, x); }
  }

  /** No key in the list was touched before `x`. */
  ghost predicate LeastRecent<K, V>(l: Items<K, V>, ops: seq<Op<K, V>>, x: K) {
    forall i :: 0 <= i < |l| ==> LastTouch(ops, x) <= LastTouch(ops, l[i].0)
  }

  lemma LeastRecentIsLast<K, V>(l: Items<K, V>, ops: seq<Op<K, V>>, x: K)
    requires ByRecency(l, ops) && HasKey(l, x)
    ensures LeastRecent(l, ops, x) <==> x == l[|l| - 1].0
  {
    var q, n := KeyIndex(l, x), |l| - 1;
    assert q < n ==> LastTouch(ops, l[q].0) > LastTouch(ops, l[n].0);
  }

  lemma DroppedIsOldest<K, V>(max: nat, l: Items<K, V>, run: seq<Op<K, V>>, k: K, v: V, gone: K)
    requires DistinctKeys(l) && HasKey(l, gone) && gone != k
    requires ByRecency([(k, v)] + Remove(l, k), run)
    requires !HasKey(Added(max, l, k, v), gone)
    ensures var after := Added(max, l, k, v);
      forall i :: 0 <= i < |after| ==> LastTouch(run, after[i].0) > LastTouch(run, gone)
  {
    var longer, after := [(k, v)] + Remove(l, k), Added(max, l, k, v);
    RemoveShifts(l, k);
    var q := KeyIndex(l, gone);
    var p := if q < KeyIndex(l, k) then q + 1 else q;
    assert longer[p] == l[q];
    assert after == longer[..|after|];
    assert p >= |after|;
  }

  /** When an `Add` drops a key, every key that stays was touched after it. */
  lemma EvictedIsLeastRecent<K, V>(max: nat, ops: seq<Op<K, V>>, k: K, v: V, gone: K)
    requires HasKey(Exec(max, ops), gone) && gone != k
    requires !HasKey(Exec(max, ops + [Add(k, v)]), gone)
    ensures var after := Exec(max, ops + [Add(k, v)]);
      forall i :: 0 <= i < |after| ==> LastTouch(ops + [Add(k, v)], after[i].0) > LastTouch(ops + [Add(k, v)], gone)
  {
    var run, l := ops + [Add(k, v)], Exec(max, ops);
    assert run[..|ops|] == ops;
    AlwaysOk(max, ops);
    AlwaysByRecency(max, ops);
    RemoveKeeps(l, k);
    RemoveByRecency(l, ops, k);
    TouchFront(Remove(l, k), ops, Add(k, v), v);
    DroppedIsOldest(max, l, run, k, v, gone);
  }

  // ---- Two capacities ----

  /** `a` is a subsequence of `b`. */
  predicate Sub<T(==)>(a: seq<T>, b: seq<T>) {
    if a == [] then true
    else if b == [] then false
    else (a[0] == b[0] && Sub(a[1..], b[1..])) || Sub(a, b[1..])
  }

  lemma {:induction false} SubMembers<T>(a: seq<T>, b: seq<T>)
    requires Sub(a, b)
    ensures |a| <= |b| && forall x :: x in a ==> x in b
  {
    if a != [] {
      if Sub(a, b[1..]) { SubMembers(a, b[1..]); } else { SubMembers(a[1..], b[1..]); }
      assert a == [a[0]] + a[1..];
    }
  }

  lemma {:induction false} SubTail<T>(a: seq<T>, b: seq<T>)
    requires a != [] && Sub(a, b)
    ensures Sub(a[1..], b)
  {
    if Sub(a, b[1..]) {
      SubTail(a, b[1..]);
    } else if a[1..] != [] {
      assert Sub(a[1..], b[1..]);
    }
  }

  lemma {:induction false} SubRemove<K, V>(a: Items<K, V>, b: Items<K, V>, k: K)
    requires DistinctKeys(a) && DistinctKeys(b) && Sub(a, b)
    ensures Sub(Remove(a, k), Remove(b, k))
  {
    if a != [] {
      RemoveCons(b, k);
      if a[0] == b[0] && Sub(a[1..], b[1..]) {
        SubRemove(a[1..], b[1..], k);
        SubRemoveHead(a, b, k);
      } else if b[0].0 == k {
        SubMembers(a, b[1..]);
        NotInTail(a, b, k);
      } else {
        SubRemove(a, b[1..], k);
        SubCons(Remove(a, k), b[0], Remove(b[1..], k));
      }
    }
  }

  lemma SubRemoveHead<K, V>(a: Items<K, V>, b: Items<K, V>, k: K)
    requires a != [] && b != [] && a[0] == b[0] && Sub(a[1..], b[1..])
    requires Sub(Remove(a[1..], k), Remove(b[1..], k))
    ensures Sub(Remove(a, k), Remove(b, k))
  {
    RemoveCons(a, k);
    RemoveCons(b, k);
    if b[0].0 != k { SubBoth(Remove(a[1..], k), b[0], Remove(b[1..], k)); }
  }

  /** A key at the head of `b` is not in a list drawn from its tail. */
  lemma NotInTail<K, V>(a: Items<K, V>, b: Items<K, V>, k: K)
    requires b != [] && DistinctKeys(b) && b[0].0 == k && forall x :: x in a ==> x in b[1..]
    ensures Remove(a, k) == a
  {
    forall p | 0 <= p < |a| ensures a[p].0 != k {
      assert a[p] in a;
      var i :| 0 <= i < |b[1..]| && b[1..][i] == a[p];
      assert b[i + 1] == a[p];
    }
  }

  lemma SubCons<T>(a: seq<T>, x: T, b: seq<T>)
    requires Sub(a, b)
    ensures Sub(a, [x] + b)
  {
    assert ([x] + b)[1..] == b;
  }

  lemma SubBoth<T>(a: seq<T>, x: T, b: seq<T>)
    requires Sub(a, b)
    ensures Sub([x] + a, [x] + b)
  {
    assert ([x] + a)[1..] == a && ([x] + b)[1..] == b;
  }

  /** Dropping the last of the longer one, and of the shorter one too, keeps the subsequence. */
  lemma {:induction false} SubInit<T>(a: seq<T>, b: seq<T>)
    requires a != [] && Sub(a, b)
    ensures Sub(a[..|a| - 1], b) && Sub(a[..|a| - 1], b[..|b| - 1])
  {
    var a', b' := a[..|a| - 1], b[..|b| - 1];
    if |a| > 1 {
      SubMembers(a, b);
      assert b'[1..] == b[1..][..|b[1..]| - 1];
      if Sub(a, b[1..]) {
        SubInit(a, b[1..]);
      } else {
        assert a'[1..] == a[1..][..|a[1..]| - 1];
        SubInit(a[1..], b[1..]);
      }
    }
  }

  /** The smaller map's list against the larger one's. */
  ghost predicate Included<K, V>(m: nat, M: nat, a: Items<K, V>, b: Items<K, V>) {
    && DistinctKeys(a) && DistinctKeys(b)
    && |a| <= m && |b| <= M
    && Sub(a, b)
    && |b| - |a| <= M - m
  }

  lemma IncludedKey<K, V>(a: Items<K, V>, b: Items<K, V>, k: K)
    requires DistinctKeys(a) && DistinctKeys(b) && Sub(a, b)
    ensures HasKey(a, k) ==> HasKey(b, k) && Lookup(b, k) == Lookup(a, k)
  {
    SubMembers(a, b);
    if HasKey(a, k) {
      var x := a[KeyIndex(a, k)];
      assert x in a;
      var i :| 0 <= i < |b| && b[i] == x;
      KeyAt(b, i);
    }
  }

  lemma IncludedFind<K, V>(m: nat, M: nat, a: Items<K, V>, b: Items<K, V>, k: K)
    requires m <= M && Included(m, M, a, b)
    ensures Included(m, M, Found(a, k), Found(b, k))
  {
    StepOk(m, a, Find(k));
    StepOk(M, b, Find(k));
    IncludedKey(a, b, k);
    RemoveKeeps(a, k);
    RemoveKeeps(b, k);
    SubRemove(a, b, k);
    if Lookup(a, k).Some? {
      SubBoth(Remove(a, k), (k, Lookup(a, k).value), Remove(b, k));
    } else if Lookup(b, k).Some? {
      SubCons(a, (k, Lookup(b, k).value), Remove(b, k));
    }
  }

  lemma IncludedAdd<K, V>(m: nat, M: nat, a: Items<K, V>, b: Items<K, V>, k: K, v: V)
    requires m <= M && Included(m, M, a, b)
    ensures Included(m, M, Added(m, a, k, v), Added(M, b, k, v))
  {
    StepOk(m, a, Add(k, v));
    StepOk(M, b, Add(k, v));
    IncludedKey(a, b, k);
    RemoveKeeps(a, k);
    RemoveKeeps(b, k);
    SubRemove(a, b, k);
    SubBoth(Remove(a, k), (k, v), Remove(b, k));
    SubInit([(k, v)] + Remove(a, k), [(k, v)] + Remove(b, k));
  }

  lemma IncludedErase<K, V>(m: nat, M: nat, a: Items<K, V>, b: Items<K, V>, k: K)
    requires m <= M && Included(m, M, a, b)
    ensures Included(m, M, Remove(a, k), Remove(b, k))
  {
    IncludedKey(a, b, k);
    RemoveKeeps(a, k);
    RemoveKeeps(b, k);
    SubRemove(a, b, k);
  }

  /** Fed the same operations, the list at the smaller capacity is a subsequence of the one at the
      larger, short of it by at most the difference of the capacities. */
  lemma {:induction false} LruInclusion<K, V>(m: nat, M: nat, ops: seq<Op<K, V>>)
    requires m <= M
    ensures Included(m, M, Exec(m, ops), Exec(M, ops))
  {
    if ops != [] {
      var before := ops[..|ops| - 1];
      LruInclusion(m, M, before);
      match ops[|ops| - 1] {
        case Find(k) => IncludedFind(m, M, Exec(m, before), Exec(M, before), k);
        case Add(k, v) => IncludedAdd(m, M, Exec(m, before), Exec(M, before), k, v);
        case Erase(k) => IncludedErase(m, M, Exec(m, before), Exec(M, before), k);
      }
    }
  }

  /** So every hit at the smaller capacity is the same hit at the larger. */
  lemma HitsAreIncluded<K, V>(m: nat, M: nat, ops: seq<Op<K, V>>, k: K)
    requires m <= M && Lookup(Exec(m, ops), k).Some?
    ensures Lookup(Exec(M, ops), k) == Lookup(Exec(m, ops), k)
  {
    LruInclusion(m, M, ops);
    IncludedKey(Exec(m, ops), Exec(M, ops), k);
  }

  // ---- The class ----

  /** An element of `std::list`; a reference to it is an iterator, good until the element is erased. */
  class ListNode<K> {
    const key: K

    constructor (key: K)
      ensures this.key == key
    {
      this.key := key;
    }
  }

  const SIZE_T: int := 0x1_0000_0000_0000_0000

  datatype Entry<K, V> = Entry(value: V, lruIter: ListNode<K>)

  function IndexOf<K>(l: seq<ListNode<K>>, n: ListNode<K>): (p: nat)
    requires n in l
    ensures p < |l| && l[p] == n
  {
    if l[0] == n then 0 else 1 + IndexOf(l[1..], n)
  }

  /** `std::list::erase`. */
  function Unlink<K>(l: seq<ListNode<K>>, n: ListNode<K>): (r: seq<ListNode<K>>)
    requires n in l
    ensures |r| == |l| - 1
    ensures forall i :: 0 <= i < |r| ==> r[i] == if i < IndexOf(l, n) then l[i] else l[i + 1]
  {
    var p := IndexOf(l, n);
    l[..p] + l[p + 1..]
  }

  /** Map and list hold the same keys, and each stored position is its key's place in the list. */
  ghost predicate Linked<K, V>(entries: map<K, Entry<K, V>>, list: seq<ListNode<K>>) {
    && (forall i, j :: 0 <= i < j < |list| ==> list[i] != list[j])
    && (forall i :: 0 <= i < |list| ==> list[i].key in entries && entries[list[i].key].lruIter == list[i])
    && (forall k :: k in entries ==> entries[k].lruIter in list && entries[k].lruIter.key == k)
  }

  ghost function ItemsOf<K, V>(entries: map<K, Entry<K, V>>, list: seq<ListNode<K>>): (l: Items<K, V>)
    requires Linked(entries, list)
    ensures |l| == |list| && DistinctKeys(l)
    ensures forall i :: 0 <= i < |l| ==> l[i] == (list[i].key, entries[list[i].key].value)
  {
    seq(|list|, i requires 0 <= i < |list| => (list[i].key, entries[list[i].key].value))
  }

  lemma KeysAgree<K, V>(entries: map<K, Entry<K, V>>, list: seq<ListNode<K>>, k: K)
    requires Linked(entries, list)
    ensures k in entries <==> HasKey(ItemsOf(entries, list), k)
    ensures k in entries ==> Lookup(ItemsOf(entries, list), k) == Some(entries[k].value)
    ensures k !in entries ==> Lookup(ItemsOf(entries, list), k) == None
  {
    var l := ItemsOf(entries, list);
    if k in entries {
      KeyAt(l, IndexOf(list, entries[k].lruIter));
    }
  }

  lemma UnlinkOther<K, V>(entries: map<K, Entry<K, V>>, list: seq<ListNode<K>>, k: K)
    requires Linked(entries, list) && k in entries
    ensures var rest := Unlink(list, entries[k].lruIter);
      forall i :: 0 <= i < |rest| ==> rest[i] != entries[k].lruIter && rest[i].key != k && rest[i] in list
    ensures forall n :: n in list && n != entries[k].lruIter ==> n in Unlink(list, entries[k].lruIter)
  {
    var p := IndexOf(list, entries[k].lruIter);
    var rest := Unlink(list, entries[k].lruIter);
    forall n | n in list && n != entries[k].lruIter ensures n in rest {
      var i :| 0 <= i < |list| && list[i] == n;
      assert rest[if i < p then i else i - 1] == n;
    }
  }

  lemma UnlinkLinks<K, V>(entries: map<K, Entry<K, V>>, list: seq<ListNode<K>>, k: K)
    requires Linked(entries, list) && k in entries
    ensures Linked(entries - {k}, Unlink(list, entries[k].lruIter))
  {
    UnlinkOther(entries, list, k);
    var p := IndexOf(list, entries[k].lruIter);
    var rest := Unlink(list, entries[k].lruIter);
    forall i, j | 0 <= i < j < |rest| ensures rest[i] != rest[j] {
      assert list[if i < p then i else i + 1] != list[if j < p then j else j + 1];
    }
  }

  /** Taking a key's node out of the list, and its entry out of the map. */
  lemma UnlinkKey<K, V>(entries: map<K, Entry<K, V>>, list: seq<ListNode<K>>, k: K)
    requires Linked(entries, list) && k in entries
    ensures Linked(entries - {k}, Unlink(list, entries[k].lruIter))
    ensures ItemsOf(entries - {k}, Unlink(list, entries[k].lruIter)) == Remove(ItemsOf(entries, list), k)
  {
    UnlinkLinks(entries, list, k);
    UnlinkOther(entries, list, k);
    var p := IndexOf(list, entries[k].lruIter);
    var rest := Unlink(list, entries[k].lruIter);
    var l, l' := ItemsOf(entries, list), ItemsOf(entries - {k}, rest);
    KeyAt(l, p);
    RemoveShifts(l, k);
    forall i | 0 <= i < |rest| ensures l'[i] == Remove(l, k)[i] {
      assert rest[i] == list[if i < p then i else i + 1];
    }
  }

  lemma PushLinks<K, V>(entries: map<K, Entry<K, V>>, list: seq<ListNode<K>>, n: ListNode<K>, v: V)
    requires Linked(entries, list) && n.key !in entries
    ensures Linked(entries[n.key := Entry(v, n)], [n] + list)
  {
    var more, longer := entries[n.key := Entry(v, n)], [n] + list;
    forall i | 0 <= i < |longer|
      ensures longer[i].key in more && more[longer[i].key].lruIter == longer[i]
      ensures i > 0 ==> longer[i] == list[i - 1] && longer[i].key != n.key
    {
      if i > 0 { assert longer[i] == list[i - 1]; }
    }
    forall i, j | 0 <= i < j < |longer| ensures longer[i] != longer[j] {
      if i > 0 { assert list[i - 1] != list[j - 1]; }
    }
    forall k | k in more ensures more[k].lruIter in longer && more[k].lruIter.key == k {
      if k != n.key { assert entries[k].lruIter in list; }
    }
  }

  lemma PushKey<K, V>(entries: map<K, Entry<K, V>>, list: seq<ListNode<K>>, n: ListNode<K>, v: V)
    requires Linked(entries, list) && n.key !in entries
    ensures Linked(entries[n.key := Entry(v, n)], [n] + list)
    ensures ItemsOf(entries[n.key := Entry(v, n)], [n] + list) == [(n.key, v)] + ItemsOf(entries, list)
  {
    PushLinks(entries, list, n, v);
    var more, longer := entries[n.key := Entry(v, n)], [n] + list;
    var l, r := ItemsOf(more, longer), ItemsOf(entries, list);
    forall i | 0 <= i < |l| ensures l[i] == ([(n.key, v)] + r)[i] {
      if i > 0 {
        assert longer[i] == list[i - 1] && list[i - 1].key in entries;
        assert ([(n.key, v)] + r)[i] == r[i - 1];
      }
    }
  }

  lemma PopKey<K, V>(entries: map<K, Entry<K, V>>, list: seq<ListNode<K>>)
    requires Linked(entries, list) && list != []
    ensures Linked(entries - {list[|list| - 1].key}, list[..|list| - 1])
    ensures ItemsOf(entries - {list[|list| - 1].key}, list[..|list| - 1]) == ItemsOf(entries, list)[..|list| - 1]
  {
    var n := |list| - 1;
    var fewer := entries - {list[n].key};
    forall k | k in fewer ensures fewer[k].lruIter in list[..n] {
      var i := IndexOf(list, entries[k].lruIter);
      assert list[..n][i] == list[i];
    }
    assert Linked(fewer, list[..n]);
  }

  /** The list without the key, and the key's new node in front. */
  lemma TouchKey<K, V>(entries: map<K, Entry<K, V>>, list: seq<ListNode<K>>, n: ListNode<K>, v: V)
    requires Linked(entries, list)
    ensures var rest := if n.key in entries then Unlink(list, entries[n.key].lruIter) else list;
      && Linked(entries[n.key := Entry(v, n)], [n] + rest)
      && ItemsOf(entries[n.key := Entry(v, n)], [n] + rest) == [(n.key, v)] + Remove(ItemsOf(entries, list), n.key)
  {
    var k := n.key;
    KeysAgree(entries, list, k);
    if k in entries {
      UnlinkKey(entries, list, k);
      PushKey(entries - {k}, Unlink(list, entries[k].lruIter), n, v);
      assert (entries - {k})[k := Entry(v, n)] == entries[k := Entry(v, n)];
    } else {
      PushKey(entries, list, n, v);
    }
  }

  lemma FindLinks<K, V>(entries: map<K, Entry<K, V>>, list: seq<ListNode<K>>, n: ListNode<K>)
    requires Linked(entries, list) && n.key in entries
    ensures var e := entries[n.key];
      && Lookup(ItemsOf(entries, list), n.key) == Some(e.value)
      && Linked(entries[n.key := Entry(e.value, n)], [n] + Unlink(list, e.lruIter))
      && ItemsOf(entries[n.key := Entry(e.value, n)], [n] + Unlink(list, e.lruIter)) ==
           Found(ItemsOf(entries, list), n.key)
      && |Unlink(list, e.lruIter)| + 1 == |list|
  {
    KeysAgree(entries, list, n.key);
    TouchKey(entries, list, n, entries[n.key].value);
  }

  lemma AddedLaws<K(!new), V>(max: nat, l: Items<K, V>, k: K, v: V)
    requires DistinctKeys(l) && |l| <= max
    ensures |Added(max, l, k, v)| == if HasKey(l, k) || |l| == max then |l| else |l| + 1
    ensures forall x :: Lookup(Added(max, l, k, v), x) == AfterAdd(max, l, k, v, x)
  {
    AddedLaw(max, l, k, v, k);
    forall x ensures Lookup(Added(max, l, k, v), x) == AfterAdd(max, l, k, v, x) {
      AddedLaw(max, l, k, v, x);
    }
  }

  lemma FoundLaws<K(!new), V>(l: Items<K, V>, k: K)
    requires DistinctKeys(l)
    ensures |Found(l, k)| == |l| && forall x :: Lookup(Found(l, k), x) == Lookup(l, x)
  {
    FoundLaw(l, k, k);
    forall x ensures Lookup(Found(l, k), x) == Lookup(l, x) {
      FoundLaw(l, k, x);
    }
  }

  lemma EraseLaws<K(!new), V>(l: Items<K, V>, k: K)
    requires DistinctKeys(l)
    ensures forall x :: Lookup(Remove(l, k), x) == if x == k then None else Lookup(l, x)
  {
    forall x ensures Lookup(Remove(l, k), x) == if x == k then None else Lookup(l, x) {
      LookupRemoved(l, k, x);
    }
  }

  class Lru<K(==, !new), V> {
    var entries: map<K, Entry<K, V>>
    var entriesLru: seq<ListNode<K>>
    const max: nat

    ghost predicate Valid()
      reads this
    {
      Linked(entries, entriesLru) && |entriesLru| <= max
    }

    ghost function Contents(): Items<K, V>
      requires Valid()
      reads this
    {
      ItemsOf(entries, entriesLru)
    }

    /** The capacity comes as an `int` and is kept as a `size_t`. */
    constructor (max: int)
      ensures Valid() && Contents() == []
      ensures this.max == if max >= 0 then max % SIZE_T else (max + SIZE_T) % SIZE_T
    {
      entries, entriesLru := map[], [];
      this.max := max % SIZE_T;
    }

    /** `find`; `wanted` is whether the caller passed a place for the value. */
    method FindKey(key: K, wanted: bool) returns (hit: bool, value: Option<V>)
      requires Valid()
      modifies this
      ensures Valid() && Contents() == Found(old(Contents()), key)
      ensures hit == Lookup(old(Contents()), key).Some?
      ensures value == if wanted then Lookup(old(Contents()), key) else None
      ensures |Contents()| == |old(Contents())|
      ensures forall x :: Lookup(Contents(), x) == Lookup(old(Contents()), x)
    {
      ghost var before := Contents();
      FoundLaws(before, key);
      KeysAgree(entries, entriesLru, key);
      if key !in entries {
        return false, None;
      }
      value := if wanted then Some(entries[key].value) else None;
      Touch(key);
      hit := true;
    }

    /** Lines 43-45: the key goes to the front of the list. */
    method Touch(key: K)
      requires Valid() && key in entries
      modifies this
      ensures Valid() && Contents() == Found(old(Contents()), key)
    {
      var e := entries[key];
      var front := new ListNode(key);
      FindLinks(entries, entriesLru, front);
      entriesLru := Unlink(entriesLru, e.lruIter);
      entriesLru := [front] + entriesLru;
      entries := entries[key := Entry(e.value, front)];
    }

    /** `add`, up to the size check. */
    method PushFront(key: K, value: V)
      requires Valid()
      modifies this
      ensures Linked(entries, entriesLru)
      ensures ItemsOf(entries, entriesLru) == [(key, value)] + Remove(old(Contents()), key)
    {
      var front := new ListNode(key);
      TouchKey(entries, entriesLru, front, value);
      if key in entries {
        entriesLru := Unlink(entriesLru, entries[key].lruIter);
      }
      entriesLru := [front] + entriesLru;
      entries := entries[key := Entry(value, front)];
    }

    /** The size check of `add`: one key goes, the one at the back. */
    method DropBack()
      requires Linked(entries, entriesLru) && |entriesLru| <= max + 1
      modifies this
      ensures Valid()
      ensures Contents() == if |old(entriesLru)| > max then old(ItemsOf(entries, entriesLru))[..max]
        else old(ItemsOf(entries, entriesLru))
    {
      if |entriesLru| > max {
        var last := entriesLru[|entriesLru| - 1].key;
        PopKey(entries, entriesLru);
        entries := entries - {last};
        entriesLru := entriesLru[..|entriesLru| - 1];
      }
    }

    method AddKey(key: K, value: V)
      requires Valid()
      modifies this
      ensures Valid() && Contents() == Added(max, old(Contents()), key, value)
      ensures var l := old(Contents()); |Contents()| == if HasKey(l, key) || |l| == max then |l| else |l| + 1
      ensures forall x :: Lookup(Contents(), x) == AfterAdd(max, old(Contents()), key, value, x)
    {
      RemoveShifts(Contents(), key);
      AddedLaws(max, Contents(), key, value);
      PushFront(key, value);
      DropBack();
    }

    method EraseKey(key: K)
      requires Valid()
      modifies this
      ensures Valid() && Contents() == Remove(old(Contents()), key)
      ensures forall x :: Lookup(Contents(), x) == if x == key then None else Lookup(old(Contents()), x)
    {
      EraseLaws(Contents(), key);
      KeysAgree(entries, entriesLru, key);
      RemoveKeeps(Contents(), key);
      if key in entries {
        UnlinkKey(entries, entriesLru, key);
        entriesLru := Unlink(entriesLru, entries[key].lruIter);
        entries := entries - {key};
      }
    }
  }
}
