/** Occurrence counting with an insertion-ordered dictionary, the way the evaluator
    fills its Python `dict`s: a key is added with count 0 the first time it is seen and
    its count is then incremented. A dictionary is an association list whose order is
    the order in which keys were first inserted. */
module Counting {
  import opened Seqs

  type Counts<K> = seq<(K, nat)>

  /** The dictionary's keys in iteration order. */
  function Keys<K>(t: Counts<K>): (ks: seq<K>)
    ensures |ks| == |t|
    ensures forall i :: 0 <= i < |t| ==> ks[i] == t[i].0
  {
    seq(|t|, i requires 0 <= i < |t| => t[i].0)
  }

  /** `d[k]`, or 0 for an absent key. */
  function CountOf<K(==)>(t: Counts<K>, k: K): nat {
    if t == [] then 0 else if t[0].0 == k then t[0].1 else CountOf(t[1..], k)
  }

  /** `d[k] = 0` for a new key: it goes to the end of the iteration order. */
  function AddKey<K>(t: Counts<K>, k: K): Counts<K> {
    t + [(k, 0)]
  }

  /** `d[k] += 1`; the key's position does not change. */
  function Increment<K(==)>(t: Counts<K>, k: K): Counts<K> {
    if t == [] then []
    else if t[0].0 == k then [(k, t[0].1 + 1)] + t[1..]
    else [t[0]] + Increment(t[1..], k)
  }

  /** One pass of the counting loop's body for key k. */
  function Record<K(==)>(t: Counts<K>, k: K): Counts<K> {
    Increment(if k in Keys(t) then t else AddKey(t, k), k)
  }

  /** The dictionary the counting loop builds from xs, one element at a time. */
  function Tally<K(==)>(xs: seq<K>): Counts<K> {
    if xs == [] then [] else Record(Tally(xs[..|xs| - 1]), xs[|xs| - 1])
  }

  /** Sum of all counts. */
  function Sum<K>(t: Counts<K>): nat {
    if t == [] then 0 else t[0].1 + Sum(t[1..])
  }

  /** Index of the first occurrence of k in xs, or |xs| when k is absent. */
  function FirstIndex<K(==)>(xs: seq<K>, k: K): (i: nat)
    ensures i <= |xs|
    ensures i < |xs| <==> k in xs
    ensures i < |xs| ==> xs[i] == k
    ensures forall j :: 0 <= j < i ==> xs[j] != k
  {
    if xs == [] then 0 else if xs[0] == k then 0 else 1 + FirstIndex(xs[1..], k)
  }

  /** The entries whose key is not in ex, in dictionary order (`[r for r in d if r not in ex]`). */
  function Drop<K(==)>(t: Counts<K>, ex: seq<K>): (r: Counts<K>)
    ensures |r| <= |t|
  {
    if t == [] then []
    else if t[0].0 in ex then Drop(t[1..], ex)
    else [t[0]] + Drop(t[1..], ex)
  }

  /** Drop keeps exactly the entries whose key is not excluded. */
  lemma {:induction false} DropMembers<K>(t: Counts<K>, ex: seq<K>)
    ensures forall e :: e in Drop(t, ex) <==> e in t && e.0 !in ex
  {
    if t != [] {
      DropMembers(t[1..], ex);
      assert t == [t[0]] + t[1..];
    }
  }

  /** The elements of xs not in ex, in order. */
  function Exclude<K(==)>(xs: seq<K>, ex: seq<K>): seq<K> {
    if xs == [] then []
    else
      var init := Exclude(xs[..|xs| - 1], ex);
      if xs[|xs| - 1] in ex then init else init + [xs[|xs| - 1]]
  }

  // ---------------------------------------------------------------------------
  // The dictionary operations

  lemma {:induction false} IncrementEffect<K>(t: Counts<K>, k: K)
    requires Distinct(Keys(t))
    ensures |Increment(t, k)| == |t|
    ensures forall i :: 0 <= i < |t| ==>
      Increment(t, k)[i] == if t[i].0 == k then (k, t[i].1 + 1) else t[i]
  {
    if t != [] {
      assert Keys(t[1..]) == Keys(t)[1..];
      if t[0].0 != k {
        IncrementEffect(t[1..], k);
      } else {
        forall i | 1 <= i < |t| ensures t[i].0 != k {
          assert Keys(t)[0] == k && Keys(t)[i] == t[i].0;
        }
      }
    }
  }

  lemma {:induction false} CountOfAt<K>(t: Counts<K>, i: nat)
    requires Distinct(Keys(t)) && i < |t|
    ensures CountOf(t, t[i].0) == t[i].1
  {
    if i > 0 {
      assert Keys(t)[0] == t[0].0 && Keys(t)[i] == t[i].0;
      assert Keys(t[1..]) == Keys(t)[1..];
      CountOfAt(t[1..], i - 1);
    }
  }

  lemma {:induction false} CountOfAbsent<K>(t: Counts<K>, k: K)
    requires k !in Keys(t)
    ensures CountOf(t, k) == 0
  {
    if t != [] {
      assert Keys(t[1..]) == Keys(t)[1..];
      assert Keys(t)[0] == t[0].0;
      CountOfAbsent(t[1..], k);
    }
  }

  lemma {:induction false} SumAppend<K>(t: Counts<K>, e: (K, nat))
    ensures Sum(t + [e]) == Sum(t) + e.1
  {
    if t != [] {
      assert (t + [e])[1..] == t[1..] + [e];
      SumAppend(t[1..], e);
    }
  }

  lemma {:induction false} SumIncrement<K>(t: Counts<K>, k: K)
    ensures Sum(Increment(t, k)) == Sum(t) + (if k in Keys(t) then 1 else 0)
  {
    if t != [] {
      assert Keys(t[1..]) == Keys(t)[1..];
      assert Keys(t)[0] == t[0].0;
      if t[0].0 != k {
        SumIncrement(t[1..], k);
        assert k in Keys(t) <==> k in Keys(t[1..]);
      }
    }
  }

  /** The counting loop's invariant, one step at a time. */
  lemma RecordEffect<K>(t: Counts<K>, k: K)
    requires Distinct(Keys(t))
    ensures Distinct(Keys(Record(t, k)))
    ensures Keys(Record(t, k)) == if k in Keys(t) then Keys(t) else Keys(t) + [k]
    ensures forall j :: CountOf(Record(t, k), j) == CountOf(t, j) + (if j == k then 1 else 0)
    ensures Sum(Record(t, k)) == Sum(t) + 1
  {
    var u := if k in Keys(t) then t else AddKey(t, k);
    assert Keys(u) == if k in Keys(t) then Keys(t) else Keys(t) + [k];
    assert Distinct(Keys(u));
    IncrementEffect(u, k);
    var r := Increment(u, k);
    assert Keys(r) == Keys(u);
    SumIncrement(u, k);
    if k !in Keys(t) {
      SumAppend(t, (k, 0));
    }
    forall j ensures CountOf(r, j) == CountOf(t, j) + (if j == k then 1 else 0) {
      RecordCountOf(t, k, j);
    }
  }

  /** The count of one key after recording k. */
  lemma RecordCountOf<K>(t: Counts<K>, k: K, j: K)
    requires Distinct(Keys(t))
    ensures CountOf(Record(t, k), j) == CountOf(t, j) + (if j == k then 1 else 0)
  {
    var u := if k in Keys(t) then t else AddKey(t, k);
    assert Keys(u) == if k in Keys(t) then Keys(t) else Keys(t) + [k];
    assert Distinct(Keys(u));
    IncrementEffect(u, k);
    var r := Increment(u, k);
    assert Keys(r) == Keys(u);
    if j in Keys(t) {
      var i :| 0 <= i < |t| && Keys(t)[i] == j;
      CountOfAt(t, i);
      CountOfAt(r, i);
    } else if j == k {
      CountOfAbsent(t, j);
      CountOfAt(r, |t|);
    } else {
      CountOfAbsent(t, j);
      CountOfAbsent(r, j);
    }
  }

  // ---------------------------------------------------------------------------
  // What the counting loop computes

  /** The dictionary maps each element of xs to its number of occurrences and nothing
      else to anything; every key appears once, and the counts add up to |xs|. */
  lemma {:induction false} TallyCounts<K>(xs: seq<K>)
    ensures Distinct(Keys(Tally(xs)))
    ensures forall k :: k in Keys(Tally(xs)) <==> k in xs
    ensures forall k :: CountOf(Tally(xs), k) == multiset(xs)[k]
    ensures Sum(Tally(xs)) == |xs|
  {
    if xs != [] {
      var init := xs[..|xs| - 1];
      var x := xs[|xs| - 1];
      assert xs == init + [x];
      TallyCounts(init);
      RecordEffect(Tally(init), x);
    }
  }

  /** Every entry of the dictionary carries its key's number of occurrences. */
  lemma TallyEntry<K>(xs: seq<K>, i: nat)
    requires i < |Tally(xs)|
    ensures Tally(xs)[i].1 == multiset(xs)[Tally(xs)[i].0] >= 1
  {
    TallyCounts(xs);
    CountOfAt(Tally(xs), i);
    assert Keys(Tally(xs))[i] == Tally(xs)[i].0;
    assert Tally(xs)[i].0 in xs;
  }

  /** Entry i of t has a key that first occurs in xs before the key of entry j does. */
  ghost predicate FirstSeenBefore<K>(xs: seq<K>, t: Counts<K>, i: int, j: int) {
    0 <= i < |t| && 0 <= j < |t| && FirstIndex(xs, t[i].0) < FirstIndex(xs, t[j].0) < |xs|
  }

  /** The keys of the dictionary are the distinct elements of xs. */
  lemma TallyKeys<K>(xs: seq<K>)
    ensures Distinct(Keys(Tally(xs)))
    ensures forall k :: k in Keys(Tally(xs)) <==> k in xs
  {
    TallyCounts(xs);
  }

  /** Recording k keeps the keys, appending k when it is new. */
  lemma RecordKeys<K>(t: Counts<K>, k: K)
    requires Distinct(Keys(t))
    ensures Keys(Record(t, k)) == if k in Keys(t) then Keys(t) else Keys(t) + [k]
  {
    RecordEffect(t, k);
  }

  /** Iteration order is first-occurrence order: a key inserted earlier first occurs earlier in xs. */
  lemma {:induction false} TallyOrder<K>(xs: seq<K>)
    ensures forall i, j :: 0 <= i < j < |Tally(xs)| ==> FirstSeenBefore(xs, Tally(xs), i, j)
  {
    if xs != [] {
      var init := xs[..|xs| - 1];
      var x := xs[|xs| - 1];
      assert xs == init + [x];
      TallyOrder(init);
      TallyKeys(init);
      RecordKeys(Tally(init), x);
      forall k | k in init ensures FirstIndex(xs, k) == FirstIndex(init, k) {
        FirstIndexPrefix(init, x, k);
      }
      forall i, j | 0 <= i < j < |Tally(xs)| ensures FirstSeenBefore(xs, Tally(xs), i, j) {
        TallyOrderStep(init, x, i, j);
      }
    }
  }

  /** One pair of entries after counting one more element: the order of first occurrence
      of the shorter input carries over, and a new key comes after all the old ones. */
  lemma TallyOrderStep<K>(init: seq<K>, x: K, i: int, j: int)
    requires forall i, j :: 0 <= i < j < |Tally(init)| ==> FirstSeenBefore(init, Tally(init), i, j)
    requires forall k :: k in Keys(Tally(init)) <==> k in init
    requires Keys(Tally(init + [x])) == if x in Keys(Tally(init)) then Keys(Tally(init)) else Keys(Tally(init)) + [x]
    requires forall k | k in init :: FirstIndex(init + [x], k) == FirstIndex(init, k)
    requires 0 <= i < j < |Tally(init + [x])|
    ensures FirstSeenBefore(init + [x], Tally(init + [x]), i, j)
  {
    var xs := init + [x];
    var t := Tally(init);
    var r := Tally(xs);
    assert Keys(r)[i] == r[i].0 && Keys(r)[j] == r[j].0;
    assert r[i].0 in init by { assert Keys(t)[i] == r[i].0; }
    if j < |t| {
      assert Keys(t)[j] == r[j].0 && Keys(t)[i] == r[i].0;
      assert t[i].0 == r[i].0 && t[j].0 == r[j].0;
      assert FirstSeenBefore(init, t, i, j);
    } else {
      assert r[j].0 == x && x !in init;
      assert FirstIndex(xs, x) == |init|;
    }
  }

  lemma {:induction false} FirstIndexPrefix<K>(xs: seq<K>, x: K, k: K)
    requires k in xs
    ensures FirstIndex(xs + [x], k) == FirstIndex(xs, k)
  {
    if xs[0] != k {
      assert (xs + [x])[1..] == xs[1..] + [x];
      assert k in xs[1..] by {
        var i :| 0 <= i < |xs| && xs[i] == k;
        assert xs[1..][i - 1] == k;
      }
      FirstIndexPrefix(xs[1..], x, k);
    }
  }

  // ---------------------------------------------------------------------------
  // Filtering keys commutes with counting

  lemma {:induction false} DropAppend<K>(t: Counts<K>, e: (K, nat), ex: seq<K>)
    ensures Drop(t + [e], ex) == Drop(t, ex) + (if e.0 in ex then [] else [e])
  {
    if t != [] {
      assert (t + [e])[1..] == t[1..] + [e];
      DropAppend(t[1..], e, ex);
    }
  }

  lemma {:induction false} DropIncrement<K>(t: Counts<K>, k: K, ex: seq<K>)
    ensures Drop(Increment(t, k), ex) == if k in ex then Drop(t, ex) else Increment(Drop(t, ex), k)
  {
    if t != [] {
      if t[0].0 == k {
        DropIncrementHead(t, k, ex);
      } else {
        DropIncrement(t[1..], k, ex);
        DropIncrementTail(t, k, ex);
      }
    }
  }

  lemma DropIncrementHead<K>(t: Counts<K>, k: K, ex: seq<K>)
    requires t != [] && t[0].0 == k
    ensures Drop(Increment(t, k), ex) == if k in ex then Drop(t, ex) else Increment(Drop(t, ex), k)
  {
    var d := Drop(t[1..], ex);
    var u := [(k, t[0].1 + 1)] + t[1..];
    assert Increment(t, k) == u && u[1..] == t[1..];
    if k !in ex {
      assert Drop(u, ex) == [u[0]] + d;
      assert ([t[0]] + d)[1..] == d;
    }
  }

  lemma DropIncrementTail<K>(t: Counts<K>, k: K, ex: seq<K>)
    requires t != [] && t[0].0 != k
    requires Drop(Increment(t[1..], k), ex) ==
      if k in ex then Drop(t[1..], ex) else Increment(Drop(t[1..], ex), k)
    ensures Drop(Increment(t, k), ex) == if k in ex then Drop(t, ex) else Increment(Drop(t, ex), k)
  {
    var d := Drop(t[1..], ex);
    var u := [t[0]] + Increment(t[1..], k);
    assert Increment(t, k) == u && u[1..] == Increment(t[1..], k);
    if t[0].0 !in ex && k !in ex {
      assert ([t[0]] + d)[1..] == d;
    }
  }

  lemma {:induction false} DropKeys<K>(t: Counts<K>, k: K, ex: seq<K>)
    requires k !in ex
    ensures k in Keys(Drop(t, ex)) <==> k in Keys(t)
  {
    if t != [] {
      assert Keys(t[1..]) == Keys(t)[1..];
      assert Keys(t)[0] == t[0].0;
      DropKeys(t[1..], k, ex);
      assert k in Keys(t) <==> t[0].0 == k || k in Keys(t[1..]);
      if t[0].0 !in ex {
        var d := Drop(t[1..], ex);
        assert Keys([t[0]] + d) == [t[0].0] + Keys(d);
      }
    }
  }

  /** Dropping keys from the dictionary gives the dictionary of the list without them. */
  lemma {:induction false} DropTally<K>(xs: seq<K>, ex: seq<K>)
    ensures Drop(Tally(xs), ex) == Tally(Exclude(xs, ex))
  {
    if xs != [] {
      var init := xs[..|xs| - 1];
      var x := xs[|xs| - 1];
      DropTally(init, ex);
      var t := Tally(init);
      var u := if x in Keys(t) then t else AddKey(t, x);
      DropIncrement(u, x, ex);
      if x !in Keys(t) {
        DropAppend(t, (x, 0), ex);
      }
      if x !in ex {
        DropKeys(t, x, ex);
      }
    }
  }

  /** Removing one value from a list leaves |xs| minus its occurrences. */
  lemma {:induction false} ExcludeOne<K>(xs: seq<K>, a: K)
    ensures |Exclude(xs, [a])| == |xs| - multiset(xs)[a]
  {
    if xs != [] {
      var init := xs[..|xs| - 1];
      assert xs == init + [xs[|xs| - 1]];
      ExcludeOne(init, a);
    }
  }

  /** Removing two different values leaves |xs| minus both their occurrences. */
  lemma {:induction false} ExcludeTwo<K>(xs: seq<K>, a: K, b: K)
    requires a != b
    ensures |Exclude(xs, [a, b])| == |xs| - multiset(xs)[a] - multiset(xs)[b]
  {
    if xs != [] {
      var init := xs[..|xs| - 1];
      assert xs == init + [xs[|xs| - 1]];
      ExcludeTwo(init, a, b);
    }
  }

  /** The counts of the entries kept by Drop add up to the number of list elements not dropped. */
  lemma SumDrop<K>(xs: seq<K>, ex: seq<K>)
    ensures Sum(Drop(Tally(xs), ex)) == |Exclude(xs, ex)|
  {
    DropTally(xs, ex);
    TallyCounts(Exclude(xs, ex));
  }

  // ---------------------------------------------------------------------------
  // One pass of the counting loop on a concrete dictionary

  /** Incrementing a key that is not there changes nothing. */
  lemma {:induction false} IncrementAbsent<K>(t: Counts<K>, k: K)
    requires k !in Keys(t)
    ensures Increment(t, k) == t
  {
    if t != [] {
      assert Keys(t)[0] == t[0].0 && Keys(t[1..]) == Keys(t)[1..];
      IncrementAbsent(t[1..], k);
    }
  }

  /** Incrementing a key that is at position i and nowhere before it. */
  lemma {:induction false} IncrementAt<K>(t: Counts<K>, i: nat)
    requires i < |t| && forall j :: 0 <= j < i ==> t[j].0 != t[i].0
    ensures Increment(t, t[i].0) == t[..i] + [(t[i].0, t[i].1 + 1)] + t[i + 1..]
  {
    if i > 0 {
      IncrementAt(t[1..], i - 1);
      assert t[1..][..i - 1] == t[1..i];
      assert t[..i] == [t[0]] + t[1..i];
    }
  }

  /** Counting a new key appends it with count 1. */
  lemma RecordNew<K>(t: Counts<K>, k: K)
    requires k !in Keys(t)
    ensures Record(t, k) == t + [(k, 1)]
  {
    IncrementAbsent(t, k);
    assert AddKey(t, k) == t + [(k, 0)];
    IncrementAt(t + [(k, 0)], |t|);
    assert (t + [(k, 0)])[..|t|] == t;
  }

  /** Counting a key already at position i raises its count in place. */
  lemma RecordOld<K>(t: Counts<K>, i: nat)
    requires i < |t| && forall j :: 0 <= j < i ==> t[j].0 != t[i].0
    ensures Record(t, t[i].0) == t[..i] + [(t[i].0, t[i].1 + 1)] + t[i + 1..]
  {
    assert Keys(t)[i] == t[i].0;
    IncrementAt(t, i);
  }

  /** The counting loop after i + 1 elements is one more pass after i elements. */
  lemma TallyStep<K>(xs: seq<K>, i: nat)
    requires i < |xs|
    ensures Tally(xs[..i + 1]) == Record(Tally(xs[..i]), xs[i])
  {
    assert xs[..i + 1][..i] == xs[..i];
  }

  /** Counting one more element that has not been seen: it is listed last, once. */
  lemma TallyAppendNew<K>(xs: seq<K>, k: K)
    requires k !in Keys(Tally(xs))
    ensures Tally(xs + [k]) == Tally(xs) + [(k, 1)]
  {
    var ys := xs + [k];
    assert ys[..|ys| - 1] == xs;
    RecordNew(Tally(xs), k);
  }

  /** Counting one more element already listed at position i: only its count grows. */
  lemma TallyAppendOld<K>(xs: seq<K>, t: Counts<K>, i: nat)
    requires Tally(xs) == t && i < |t|
    requires forall j :: 0 <= j < i ==> t[j].0 != t[i].0
    ensures Tally(xs + [t[i].0]) == t[..i] + [(t[i].0, t[i].1 + 1)] + t[i + 1..]
  {
    var ys := xs + [t[i].0];
    assert ys[..|ys| - 1] == xs;
    RecordOld(t, i);
  }
}
