/** Order-preserving list operations shared by the snapshot diff, the listing
    tracker and the URL accumulation of the fetcher. */
module Seqs {

  predicate NoDups<T(==,!new)>(s: seq<T>) {
    forall i, j :: 0 <= i < j < |s| ==> s[i] != s[j]
  }

  /** `[x for x in xs if x not in drop]`: the elements of `xs` outside `drop`,
      in their order and with their repetitions. */
  function Minus<T(==,!new)>(xs: seq<T>, drop: set<T>): (r: seq<T>)
    ensures |r| <= |xs|
  {
    if |xs| == 0 then []
    else if xs[0] in drop then Minus(xs[1..], drop) else [xs[0]] + Minus(xs[1..], drop)
  }

  /** The elements kept are those of `xs` outside `drop`, each as often as
      in `xs`. */
  lemma {:induction false} MinusFacts<T(!new)>(xs: seq<T>, drop: set<T>)
    ensures forall x :: x in Minus(xs, drop) <==> x in xs && x !in drop
    ensures forall x :: multiset(Minus(xs, drop))[x] == if x in drop then 0 else multiset(xs)[x]
  {
    if |xs| > 0 {
      MinusFacts(xs[1..], drop);
      assert xs == [xs[0]] + xs[1..];
      assert multiset(xs) == multiset{xs[0]} + multiset(xs[1..]);
    }
  }

  /** Filtering distributes over concatenation; together with the contract on
      a single element this pins the order of `Minus`'s result down. */
  lemma {:induction false} MinusConcat<T(!new)>(a: seq<T>, b: seq<T>, drop: set<T>)
    ensures Minus(a + b, drop) == Minus(a, drop) + Minus(b, drop)
  {
    if |a| > 0 {
      assert (a + b)[1..] == a[1..] + b;
      assert (a + b)[0] == a[0];
      MinusConcat(a[1..], b, drop);
    } else {
      assert a + b == b;
    }
  }

  /** Removing nothing, or removing what is not there, keeps the list. */
  lemma {:induction false} MinusDisjoint<T(!new)>(xs: seq<T>, drop: set<T>)
    requires forall x :: x in xs ==> x !in drop
    ensures Minus(xs, drop) == xs
  {
    if |xs| > 0 {
      assert xs[0] in xs;
      assert forall x :: x in xs[1..] ==> x in xs;
      MinusDisjoint(xs[1..], drop);
    }
  }

  /** Removing every element leaves nothing. */
  lemma MinusCovered<T(!new)>(xs: seq<T>, drop: set<T>)
    requires forall x :: x in xs ==> x in drop
    ensures Minus(xs, drop) == []
  {
  }

  /** `for x in xs: if x not in acc: acc.append(x)`. */
  function AppendNew<T(==,!new)>(acc: seq<T>, xs: seq<T>): seq<T>
    decreases |xs|
  {
    if |xs| == 0 then acc
    else AppendNew(if xs[0] in acc then acc else acc + [xs[0]], xs[1..])
  }

  /** `acc` is kept in front, nothing but the elements of `acc` and `xs`
      ends up in the result, and each of them does; no repetition is
      introduced. */
  lemma {:induction false} AppendNewFacts<T(!new)>(acc: seq<T>, xs: seq<T>)
    ensures |acc| <= |AppendNew(acc, xs)| && AppendNew(acc, xs)[..|acc|] == acc
    ensures forall x :: x in AppendNew(acc, xs) <==> x in acc || x in xs
    ensures NoDups(acc) ==> NoDups(AppendNew(acc, xs))
    decreases |xs|
  {
    if |xs| > 0 {
      var acc' := if xs[0] in acc then acc else acc + [xs[0]];
      AppendNewFacts(acc', xs[1..]);
      var r := AppendNew(acc', xs[1..]);
      assert acc'[..|acc|] == acc;
      assert r[..|acc|] == r[..|acc'|][..|acc|];
      assert forall x :: x in xs <==> x == xs[0] || x in xs[1..];
    }
  }

  /** The elements of `xs` that are not in `acc`, each at its first
      occurrence, in order: the reference for what `AppendNew` appends. */
  function FirstOccurrences<T(==,!new)>(xs: seq<T>, acc: seq<T>): seq<T> {
    if |xs| == 0 then []
    else
      var init := xs[..|xs| - 1];
      var last := xs[|xs| - 1];
      FirstOccurrences(init, acc) + (if last in acc || last in init then [] else [last])
  }

  /** Appending first `a` and then `b` is appending `a + b`. */
  lemma {:induction false} AppendNewConcat<T(!new)>(acc: seq<T>, a: seq<T>, b: seq<T>)
    ensures AppendNew(acc, a + b) == AppendNew(AppendNew(acc, a), b)
    decreases |a|
  {
    if |a| > 0 {
      assert (a + b)[0] == a[0];
      assert (a + b)[1..] == a[1..] + b;
      var acc' := if a[0] in acc then acc else acc + [a[0]];
      AppendNewConcat(acc', a[1..], b);
    } else {
      assert a + b == b;
    }
  }

  /** Appending one element adds it unless it is already there. */
  lemma AppendNewSingle<T(!new)>(acc: seq<T>, x: T)
    ensures AppendNew(acc, [x]) == if x in acc then acc else acc + [x]
  {
    assert [x][1..] == [];
  }

  /** One step of the reference definition: adding `last` behind `init`. */
  lemma FirstOccurrencesSnoc<T(!new)>(acc: seq<T>, init: seq<T>, last: T, mid: seq<T>, whole: seq<T>)
    requires mid == acc + FirstOccurrences(init, acc)
    requires last in mid <==> last in acc || last in init
    requires whole == if last in mid then mid else mid + [last]
    ensures whole == acc + FirstOccurrences(init + [last], acc)
  {
    var xs := init + [last];
    assert xs[..|xs| - 1] == init && xs[|xs| - 1] == last;
    var tail := if last in acc || last in init then [] else [last];
    assert FirstOccurrences(xs, acc) == FirstOccurrences(init, acc) + tail;
    assert whole == mid + tail;
    ConcatAssoc(acc, FirstOccurrences(init, acc), tail);
  }

  /** `AppendNew(acc, xs)` is `acc` followed by the first occurrences in `xs`
      of the elements not already in `acc`. */
  lemma {:induction false} AppendNewIsFirstOccurrences<T(!new)>(acc: seq<T>, xs: seq<T>)
    ensures AppendNew(acc, xs) == acc + FirstOccurrences(xs, acc)
  {
    if |xs| == 0 {
      assert acc + [] == acc;
    } else {
      var init := xs[..|xs| - 1];
      var last := xs[|xs| - 1];
      assert xs == init + [last];
      AppendNewIsFirstOccurrences(acc, init);
      AppendNewConcat(acc, init, [last]);
      var mid := AppendNew(acc, init);
      AppendNewFacts(acc, init);
      AppendNewSingle(mid, last);
      FirstOccurrencesSnoc(acc, init, last, mid, AppendNew(acc, xs));
    }
  }

  /** `list(dict.fromkeys(xs))`: the distinct elements in first-seen order. */
  function Dedup<T(==,!new)>(xs: seq<T>): (r: seq<T>)
    ensures NoDups(r)
    ensures forall x :: x in r <==> x in xs
  {
    AppendNewFacts([], xs);
    AppendNew([], xs)
  }

  /** Appending a list that was already de-duplicated changes nothing. */
  lemma {:induction false} AppendNewDedup<T(!new)>(acc: seq<T>, xs: seq<T>)
    ensures AppendNew(acc, Dedup(xs)) == AppendNew(acc, xs)
  {
    if |xs| > 0 {
      var init := xs[..|xs| - 1];
      var last := xs[|xs| - 1];
      assert xs == init + [last];
      AppendNewDedup(acc, init);
      var d := Dedup(init);
      var m := AppendNew(acc, d);
      AppendNewConcat([], init, [last]);
      AppendNewSingle(d, last);
      AppendNewConcat(acc, init, [last]);
      if last in d {
        AppendNewFacts(acc, d);
        AppendNewSingle(m, last);
        assert last in m;
      } else {
        AppendNewConcat(acc, d, [last]);
      }
    }
  }

  /** Distinct elements none of which is present yet are all appended, in
      order. */
  lemma {:induction false} AppendNewFresh<T(!new)>(acc: seq<T>, xs: seq<T>)
    requires NoDups(xs)
    requires forall x :: x in xs ==> x !in acc
    ensures AppendNew(acc, xs) == acc + xs
    decreases |xs|
  {
    if |xs| > 0 {
      var acc' := acc + [xs[0]];
      FreshTail(acc, xs);
      assert AppendNew(acc, xs) == AppendNew(acc', xs[1..]);
      AppendNewFresh(acc', xs[1..]);
      ConcatAssoc(acc, [xs[0]], xs[1..]);
      assert [xs[0]] + xs[1..] == xs;
    }
  }

  lemma FreshTail<T(!new)>(acc: seq<T>, xs: seq<T>)
    requires |xs| > 0 && NoDups(xs)
    requires forall x :: x in xs ==> x !in acc
    ensures xs[0] !in acc
    ensures NoDups(xs[1..])
    ensures forall x :: x in xs[1..] ==> x !in acc + [xs[0]]
  {
    var rest := xs[1..];
    forall x | x in rest ensures x !in acc + [xs[0]] {
      var k :| 0 <= k < |rest| && rest[k] == x;
      assert xs[k + 1] == x;
    }
    forall i, j | 0 <= i < j < |rest| ensures rest[i] != rest[j] {
      assert rest[i] == xs[i + 1] && rest[j] == xs[j + 1];
    }
  }

  /** A list without repetitions is its own de-duplication. */
  lemma DedupOfDistinct<T(!new)>(xs: seq<T>)
    requires NoDups(xs)
    ensures Dedup(xs) == xs
  {
    AppendNewFresh([], xs);
  }

  /** Appending behind a non-empty sequence keeps its head in front. */
  lemma ConsSnoc<T>(xs: seq<T>, y: T)
    requires |xs| > 0
    ensures xs + [y] == [xs[0]] + (xs[1..] + [y])
  {
  }

  lemma ConcatAssoc<T>(a: seq<T>, b: seq<T>, c: seq<T>)
    ensures a + b + c == a + (b + c)
  {
  }

  lemma HeadAndTail<T>(x: T, ys: seq<T>, zs: seq<T>)
    ensures ([x] + ys + zs)[0] == x
    ensures ([x] + ys + zs)[1..] == ys + zs
  {
  }

  lemma ThreeWaySplit<T>(s: seq<T>, k: int, m: int)
    requires 0 <= k <= m <= |s|
    ensures s == s[..k] + s[k..m] + s[m..]
  {
  }
}
