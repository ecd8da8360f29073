/** Stable sorting by a total preorder, and the code point order on text.
    Sorting in the repository's tools is a library call; what the tools rely on is stated here once. */
module Sorting {

  ghost predicate TotalPreorder<T(!new)>(le: (T, T) -> bool) {
    && (forall a, b :: le(a, b) || le(b, a))
    && (forall a, b, c :: le(a, b) && le(b, c) ==> le(a, c))
  }

  ghost predicate TotalOrder<T(!new)>(le: (T, T) -> bool) {
    && TotalPreorder(le)
    && (forall a, b :: le(a, b) && le(b, a) ==> a == b)
  }

  ghost predicate Sorted<T>(s: seq<T>, le: (T, T) -> bool) {
    forall i, j | 0 <= i < j < |s| :: le(s[i], s[j])
  }

  /** Puts x in front of the first element that is not smaller, so earlier equals stay earlier. */
  function Insert<T>(x: T, s: seq<T>, le: (T, T) -> bool): seq<T> {
    if s == [] then [x] else if le(x, s[0]) then [x] + s else [s[0]] + Insert(x, s[1..], le)
  }

  function Sort<T>(s: seq<T>, le: (T, T) -> bool): seq<T> {
    if s == [] then [] else Insert(s[0], Sort(s[1..], le), le)
  }

  lemma {:induction false} InsertKeeps<T(!new)>(x: T, s: seq<T>, le: (T, T) -> bool)
    ensures multiset(Insert(x, s, le)) == multiset{x} + multiset(s)
    ensures TotalPreorder(le) && Sorted(s, le) ==> Sorted(Insert(x, s, le), le)
  {
    if s == [] {
    } else {
      assert s == [s[0]] + s[1..];
      if le(x, s[0]) {
      } else {
        InsertKeeps(x, s[1..], le);
        var rest := Insert(x, s[1..], le);
        if TotalPreorder(le) && Sorted(s, le) {
          forall j | 0 <= j < |rest| ensures le(s[0], rest[j]) {
            assert rest[j] in multiset(rest);
            assert rest[j] == x || rest[j] in s[1..];
          }
        }
      }
    }
  }

  lemma {:induction false} SortPermutes<T(!new)>(s: seq<T>, le: (T, T) -> bool)
    ensures multiset(Sort(s, le)) == multiset(s)
    ensures |Sort(s, le)| == |s|
  {
    if s == [] {
    } else {
      SortPermutes(s[1..], le);
      InsertKeeps(s[0], Sort(s[1..], le), le);
      assert s == [s[0]] + s[1..];
    }
    assert |multiset(Sort(s, le))| == |multiset(s)|;
  }

  lemma {:induction false} SortSorts<T(!new)>(s: seq<T>, le: (T, T) -> bool)
    requires TotalPreorder(le)
    ensures Sorted(Sort(s, le), le)
  {
    if s == [] {
    } else {
      SortSorts(s[1..], le);
      InsertKeeps(s[0], Sort(s[1..], le), le);
    }
  }

  lemma SortedHead<T(!new)>(a: seq<T>, b: seq<T>, le: (T, T) -> bool)
    requires TotalPreorder(le) && Sorted(a, le) && multiset(a) == multiset(b) && a != [] && b != []
    ensures le(a[0], b[0])
  {
    assert b[0] in multiset(a);
    var j :| 0 <= j < |a| && a[j] == b[0];
    assert le(a[0], a[0]);
  }

  lemma DropHead<T>(a: seq<T>)
    requires a != []
    ensures multiset(a[1..]) == multiset(a) - multiset{a[0]}
  {
    assert a == [a[0]] + a[1..];
  }

  /** A multiset has one sorted listing. */
  lemma {:induction false} SortedUnique<T(!new)>(a: seq<T>, b: seq<T>, le: (T, T) -> bool)
    requires TotalOrder(le) && Sorted(a, le) && Sorted(b, le)
    requires multiset(a) == multiset(b)
    ensures a == b
  {
    assert |multiset(a)| == |multiset(b)|;
    if a == [] {
    } else {
      SortedHead(a, b, le);
      SortedHead(b, a, le);
      assert a[0] == b[0];
      DropHead(a);
      DropHead(b);
      SortedUnique(a[1..], b[1..], le);
    }
  }

  /** Sorting forgets the order of its input, and nothing else. */
  lemma SortIsCanonical<T(!new)>(a: seq<T>, b: seq<T>, le: (T, T) -> bool)
    requires TotalOrder(le)
    ensures Sort(a, le) == Sort(b, le) <==> multiset(a) == multiset(b)
  {
    SortPermutes(a, le);
    SortPermutes(b, le);
    if multiset(a) == multiset(b) {
      SortSorts(a, le);
      SortSorts(b, le);
      SortedUnique(Sort(a, le), Sort(b, le), le);
    }
  }

  // ----- rearrangements

  /** Every index below n once. */
  ghost predicate Permutation(perm: seq<nat>, n: nat) {
    |perm| == n && (forall i | 0 <= i < n :: perm[i] < n) && forall i, j | 0 <= i < j < n :: perm[i] != perm[j]
  }

  /** Removes value j from a permutation and closes the gap. */
  function Without(perm: seq<nat>, j: nat): seq<nat> {
    seq(|perm|, i requires 0 <= i < |perm| => if perm[i] > j then perm[i] - 1 else perm[i])
  }

  /** Makes room for value j at the end. */
  function With(perm: seq<nat>, j: nat): seq<nat> {
    seq(|perm|, i requires 0 <= i < |perm| => if perm[i] < j then perm[i] else perm[i] + 1) + [j]
  }

  function DropAt<T>(a: seq<T>, j: nat): seq<T>
    requires j < |a|
  {
    a[..j] + a[j + 1..]
  }

  lemma DropAtMultiset<T>(a: seq<T>, j: nat)
    requires j < |a|
    ensures multiset(a) == multiset(DropAt(a, j)) + multiset{a[j]}
  {
    assert a == a[..j] + [a[j]] + a[j + 1..];
  }

  lemma DropBoth<T>(a: seq<T>, j: nat, b: seq<T>, n: nat)
    requires multiset(a) == multiset(b) && j < |a| && |b| == n + 1 && a[j] == b[n]
    ensures multiset(DropAt(a, j)) == multiset(b[..n])
  {
    DropAtMultiset(a, j);
    DropAtMultiset(b, n);
    assert b[..n] == DropAt(b, n);
    assert multiset(DropAt(a, j)) == multiset(a) - multiset{a[j]};
  }

  lemma WithIndexes<T>(a: seq<T>, j: nat, less: seq<nat>)
    requires j < |a| && Permutation(less, |a| - 1)
    ensures Permutation(With(less, j), |a|)
    ensures forall i | 0 <= i < |less| :: a[With(less, j)[i]] == DropAt(a, j)[less[i]]
  {
    var perm := With(less, j);
    forall i, k | 0 <= i < k < |a| ensures perm[i] != perm[k] {
      if k < |less| {
        assert less[i] != less[k];
      }
    }
  }

  /** Equal multisets are listings of each other. */
  lemma {:induction false} MultisetsRearrange<T>(a: seq<T>, b: seq<T>) returns (perm: seq<nat>)
    requires multiset(a) == multiset(b)
    ensures |a| == |b| && Permutation(perm, |a|)
    ensures forall i | 0 <= i < |b| :: b[i] == a[perm[i]]
  {
    assert |multiset(a)| == |multiset(b)|;
    if b == [] {
      perm := [];
    } else {
      var n := |b| - 1;
      assert b[n] in multiset(a);
      var j :| 0 <= j < |a| && a[j] == b[n];
      DropBoth(a, j, b, n);
      var less := MultisetsRearrange(DropAt(a, j), b[..n]);
      WithIndexes(a, j, less);
      perm := With(less, j);
    }
  }

  lemma {:induction false} RearrangedMultisets<T>(a: seq<T>, b: seq<T>, perm: seq<nat>)
    requires |a| == |b| && Permutation(perm, |a|)
    requires forall i | 0 <= i < |b| :: b[i] == a[perm[i]]
    ensures multiset(a) == multiset(b)
  {
    if b != [] {
      var n := |b| - 1;
      DropAtMultiset(a, perm[n]);
      DropAtMultiset(b, n);
      assert b[..n] == DropAt(b, n);
      RearrangedMultisets(DropAt(a, perm[n]), b[..n], Without(perm[..n], perm[n]));
    }
  }

  /** Code point order, as Python and Rust compare strings. */
  predicate TextLe(a: string, b: string) {
    a == [] || (b != [] && (a[0] < b[0] || (a[0] == b[0] && TextLe(a[1..], b[1..]))))
  }

  lemma {:induction false} TextLeTotal(a: string, b: string)
    ensures TextLe(a, b) || TextLe(b, a)
    ensures TextLe(a, b) && TextLe(b, a) ==> a == b
  {
    if a == [] || b == [] {
    } else {
      TextLeTotal(a[1..], b[1..]);
      assert a == [a[0]] + a[1..] && b == [b[0]] + b[1..];
    }
  }

  lemma {:induction false} TextLeTransitive(a: string, b: string, c: string)
    requires TextLe(a, b) && TextLe(b, c)
    ensures TextLe(a, c)
  {
    if a == [] {
    } else if a[0] == b[0] && b[0] == c[0] {
      TextLeTransitive(a[1..], b[1..], c[1..]);
    }
  }

  lemma TextLeIsOrder()
    ensures TotalOrder(TextLe)
  {
    forall a, b ensures (TextLe(a, b) || TextLe(b, a)) && (TextLe(a, b) && TextLe(b, a) ==> a == b) {
      TextLeTotal(a, b);
    }
    forall a, b, c | TextLe(a, b) && TextLe(b, c) ensures TextLe(a, c) {
      TextLeTransitive(a, b, c);
    }
  }
}
