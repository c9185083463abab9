/**
 * The collection and string extension methods of the Extensions project
 * (`General`): appending items and ranges, unique additions, counting,
 * range removal, copying into an observable collection and `DistinctBy`.
 *
 * A mutable .NET collection is a `Collection<T>` object whose `items` the
 * methods reassign; a `StringBuilder` is an object holding its `content`.
 * The sequence functions below (`AddUnique`, `AddAllUnique`, `RemoveFirst`,
 * `FirstsBy`) are the specifications the methods are proved against, and the
 * validation models reuse them.
 */
module General {
  import opened Wrappers

  // ---------------------------------------------------------------------
  // Sequence vocabulary
  // ---------------------------------------------------------------------

  /** No element occurs twice. */
  predicate NoDuplicates<T(==)>(s: seq<T>) {
    forall i, j :: 0 <= i < j < |s| ==> s[i] != s[j]
  }

  /** `a` can be obtained from `b` by deleting elements (order is kept). */
  predicate IsSubsequence<T(==)>(a: seq<T>, b: seq<T>)
    decreases |b|
  {
    if a == [] then true
    else if b == [] then false
    else (a[|a| - 1] == b[|b| - 1] && IsSubsequence(a[..|a| - 1], b[..|b| - 1]))
         || IsSubsequence(a, b[..|b| - 1])
  }

  function Identity<T>(x: T): T { x }

  // ---------------------------------------------------------------------
  // Add(this IEnumerable<T>, T item): a new enumerable, nothing is mutated
  // ---------------------------------------------------------------------

  /** The enumeration of `collection` followed by `item`. */
  function Add<T>(collection: seq<T>, item: T): (r: seq<T>)
    ensures |r| == |collection| + 1
    ensures r[..|collection|] == collection && r[|collection|] == item
  {
    collection + [item]
  }

  // ---------------------------------------------------------------------
  // Unique additions
  // ---------------------------------------------------------------------

  /** `e` appended unless it is already present. */
  function AddUnique<T(==)>(l: seq<T>, e: T): (r: seq<T>)
    ensures e in r
    ensures e in l ==> r == l
    ensures e !in l ==> r == l + [e]
  {
    if e in l then l else l + [e]
  }

  /**
   * Each element of `es`, in order, appended unless already present at the
   * moment it is considered: the effect of calling `AddUnique` for every
   * element of `es` in turn. Nothing already in `l` moves or disappears.
   */
  function AddAllUnique<T(==)>(l: seq<T>, es: seq<T>): (r: seq<T>)
    ensures l <= r
    ensures NoDuplicates(l) ==> NoDuplicates(r)
    decreases |es|
  {
    if es == [] then l
    else AddUnique(AddAllUnique(l, es[..|es| - 1]), es[|es| - 1])
  }

  /** Every element of `es` ends up in the result, and every element of the result comes from `l` or `es`. */
  lemma {:induction false} AddAllUniqueMembers<T>(l: seq<T>, es: seq<T>)
    ensures forall i :: 0 <= i < |es| ==> es[i] in AddAllUnique(l, es)
    ensures forall x :: x in AddAllUnique(l, es) ==> x in l || x in es
    decreases |es|
  {
    if es != [] {
      var init := es[..|es| - 1];
      AddAllUniqueMembers(l, init);
      assert forall i :: 0 <= i < |init| ==> init[i] == es[i];
    }
  }

  /** Adding `a` and then `b` is adding `a + b`. */
  lemma {:induction false} AddAllUniqueConcat<T>(l: seq<T>, a: seq<T>, b: seq<T>)
    ensures AddAllUnique(AddAllUnique(l, a), b) == AddAllUnique(l, a + b)
    decreases |b|
  {
    if b == [] {
      assert a + b == a;
    } else {
      var b' := b[..|b| - 1];
      AddAllUniqueConcat(l, a, b');
      assert (a + b)[..|a + b| - 1] == a + b';
      assert (a + b)[|a + b| - 1] == b[|b| - 1];
    }
  }

  /** Once every element of `es` is present, adding `es` again changes nothing. */
  lemma {:induction false} AddAllUniqueAbsorbs<T>(l: seq<T>, es: seq<T>)
    requires forall i :: 0 <= i < |es| ==> es[i] in l
    ensures AddAllUnique(l, es) == l
    decreases |es|
  {
    if es != [] {
      AddAllUniqueAbsorbs(l, es[..|es| - 1]);
      assert es[|es| - 1] in es;
    }
  }

  /** Repeating the same unique additions is a no-op. */
  lemma AddAllUniqueIdempotent<T>(l: seq<T>, es: seq<T>)
    ensures AddAllUnique(AddAllUnique(l, es), es) == AddAllUnique(l, es)
  {
    AddAllUniqueMembers(l, es);
    AddAllUniqueAbsorbs(AddAllUnique(l, es), es);
  }

  /**
   * Partner of `AddAllUnique`: on a duplicate-free start it is exactly the
   * first-occurrence filter of `l + es` (LINQ `Distinct`, or `DistinctBy`
   * with the identity key).
   */
  lemma {:induction false} AddAllUniqueIsFirstOccurrences<T>(l: seq<T>, es: seq<T>)
    requires NoDuplicates(l)
    ensures AddAllUnique(l, es) == FirstsBy(l + es, Identity)
    decreases |es|
  {
    if es == [] {
      assert l + es == l;
      FirstsByOfDuplicateFree(l);
    } else {
      var es' := es[..|es| - 1];
      var e := es[|es| - 1];
      AddAllUniqueIsFirstOccurrences(l, es');
      assert (l + es)[..|l + es| - 1] == l + es';
      assert (l + es)[|l + es| - 1] == e;
      FirstsByKeys(l + es', Identity);
      IdentityKeys(l + es');
      IdentityKeys(FirstsBy(l + es', Identity));
    }
  }

  lemma IdentityKeys<T>(s: seq<T>)
    ensures KeysOf(s, Identity) == set x | x in s
  {
    forall x | x in s ensures x in KeysOf(s, Identity) {
      var i :| 0 <= i < |s| && s[i] == x;
      assert Identity(s[i]) == x;
    }
  }

  lemma {:induction false} FirstsByOfDuplicateFree<T>(s: seq<T>)
    requires NoDuplicates(s)
    ensures FirstsBy(s, Identity) == s
    decreases |s|
  {
    if s != [] {
      var init := s[..|s| - 1];
      FirstsByOfDuplicateFree(init);
      IdentityKeys(init);
      assert s[|s| - 1] !in init;
      assert init + [s[|s| - 1]] == s;
    }
  }

  // ---------------------------------------------------------------------
  // Removal of one occurrence
  // ---------------------------------------------------------------------

  /** `ICollection<T>.Remove`: drops the first occurrence of `x`, if any. */
  function RemoveFirst<T(==)>(s: seq<T>, x: T): (r: seq<T>)
    ensures x !in s ==> r == s
    ensures x in s ==> |r| == |s| - 1
    ensures multiset(r) == multiset(s) - multiset{x}
  {
    if s == [] then []
    else
      assert s == [s[0]] + s[1..];
      if s[0] == x then s[1..]
      else [s[0]] + RemoveFirst(s[1..], x)
  }

  /**
   * The copy `RemoveFirst` drops is the first one, and the elements around
   * it keep their order.
   */
  lemma {:induction false} RemoveFirstDropsFirstCopy<T>(s: seq<T>, x: T)
    requires x in s
    ensures exists k :: 0 <= k < |s| && s[k] == x && x !in s[..k] && RemoveFirst(s, x) == s[..k] + s[k + 1..]
    decreases |s|
  {
    if s[0] == x {
      assert s[..0] + s[1..] == s[1..];
      assert 0 < |s| && s[0] == x && x !in s[..0] && RemoveFirst(s, x) == s[..0] + s[1..];
    } else {
      var t := s[1..];
      assert x in t;
      RemoveFirstDropsFirstCopy(t, x);
      var k :| 0 <= k < |t| && t[k] == x && x !in t[..k] && RemoveFirst(t, x) == t[..k] + t[k + 1..];
      TailSlices(s, k);
      ConcatAssociative([s[0]], t[..k], t[k + 1..]);
      assert RemoveFirst(s, x) == s[..k + 1] + s[k + 2..];
    }
  }

  /** Slices of `s[1..]`, seen as slices of `s`. */
  lemma TailSlices<T>(s: seq<T>, k: nat)
    requires k + 1 < |s|
    ensures s[..k + 1] == [s[0]] + s[1..][..k]
    ensures s[k + 2..] == s[1..][k + 1..]
  {
  }

  /** The effect of removing each element of `range`, in order. */
  function RemoveEach<T(==)>(s: seq<T>, range: seq<T>): seq<T>
    decreases |range|
  {
    if range == [] then s
    else RemoveFirst(RemoveEach(s, range[..|range| - 1]), range[|range| - 1])
  }

  /** One more element of the range is one more `Remove`. */
  lemma RemoveEachStep<T>(s: seq<T>, range: seq<T>, i: nat)
    requires i < |range|
    ensures RemoveEach(s, range[..i + 1]) == RemoveFirst(RemoveEach(s, range[..i]), range[i])
  {
    assert range[..i + 1][..i] == range[..i];
  }

  /** Every sequence is a subsequence of itself. */
  lemma {:induction false} SubsequenceReflexive<T>(a: seq<T>)
    ensures IsSubsequence(a, a)
    decreases |a|
  {
    if a != [] {
      SubsequenceReflexive(a[..|a| - 1]);
    }
  }

  /** Deleting one element leaves a subsequence. */
  lemma {:induction false} DropOneIsSubsequence<T>(a: seq<T>, y: T, c: seq<T>)
    ensures IsSubsequence(a + c, a + [y] + c)
    decreases |c|
  {
    if c == [] {
      assert a + c == a && (a + [y] + c)[..|a|] == a;
      SubsequenceReflexive(a);
    } else {
      var c' := c[..|c| - 1];
      DropOneIsSubsequence(a, y, c');
      assert (a + c)[..|a + c| - 1] == a + c';
      assert (a + [y] + c)[..|a + [y] + c| - 1] == a + [y] + c';
    }
  }

  lemma SplitAt<T>(s: seq<T>, k: nat)
    requires k < |s|
    ensures s[..k] + [s[k]] + s[k + 1..] == s
  {
  }

  /** A subsequence of a subsequence is a subsequence. */
  lemma {:induction false} SubsequenceTransitive<T>(a: seq<T>, b: seq<T>, c: seq<T>)
    requires IsSubsequence(a, b) && IsSubsequence(b, c)
    ensures IsSubsequence(a, c)
    decreases |c|
  {
    if a != [] {
      var a', b', c' := a[..|a| - 1], b[..|b| - 1], c[..|c| - 1];
      if b[|b| - 1] == c[|c| - 1] && IsSubsequence(b', c') {
        if a[|a| - 1] == b[|b| - 1] && IsSubsequence(a', b') {
          SubsequenceTransitive(a', b', c');
        } else {
          SubsequenceTransitive(a, b', c');
        }
      } else {
        SubsequenceTransitive(a, b, c');
      }
    }
  }

  /** `Remove` keeps the other elements in their order. */
  lemma {:induction false} RemoveFirstIsSubsequence<T>(s: seq<T>, x: T)
    ensures IsSubsequence(RemoveFirst(s, x), s)
  {
    if x in s {
      RemoveFirstDropsFirstCopy(s, x);
      var k :| 0 <= k < |s| && s[k] == x && x !in s[..k] && RemoveFirst(s, x) == s[..k] + s[k + 1..];
      DropOneIsSubsequence(s[..k], x, s[k + 1..]);
      SplitAt(s, k);
    } else {
      SubsequenceReflexive(s);
    }
  }

  /** What `RemoveAll` leaves is the old collection with some elements deleted, in their order. */
  lemma {:induction false} RemoveEachIsSubsequence<T>(s: seq<T>, range: seq<T>)
    ensures IsSubsequence(RemoveEach(s, range), s)
    decreases |range|
  {
    if range == [] {
      SubsequenceReflexive(s);
    } else {
      var r := RemoveEach(s, range[..|range| - 1]);
      RemoveEachIsSubsequence(s, range[..|range| - 1]);
      RemoveFirstIsSubsequence(r, range[|range| - 1]);
      SubsequenceTransitive(RemoveFirst(r, range[|range| - 1]), r, s);
    }
  }

  /**
   * Each element of `range` removes at most one occurrence: what remains is
   * the multiset difference, so elements not in `range` are all kept and the
   * length drops by the number of removals that found their element.
   */

  lemma {:induction false} RemoveEachMultiset<T>(s: seq<T>, range: seq<T>)
    ensures multiset(RemoveEach(s, range)) == multiset(s) - multiset(range)
    decreases |range|
  {
    if range != [] {
      var init := range[..|range| - 1];
      var x := range[|range| - 1];
      RemoveEachMultiset(s, init);
      MultisetOfInitLast(range);
      MultisetDifferenceTwice(multiset(s), multiset(init), multiset{x});
    }
  }

  lemma MultisetOfInitLast<T>(s: seq<T>)
    requires s != []
    ensures multiset(s) == multiset(s[..|s| - 1]) + multiset{s[|s| - 1]}
  {
    assert s == s[..|s| - 1] + [s[|s| - 1]];
  }

  lemma MultisetDifferenceTwice<T>(a: multiset<T>, b: multiset<T>, c: multiset<T>)
    ensures (a - b) - c == a - (b + c)
  {
  }

  /** Regrouping a concatenation, for proofs with many other facts in scope. */
  lemma ConcatAssociative<T>(a: seq<T>, b: seq<T>, c: seq<T>)
    ensures (a + b) + c == a + (b + c)
  {
  }

  // ---------------------------------------------------------------------
  // First occurrence by key (DistinctBy)
  // ---------------------------------------------------------------------

  /** The keys of the elements of `s`. */
  function KeysOf<T, K>(s: seq<T>, key: T -> K): set<K> {
    set i | 0 <= i < |s| :: key(s[i])
  }

  /** No earlier element of `s` has the key of `s[i]`. */
  predicate IsFirstOfKey<T, K(==)>(s: seq<T>, key: T -> K, i: int)
    requires 0 <= i < |s|
  {
    forall j :: 0 <= j < i ==> key(s[j]) != key(s[i])
  }

  /** The elements of `s` whose key has not been seen before, in order. */
  function FirstsBy<T, K(==)>(s: seq<T>, key: T -> K): seq<T>
    decreases |s|
  {
    if s == [] then []
    else if key(s[|s| - 1]) in KeysOf(s[..|s| - 1], key) then FirstsBy(s[..|s| - 1], key)
    else FirstsBy(s[..|s| - 1], key) + [s[|s| - 1]]
  }

  /** The filter keeps exactly the keys of its source. */
  lemma {:induction false} FirstsByKeys<T, K>(s: seq<T>, key: T -> K)
    ensures KeysOf(FirstsBy(s, key), key) == KeysOf(s, key)
    decreases |s|
  {
    if s != [] {
      var init := s[..|s| - 1];
      var r := FirstsBy(init, key);
      FirstsByKeys(init, key);
      KeysOfSnoc(init, s[|s| - 1], key);
      assert init + [s[|s| - 1]] == s;
      KeysOfSnoc(r, s[|s| - 1], key);
    }
  }

  lemma KeysOfSnoc<T, K>(s: seq<T>, x: T, key: T -> K)
    ensures KeysOf(s + [x], key) == KeysOf(s, key) + {key(x)}
  {
    var t := s + [x];
    forall k | k in KeysOf(t, key) ensures k in KeysOf(s, key) + {key(x)} {
      var i :| 0 <= i < |t| && key(t[i]) == k;
      if i < |s| { assert t[i] == s[i]; }
    }
    forall k | k in KeysOf(s, key) ensures k in KeysOf(t, key) {
      var i :| 0 <= i < |s| && key(s[i]) == k;
      assert t[i] == s[i];
    }
    assert t[|s|] == x;
  }

  /** `DistinctBy` keeps the source order: its output is a subsequence. */
  lemma {:induction false} FirstsByIsSubsequence<T, K>(s: seq<T>, key: T -> K)
    ensures IsSubsequence(FirstsBy(s, key), s)
    decreases |s|
  {
    if s != [] {
      var init := s[..|s| - 1];
      FirstsByIsSubsequence(init, key);
      var r := FirstsBy(s, key);
      if key(s[|s| - 1]) in KeysOf(init, key) {
        assert r == FirstsBy(init, key);
        if r != [] { assert IsSubsequence(r, init); }
      } else {
        assert r[..|r| - 1] == FirstsBy(init, key);
      }
    }
  }

  /** `DistinctBy` never yields two elements with the same key. */
  lemma {:induction false} FirstsByKeysDistinct<T, K>(s: seq<T>, key: T -> K)
    ensures var r := FirstsBy(s, key);
      forall i, j :: 0 <= i < j < |r| ==> key(r[i]) != key(r[j])
    decreases |s|
  {
    if s != [] {
      var init := s[..|s| - 1];
      FirstsByKeysDistinct(init, key);
      FirstsByKeys(init, key);
      var p := FirstsBy(init, key);
      if key(s[|s| - 1]) !in KeysOf(init, key) {
        var r := p + [s[|s| - 1]];
        forall i, j | 0 <= i < j < |r| ensures key(r[i]) != key(r[j]) {
          if j == |p| {
            assert key(p[i]) in KeysOf(p, key);
          } else {
            assert r[i] == p[i] && r[j] == p[j];
          }
        }
      }
    }
  }

  /** `x` is the first element of `s` with its key. */
  predicate IsFirstOfItsKey<T(==), K(==)>(s: seq<T>, key: T -> K, x: T) {
    exists i :: 0 <= i < |s| && s[i] == x && IsFirstOfKey(s, key, i)
  }

  lemma FirstOfKeyInInit<T, K>(s: seq<T>, key: T -> K, i: nat)
    requires i < |s| - 1 && IsFirstOfKey(s, key, i)
    ensures s[..|s| - 1][i] == s[i] && IsFirstOfKey(s[..|s| - 1], key, i)
  {
    var init := s[..|s| - 1];
    forall j | 0 <= j < i ensures key(init[j]) != key(init[i]) {
      assert init[j] == s[j] && init[i] == s[i];
    }
  }

  lemma LastFirstOfKeyIsNew<T, K>(s: seq<T>, key: T -> K)
    requires s != [] && IsFirstOfKey(s, key, |s| - 1)
    ensures key(s[|s| - 1]) !in KeysOf(s[..|s| - 1], key)
  {
    var init := s[..|s| - 1];
    forall j | 0 <= j < |init| ensures key(init[j]) != key(s[|s| - 1]) {
      assert init[j] == s[j];
    }
  }

  /** Every key of the source is represented by its first occurrence. */
  lemma {:induction false} FirstsByKeepsFirstOccurrences<T, K>(s: seq<T>, key: T -> K)
    ensures forall i :: 0 <= i < |s| && IsFirstOfKey(s, key, i) ==> s[i] in FirstsBy(s, key)
    decreases |s|
  {
    if s != [] {
      var init := s[..|s| - 1];
      var n := |s| - 1;
      FirstsByKeepsFirstOccurrences(init, key);
      var p := FirstsBy(init, key);
      var r := FirstsBy(s, key);
      assert p <= r;
      forall i | 0 <= i < |s| && IsFirstOfKey(s, key, i) ensures s[i] in r {
        if i < n {
          FirstOfKeyInInit(s, key, i);
          assert init[i] in p;
        } else {
          LastFirstOfKeyIsNew(s, key);
          assert r == p + [s[n]];
        }
      }
    }
  }

  /** Every element `DistinctBy` yields is the first of the source with its key. */
  lemma {:induction false} FirstsByOnlyFirstOccurrences<T, K>(s: seq<T>, key: T -> K)
    ensures forall x :: x in FirstsBy(s, key) ==> IsFirstOfItsKey(s, key, x)
    decreases |s|
  {
    if s != [] {
      var init := s[..|s| - 1];
      var n := |s| - 1;
      FirstsByOnlyFirstOccurrences(init, key);
      var p := FirstsBy(init, key);
      var r := FirstsBy(s, key);
      forall x | x in r ensures IsFirstOfItsKey(s, key, x) {
        if x in p {
          var i :| 0 <= i < |init| && init[i] == x && IsFirstOfKey(init, key, i);
          assert s[i] == init[i];
          assert IsFirstOfKey(s, key, i);
        } else {
          assert key(s[n]) !in KeysOf(init, key) && r == p + [s[n]] && x == s[n];
          forall k | 0 <= k < n ensures key(s[k]) != key(s[n]) {
            assert s[k] == init[k];
          }
          assert IsFirstOfKey(s, key, n);
        }
      }
    }
  }

  /** `DistinctBy`: the elements whose key the loop's key set has not yet seen. */
  method DistinctBy<T, K(==)>(source: seq<T>, keySelector: T -> K) returns (r: seq<T>)
    ensures r == FirstsBy(source, keySelector)
  {
    var keys: set<K> := {};
    r := [];
    for i := 0 to |source|
      invariant keys == KeysOf(source[..i], keySelector)
      invariant r == FirstsBy(source[..i], keySelector)
    {
      var element := source[i];
      assert source[..i + 1] == source[..i] + [element];
      assert source[..i + 1][..i] == source[..i];
      KeysOfSnoc(source[..i], element, keySelector);
      if keySelector(element) !in keys {
        keys := keys + {keySelector(element)};
        r := r + [element];
      }
    }
    assert source[..|source|] == source;
  }

  // ---------------------------------------------------------------------
  // Mutable collections
  // ---------------------------------------------------------------------

  /** A .NET `ICollection<T>` / `ObservableCollection<T>` updated in place. */
  class Collection<T(==)> {
    var items: seq<T>

    constructor (initial: seq<T>)
      ensures items == initial
    {
      items := initial;
    }

    method Add(item: T)
      modifies this
      ensures items == old(items) + [item]
    {
      items := items + [item];
    }

    /** Removes the first occurrence; `removed` says whether there was one. */
    method Remove(item: T) returns (removed: bool)
      modifies this
      ensures removed == (item in old(items))
      ensures items == RemoveFirst(old(items), item)
    {
      removed := item in items;
      items := RemoveFirst(items, item);
    }
  }

  /** `Add(this ICollection<T>, IEnumerable<T> range)`: an index loop over the range. */
  method AddAll<T>(collection: Collection<T>, range: seq<T>)
    modifies collection
    ensures collection.items == old(collection.items) + range
  {
    for index := 0 to |range|
      invariant collection.items == old(collection.items) + range[..index]
    {
      assert range[..index + 1] == range[..index] + [range[index]];
      collection.Add(range[index]);
    }
    assert range[..|range|] == range;
  }

  /** `AddRange(this ICollection<T>, ICollection<T> range)`: a foreach over the range. */
  method AddRange<T>(collection: Collection<T>, range: seq<T>)
    modifies collection
    ensures collection.items == old(collection.items) + range
  {
    var rest := range;
    while rest != []
      invariant |rest| <= |range|
      invariant range == range[..|range| - |rest|] + rest
      invariant collection.items == old(collection.items) + range[..|range| - |rest|]
    {
      ghost var done := range[..|range| - |rest|];
      collection.Add(rest[0]);
      assert range[..|range| - |rest[1..]|] == done + [rest[0]];
      rest := rest[1..];
    }
  }

  /** `AddUniqueIfNotEmpty`: adds non-null, non-empty text that is not yet present. */
  method AddUniqueIfNotEmpty(collection: Collection<string>, text: Option<string>)
    modifies collection
    ensures collection.items ==
      if text == Null || text.value == "" then old(collection.items)
      else AddUnique(old(collection.items), text.value)
  {
    if text != Null && text.value != "" && text.value !in collection.items {
      collection.Add(text.value);
    }
  }

  /**
   * `range.Where(e => !collection.Contains(e)).ForEach(e => collection.Add(e))`:
   * the lazy filter tests each element against the collection as it grows,
   * so an element repeated in `range` is added once.
   */
  method AddEachMissing<T>(collection: Collection<T>, range: seq<T>)
    modifies collection
    ensures collection.items == AddAllUnique(old(collection.items), range)
  {
    ghost var start := collection.items;
    for i := 0 to |range|
      invariant collection.items == AddAllUnique(start, range[..i])
    {
      assert range[..i + 1][..i] == range[..i];
      assert range[..i + 1][i] == range[i];
      var e := range[i];
      if e !in collection.items {
        collection.Add(e);
      }
    }
    assert range[..|range|] == range;
  }

  /** `Count(this IEnumerable)`: counts the elements one by one. */
  method Count<T>(collection: seq<T>) returns (count: int)
    ensures count == |collection|
  {
    count := 0;
    for i := 0 to |collection|
      invariant count == i
    {
      count := count + 1;
    }
  }

  /** `Remove(this ICollection<T>, IEnumerable<T> range)`: removes each range element once. */
  method RemoveAll<T>(collection: Collection<T>, range: seq<T>)
    modifies collection
    ensures collection.items == RemoveEach(old(collection.items), range)
  {
    ghost var start := collection.items;
    for index := 0 to |range|
      invariant collection.items == RemoveEach(start, range[..index])
    {
      RemoveEachStep(start, range, index);
      var _ := collection.Remove(range[index]);
    }
    assert range[..|range|] == range;
  }

  /** `ToObservableCollection`: a new collection holding the same elements in the same order. */
  method ToObservableCollection<T>(inputCollection: seq<T>) returns (c: Collection<T>)
    ensures fresh(c) && c.items == inputCollection
  {
    c := new Collection(inputCollection);
  }

  // ---------------------------------------------------------------------
  // StringBuilder
  // ---------------------------------------------------------------------

  /** A .NET `StringBuilder`, updated in place. */
  class StringBuilder {
    var content: string

    constructor (initial: string)
      ensures content == initial
    {
      content := initial;
    }
  }

  /**
   * `Char.IsWhiteSpace`, the characters `String.Trim` removes: the Unicode
   * space separators, the line and paragraph separators U+2028 and U+2029,
   * and the control characters U+0009 to U+000D and U+0085.
   */
  predicate IsWhiteSpace(c: char) {
    ('\U{0009}' <= c <= '\U{000D}') || c == ' ' || c == '\U{0085}' || c == '\U{00A0}' || c == '\U{1680}'
    || ('\U{2000}' <= c <= '\U{200A}') || c == '\U{2028}' || c == '\U{2029}' || c == '\U{202F}'
    || c == '\U{205F}' || c == '\U{3000}'
  }

  /** `s.Trim().Length == 0`: nothing but white space. */
  predicate IsBlank(s: string) {
    forall i :: 0 <= i < |s| ==> IsWhiteSpace(s[i])
  }

  /** `s.Contains(t)` (ordinal). */
  predicate IsSubstring(t: string, s: string) {
    exists i :: 0 <= i <= |s| - |t| && OccursAt(t, s, i)
  }

  /** `t` stands in `s` from index `i` on. */
  predicate OccursAt(t: string, s: string, i: int) {
    0 <= i && i + |t| <= |s| && s[i..i + |t|] == t
  }

  /**
   * The builder's content after `AppendUniqueOnNewLineIfNotEmpty(text)`:
   * unchanged for blank or already contained text, otherwise the text goes
   * on a new line unless the content so far is blank.
   */
  function AppendUniqueLine(content: string, text: string, newLine: string): string {
    if IsBlank(text) || IsSubstring(text, content) then content
    else content + (if IsBlank(content) then "" else newLine) + text
  }

  /** Afterwards non-blank text is always contained, and old content is a prefix. */
  lemma AppendUniqueLineContains(content: string, text: string, newLine: string)
    requires !IsBlank(text)
    ensures IsSubstring(text, AppendUniqueLine(content, text, newLine))
    ensures content <= AppendUniqueLine(content, text, newLine)
  {
    var r := AppendUniqueLine(content, text, newLine);
    if !IsSubstring(text, content) {
      var i := |r| - |text|;
      assert OccursAt(text, r, i);
    }
  }

  /** Appending the same text twice is appending it once. */
  lemma AppendUniqueLineIdempotent(content: string, text: string, newLine: string)
    ensures var once := AppendUniqueLine(content, text, newLine);
      AppendUniqueLine(once, text, newLine) == once
  {
    if !IsBlank(text) {
      AppendUniqueLineContains(content, text, newLine);
    }
  }

  /** `AppendUniqueOnNewLineIfNotEmpty`; `newLine` is `Environment.NewLine`. */
  method AppendUniqueOnNewLineIfNotEmpty(stringBuilder: StringBuilder, text: string, newLine: string)
    modifies stringBuilder
    ensures stringBuilder.content == AppendUniqueLine(old(stringBuilder.content), text, newLine)
  {
    var current := stringBuilder.content;
    if !IsBlank(text) && !IsSubstring(text, current) {
      stringBuilder.content := current + (if IsBlank(current) then "" else newLine) + text;
    }
  }
}
