/**
  Sorting, as far as the source's results depend on it.  slices.SortFunc is unstable, but a
  sort by a total order has only one result, so insertion sort stands for all of them.  With
  it come the order of strings, sets and maps' keys in order, slices.Compact, and what a
  permutation does to concatenation.
 */
module Order {
  ghost predicate Total<T(!new)>(le: (T, T) -> bool) {
    && (forall x, y :: le(x, y) || le(y, x))
    && (forall x, y :: le(x, y) && le(y, x) ==> x == y)
    && (forall x, y, z :: le(x, y) && le(y, z) ==> le(x, z))
  }

  ghost predicate Sorted<T>(s: seq<T>, le: (T, T) -> bool) {
    forall i, j :: 0 <= i < j < |s| ==> le(s[i], s[j])
  }

  function Insert<T>(x: T, s: seq<T>, le: (T, T) -> bool): seq<T> {
    if s == [] then [x]
    else if le(x, s[0]) then [x] + s
    else [s[0]] + Insert(x, s[1..], le)
  }

  function Sort<T>(s: seq<T>, le: (T, T) -> bool): seq<T> {
    if s == [] then [] else Insert(s[0], Sort(s[1..], le), le)
  }

  lemma {:induction false} InsertKeeps<T>(x: T, s: seq<T>, le: (T, T) -> bool)
    ensures multiset(Insert(x, s, le)) == multiset{x} + multiset(s)
  {
    if s != [] {
      assert s == [s[0]] + s[1..];
      if !le(x, s[0]) {
        InsertKeeps(x, s[1..], le);
      }
    }
  }

  lemma {:induction false} InsertSorts<T(!new)>(x: T, s: seq<T>, le: (T, T) -> bool)
    requires Total(le) && Sorted(s, le)
    ensures Sorted(Insert(x, s, le), le)
    ensures multiset(Insert(x, s, le)) == multiset{x} + multiset(s)
  {
    InsertKeeps(x, s, le);
    if s != [] && !le(x, s[0]) {
      var rest := Insert(x, s[1..], le);
      InsertSorts(x, s[1..], le);
      forall y | y in rest ensures le(s[0], y) {
        assert y in multiset(rest);
        assert y == x || y in s[1..];
      }
    }
  }

  /** A sort is a sorted permutation. */
  lemma {:induction false} SortSorts<T(!new)>(s: seq<T>, le: (T, T) -> bool)
    requires Total(le)
    ensures Sorted(Sort(s, le), le) && multiset(Sort(s, le)) == multiset(s)
  {
    if s != [] {
      assert s == [s[0]] + s[1..];
      SortSorts(s[1..], le);
      InsertSorts(s[0], Sort(s[1..], le), le);
    }
  }

  lemma TailMultiset<T>(s: seq<T>)
    requires s != []
    ensures multiset(s[1..]) == multiset(s) - multiset{s[0]}
  {
    assert s == [s[0]] + s[1..];
  }

  /** Two sorted permutations of each other are equal. */
  lemma {:induction false} SortedUnique<T(!new)>(a: seq<T>, b: seq<T>, le: (T, T) -> bool)
    requires Total(le) && Sorted(a, le) && Sorted(b, le) && multiset(a) == multiset(b)
    ensures a == b
  {
    assert |a| == |multiset(a)| == |multiset(b)| == |b|;
    if a != [] {
      SameFirst(a, b, le);
      TailMultiset(a);
      TailMultiset(b);
      SortedUnique(a[1..], b[1..], le);
      assert a == [a[0]] + a[1..] && b == [b[0]] + b[1..];
    }
  }

  lemma SameFirst<T(!new)>(a: seq<T>, b: seq<T>, le: (T, T) -> bool)
    requires Total(le) && Sorted(a, le) && Sorted(b, le) && multiset(a) == multiset(b) && a != [] && b != []
    ensures a[0] == b[0]
  {
    assert a[0] in multiset(b) && b[0] in multiset(a);
    assert le(a[0], b[0]) && le(b[0], a[0]);
  }

  /** Sorting forgets the order things came in. */
  lemma SortForgets<T(!new)>(a: seq<T>, b: seq<T>, le: (T, T) -> bool)
    requires Total(le) && multiset(a) == multiset(b)
    ensures Sort(a, le) == Sort(b, le)
  {
    SortSorts(a, le);
    SortSorts(b, le);
    SortedUnique(Sort(a, le), Sort(b, le), le);
  }

  // ---- Strings ----

  /** strings.Compare(a, b) <= 0, character by character. */
  predicate TextLe(a: string, b: string) {
    a == [] || (b != [] && (a[0] < b[0] || (a[0] == b[0] && TextLe(a[1..], b[1..]))))
  }

  lemma {:induction false} TextTotal(a: string, b: string)
    ensures TextLe(a, b) || TextLe(b, a)
    ensures TextLe(a, b) && TextLe(b, a) ==> a == b
  {
    if a != [] && b != [] && a[0] == b[0] {
      TextTotal(a[1..], b[1..]);
      assert a == [a[0]] + a[1..] && b == [b[0]] + b[1..];
    }
  }

  lemma {:induction false} TextTransitive(a: string, b: string, c: string)
    requires TextLe(a, b) && TextLe(b, c)
    ensures TextLe(a, c)
  {
    if a != [] && a[0] == b[0] == c[0] {
      TextTransitive(a[1..], b[1..], c[1..]);
    }
  }

  lemma TextIsTotal()
    ensures Total(TextLe)
  {
    forall x: string, y: string ensures (TextLe(x, y) || TextLe(y, x)) && (TextLe(x, y) && TextLe(y, x) ==> x == y) {
      TextTotal(x, y);
    }
    forall x: string, y: string, z: string | TextLe(x, y) && TextLe(y, z) ensures TextLe(x, z) {
      TextTransitive(x, y, z);
    }
  }

  // ---- Sets in order ----

  ghost predicate Strict<T>(s: seq<T>, le: (T, T) -> bool) {
    forall i, j :: 0 <= i < j < |s| ==> le(s[i], s[j]) && s[i] != s[j]
  }

  ghost predicate Enumerates<T(!new)>(s: seq<T>, elements: set<T>) {
    forall x :: x in s <==> x in elements
  }

  /** There is one strictly ascending list of a set. */
  lemma {:induction false} StrictUnique<T(!new)>(a: seq<T>, b: seq<T>, elements: set<T>, le: (T, T) -> bool)
    requires Total(le) && Strict(a, le) && Strict(b, le) && Enumerates(a, elements) && Enumerates(b, elements)
    ensures a == b
    decreases |a|
  {
    assert b != [] ==> b[0] in a;
    if a != [] {
      assert a[0] in b;
      assert le(a[0], b[0]) && le(b[0], a[0]);
      TailEnumerates(a, elements, le);
      TailEnumerates(b, elements, le);
      StrictUnique(a[1..], b[1..], elements - {a[0]}, le);
      assert a == [a[0]] + a[1..] && b == [b[0]] + b[1..];
    }
  }

  lemma TailEnumerates<T(!new)>(a: seq<T>, elements: set<T>, le: (T, T) -> bool)
    requires a != [] && Strict(a, le) && Enumerates(a, elements)
    ensures Enumerates(a[1..], elements - {a[0]})
  {
    forall x ensures x in a[1..] <==> x in elements - {a[0]} {
      if x in elements - {a[0]} {
        assert x in a;
        var i :| 0 <= i < |a| && a[i] == x;
        assert a[1..][i - 1] == x;
      }
    }
  }

  /** slices.Compact: runs of equal elements become one. */
  function Compact<T(==)>(s: seq<T>): seq<T> {
    if |s| <= 1 then s
    else if s[0] == s[1] then Compact(s[1..])
    else [s[0]] + Compact(s[1..])
  }

  lemma {:induction false} CompactKeeps<T>(s: seq<T>)
    ensures forall x :: x in Compact(s) <==> x in s
    ensures s != [] ==> Compact(s) != [] && Compact(s)[0] == s[0]
  {
    if |s| > 1 {
      CompactKeeps(s[1..]);
      assert s == [s[0]] + s[1..];
      assert s[1] in s[1..];
    }
  }

  /** Sorted and compacted, a list is the strictly ascending list of its elements. */
  lemma {:induction false} CompactIsStrict<T(!new)>(s: seq<T>, le: (T, T) -> bool)
    requires Total(le) && Sorted(s, le)
    ensures Strict(Compact(s), le)
    ensures forall x :: x in Compact(s) <==> x in s
  {
    CompactKeeps(s);
    if |s| > 1 {
      CompactIsStrict(s[1..], le);
      if s[0] != s[1] {
        forall x | x in Compact(s[1..]) ensures le(s[0], x) && s[0] != x {
          assert x in s[1..];
          assert le(s[0], s[1]) && (s[1] == x || le(s[1], x));
        }
      }
    }
  }

  predicate IsLeast(x: string, s: set<string>) {
    x in s && forall y :: y in s ==> TextLe(x, y)
  }

  lemma {:induction false} LeastExists(s: set<string>)
    requires s != {}
    ensures exists x :: IsLeast(x, s)
    decreases s
  {
    var x :| x in s;
    TextTotal(x, x);
    if s == {x} {
      assert IsLeast(x, s);
    } else {
      LeastExists(s - {x});
      var other :| IsLeast(other, s - {x});
      TextTotal(x, other);
      if TextLe(x, other) {
        forall y | y in s - {x} ensures TextLe(x, y) {
          TextTransitive(x, other, y);
        }
        assert IsLeast(x, s);
      } else {
        assert IsLeast(other, s);
      }
    }
  }

  function Least(s: set<string>): (x: string)
    requires s != {}
    ensures IsLeast(x, s)
  {
    TextIsTotal();
    LeastExists(s);
    var x :| x in s && IsLeast(x, s);
    x
  }

  /** slices.Sorted(maps.Keys(m)): a set of strings in order. */
  function Ascending(s: set<string>): (r: seq<string>)
    ensures Enumerates(r, s)
  {
    if s == {} then []
    else
      var x := Least(s);
      var rest := Ascending(s - {x});
      assert forall y :: y in [x] + rest <==> y == x || y in rest;
      [x] + rest
  }

  /** It is the set in strictly ascending order, so the only such list. */
  lemma {:induction false} AscendingIsStrict(s: set<string>)
    ensures Strict(Ascending(s), TextLe)
    decreases s
  {
    if s != {} {
      var x := Least(s);
      AscendingIsStrict(s - {x});
      assert Ascending(s) == [x] + Ascending(s - {x});
      forall y | y in Ascending(s - {x}) ensures TextLe(x, y) && x != y {
      }
    }
  }

  // ---- Concatenation, up to order ----

  function Flatten<T, U>(s: seq<T>, f: T -> seq<U>): seq<U> {
    if s == [] then [] else Flatten(s[..|s| - 1], f) + f(s[|s| - 1])
  }

  function Without<T>(s: seq<T>, i: nat): seq<T>
    requires i < |s|
  {
    s[..i] + s[i + 1..]
  }

  lemma WithoutMultiset<T>(s: seq<T>, i: nat)
    requires i < |s|
    ensures multiset(Without(s, i)) == multiset(s) - multiset{s[i]}
  {
    assert s == s[..i] + [s[i]] + s[i + 1..];
  }

  lemma WithoutLast<T>(s: seq<T>, i: nat)
    requires i < |s| - 1
    ensures Without(s, i) == Without(s[..|s| - 1], i) + [s[|s| - 1]]
  {
  }

  /** Taking one element out takes its part out. */
  lemma {:induction false} FlattenWithout<T, U>(s: seq<T>, i: nat, f: T -> seq<U>)
    requires i < |s|
    ensures multiset(Flatten(s, f)) == multiset(Flatten(Without(s, i), f)) + multiset(f(s[i]))
    decreases |s|
  {
    var last := |s| - 1;
    if i == last {
      assert Without(s, i) == s[..last];
    } else {
      hide Without;
      FlattenWithout(s[..last], i, f);
      WithoutLast(s, i);
      FlattenGrows(Without(s[..last], i), s[last], f);
    }
  }

  lemma FlattenGrows<T, U>(s: seq<T>, x: T, f: T -> seq<U>)
    ensures Flatten(s + [x], f) == Flatten(s, f) + f(x)
  {
    assert (s + [x])[..|s|] == s;
  }

  /** A permutation flattens to a permutation. */
  lemma {:induction false} FlattenForgets<T, U>(a: seq<T>, b: seq<T>, f: T -> seq<U>)
    requires multiset(a) == multiset(b)
    ensures multiset(Flatten(a, f)) == multiset(Flatten(b, f))
    decreases |a|
  {
    assert |a| == |multiset(a)| == |multiset(b)| == |b|;
    if a != [] {
      var last := |a| - 1;
      assert a[last] in multiset(b);
      var i :| 0 <= i < |b| && b[i] == a[last];
      WithoutMultiset(b, i);
      WithoutMultiset(a, last);
      assert Without(a, last) == a[..last];
      FlattenForgets(a[..last], Without(b, i), f);
      FlattenWithout(b, i, f);
    }
  }
}
