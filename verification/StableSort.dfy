/** The contract of GLib's g_list_sort, a stable sort, with a function that meets it.
    The contract determines the result, so which stable sort runs does not matter. */
module StableSort {

  ghost predicate TotalPreorder<T(!new)>(le: (T, T) -> bool) {
    && (forall a, b :: le(a, b) || le(b, a))
    && (forall a, b, c :: le(a, b) && le(b, c) ==> le(a, c))
  }

  ghost predicate Sorted<T>(s: seq<T>, le: (T, T) -> bool) {
    forall i, j :: 0 <= i < j < |s| ==> le(s[i], s[j])
  }

  /** The elements of `s` that compare equal to `x`, in the order of `s`. */
  function Ties<T(!new)>(s: seq<T>, x: T, le: (T, T) -> bool): (r: seq<T>)
    ensures forall y :: y in r <==> y in s && le(x, y) && le(y, x)
  {
    if s == [] then []
    else if le(x, s[0]) && le(s[0], x) then [s[0]] + Ties(s[1..], x, le)
    else Ties(s[1..], x, le)
  }

  ghost predicate IsStableSort<T(!new)>(r: seq<T>, s: seq<T>, le: (T, T) -> bool) {
    Sorted(r, le) && forall x :: Ties(r, x, le) == Ties(s, x, le)
  }

  function Insert<T>(x: T, s: seq<T>, le: (T, T) -> bool): seq<T> {
    if s == [] || le(x, s[0]) then [x] + s else [s[0]] + Insert(x, s[1..], le)
  }

  function Sort<T>(s: seq<T>, le: (T, T) -> bool): seq<T> {
    if s == [] then [] else Insert(s[0], Sort(s[1..], le), le)
  }

  lemma {:induction false} InsertContents<T(!new)>(x: T, s: seq<T>, le: (T, T) -> bool)
    ensures multiset(Insert(x, s, le)) == multiset{x} + multiset(s)
    ensures |Insert(x, s, le)| == |s| + 1
    ensures forall y :: y in Insert(x, s, le) <==> y == x || y in s
  {
    if s == [] || le(x, s[0]) {
    } else {
      InsertContents(x, s[1..], le);
      assert s == [s[0]] + s[1..];
    }
  }

  lemma {:induction false} InsertSorted<T(!new)>(x: T, s: seq<T>, le: (T, T) -> bool)
    requires TotalPreorder(le) && Sorted(s, le)
    ensures Sorted(Insert(x, s, le), le)
  {
    if s == [] || le(x, s[0]) {
    } else {
      InsertSorted(x, s[1..], le);
      InsertContents(x, s[1..], le);
      var t := Insert(x, s[1..], le);
      forall j | 0 <= j < |t| ensures le(s[0], t[j]) { assert t[j] in t; }
    }
  }

  lemma {:induction false} InsertTies<T(!new)>(x: T, s: seq<T>, z: T, le: (T, T) -> bool)
    requires TotalPreorder(le) && Sorted(s, le)
    ensures Ties(Insert(x, s, le), z, le) == Ties([x] + s, z, le)
  {
    if s == [] || le(x, s[0]) {
    } else {
      InsertTies(x, s[1..], z, le);
      assert ([x] + s)[1..] == s && ([x] + s[1..])[1..] == s[1..];
      assert ([s[0]] + Insert(x, s[1..], le))[1..] == Insert(x, s[1..], le);
    }
  }

  /** Sort is a permutation of its input and a stable sort of it. */
  lemma {:induction false} SortCorrect<T(!new)>(s: seq<T>, le: (T, T) -> bool)
    requires TotalPreorder(le)
    ensures IsStableSort(Sort(s, le), s, le)
    ensures multiset(Sort(s, le)) == multiset(s) && |Sort(s, le)| == |s|
  {
    if s != [] {
      var t := Sort(s[1..], le);
      SortCorrect(s[1..], le);
      InsertSorted(s[0], t, le);
      InsertContents(s[0], t, le);
      assert s == [s[0]] + s[1..];
      forall z ensures Ties(Sort(s, le), z, le) == Ties(s, z, le) {
        InsertTies(s[0], t, z, le);
        assert ([s[0]] + t)[1..] == t;
      }
    }
  }

  /** Two stable sorts of one list are the same list. */
  lemma {:induction false} StableSortUnique<T(!new)>(r: seq<T>, q: seq<T>, le: (T, T) -> bool)
    requires TotalPreorder(le) && Sorted(r, le) && Sorted(q, le)
    requires forall x :: Ties(r, x, le) == Ties(q, x, le)
    ensures r == q
  {
    forall y | y in q ensures y in r { assert y in Ties(q, y, le); }
    forall y | y in r ensures y in q { assert y in Ties(r, y, le); }
    assert r != [] ==> r[0] in r;
    if q != [] {
      assert q[0] in r;
      var x, y := r[0], q[0];
      assert x in Ties(q, x, le) && y in Ties(r, y, le);
      assert le(x, y) && le(y, x) by {
        var i :| 0 <= i < |q| && q[i] == x;
        var j :| 0 <= j < |r| && r[j] == y;
      }
      assert Ties(r, x, le)[0] == x && Ties(q, x, le)[0] == y;
      assert x == y;
      forall z ensures Ties(r[1..], z, le) == Ties(q[1..], z, le) {
        assert Ties(r, z, le) == Ties(q, z, le);
        if le(z, x) && le(x, z) {
          assert Ties(r[1..], z, le) == Ties(r, z, le)[1..] == Ties(q[1..], z, le);
        }
      }
      StableSortUnique(r[1..], q[1..], le);
      assert r == [x] + r[1..] && q == [y] + q[1..];
    }
  }
}
