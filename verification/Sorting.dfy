/** Stable sorting by a comparison, as the source's library sort performs it. */
module Sorting {

  /** What a sort needs of `less`: a strict order whose incomparable elements form classes. */
  ghost predicate StrictWeak<T(!new)>(less: (T, T) -> bool) {
    && (forall x, y :: less(x, y) ==> !less(y, x))
    && (forall x, y, z :: less(x, z) ==> less(x, y) || less(y, z))
  }

  ghost predicate Ordered<T>(less: (T, T) -> bool, s: seq<T>) {
    forall i, j | 0 <= i < j < |s| :: !less(s[j], s[i])
  }

  /** Puts `x` behind everything it is not less than. */
  function Insert<T>(less: (T, T) -> bool, s: seq<T>, x: T): seq<T> {
    if s == [] then [x]
    else if less(x, s[|s| - 1]) then Insert(less, s[..|s| - 1], x) + [s[|s| - 1]]
    else s + [x]
  }

  function Sort<T>(less: (T, T) -> bool, s: seq<T>): seq<T> {
    if s == [] then [] else Insert(less, Sort(less, s[..|s| - 1]), s[|s| - 1])
  }

  lemma {:induction false} InsertKeeps<T(!new)>(less: (T, T) -> bool, s: seq<T>, x: T)
    requires StrictWeak(less) && Ordered(less, s)
    ensures Ordered(less, Insert(less, s, x))
    ensures multiset(Insert(less, s, x)) == multiset(s) + multiset{x}
  {
    if s != [] {
      var init, last := s[..|s| - 1], s[|s| - 1];
      assert s == init + [last];
      if less(x, last) {
        InsertKeeps(less, init, x);
        var rest := Insert(less, init, x);
        forall i | 0 <= i < |rest| ensures !less(last, rest[i]) {
          assert rest[i] in multiset(rest);
          assert rest[i] == x || rest[i] in init;
        }
      } else {
        forall i | 0 <= i < |s| ensures !less(x, s[i]) {
          assert i < |s| - 1 ==> !less(last, s[i]);
        }
      }
    }
  }

  /** Sorting gives an ordered permutation. */
  lemma {:induction false} SortKeeps<T(!new)>(less: (T, T) -> bool, s: seq<T>)
    requires StrictWeak(less)
    ensures Ordered(less, Sort(less, s))
    ensures multiset(Sort(less, s)) == multiset(s)
    ensures |Sort(less, s)| == |s|
  {
    if s != [] {
      assert s == s[..|s| - 1] + [s[|s| - 1]];
      SortKeeps(less, s[..|s| - 1]);
      InsertKeeps(less, Sort(less, s[..|s| - 1]), s[|s| - 1]);
    }
    assert |multiset(Sort(less, s))| == |Sort(less, s)|;
  }

  /** The members that `less` does not tell from `x`, in their order. */
  ghost function Alike<T(!new)>(less: (T, T) -> bool, s: seq<T>, x: T): seq<T> {
    if s == [] then []
    else
      var init, last := s[..|s| - 1], s[|s| - 1];
      if !less(x, last) && !less(last, x) then Alike(less, init, x) + [last] else Alike(less, init, x)
  }

  lemma {:induction false} InsertIsStable<T(!new)>(less: (T, T) -> bool, s: seq<T>, y: T, x: T)
    requires StrictWeak(less)
    ensures Alike(less, Insert(less, s, y), x)
      == if !less(x, y) && !less(y, x) then Alike(less, s, x) + [y] else Alike(less, s, x)
  {
    if s == [] {
      assert [y][..0] == [];
    } else {
      var init, last := s[..|s| - 1], s[|s| - 1];
      if less(y, last) {
        InsertIsStable(less, init, y, x);
        assert (Insert(less, init, y) + [last])[..|Insert(less, init, y)|] == Insert(less, init, y);
      } else {
        assert (s + [y])[..|s|] == s;
      }
    }
  }

  /** Sorting is stable: members that compare alike keep their order. */
  lemma {:induction false} SortIsStable<T(!new)>(less: (T, T) -> bool, s: seq<T>, x: T)
    requires StrictWeak(less)
    ensures Alike(less, Sort(less, s), x) == Alike(less, s, x)
  {
    if s != [] {
      SortIsStable(less, s[..|s| - 1], x);
      InsertIsStable(less, Sort(less, s[..|s| - 1]), s[|s| - 1], x);
    }
  }

  lemma HeadIsLeast<T(!new)>(less: (T, T) -> bool, s: seq<T>, x: T)
    requires StrictWeak(less) && Ordered(less, s) && x in s
    ensures !less(x, s[0])
  {
    var i :| 0 <= i < |s| && s[i] == x;
    assert i == 0 || !less(s[i], s[0]);
  }

  lemma {:induction false} TailCounts<T>(less: (T, T) -> bool, s: seq<T>)
    requires s != [] && Ordered(less, s)
    ensures multiset(s[1..]) == multiset(s) - multiset{s[0]} && Ordered(less, s[1..])
  {
    assert s == [s[0]] + s[1..];
  }

  /** `less` tells any two different members apart. */
  ghost predicate TellsApart<T(!new)>(less: (T, T) -> bool, members: multiset<T>) {
    forall x, y | x in members && y in members && x != y :: less(x, y) || less(y, x)
  }

  lemma SameHead<T(!new)>(less: (T, T) -> bool, s: seq<T>, t: seq<T>)
    requires StrictWeak(less) && multiset(s) == multiset(t) && s != [] && t != []
    requires Ordered(less, s) && Ordered(less, t) && TellsApart(less, multiset(s))
    ensures s[0] == t[0]
  {
    hide Ordered, StrictWeak;
    assert s[0] in multiset(t) && t[0] in multiset(s);
    HeadIsLeast(less, t, s[0]);
    HeadIsLeast(less, s, t[0]);
  }

  lemma SameLength<T>(s: seq<T>, t: seq<T>)
    requires multiset(s) == multiset(t)
    ensures |s| == |t|
  {
    assert |multiset(s)| == |s| && |multiset(t)| == |t|;
  }

  /** Under an order that tells every two members apart, an ordered permutation is the only one. */
  lemma {:induction false} OrderedUnique<T(!new)>(less: (T, T) -> bool, s: seq<T>, t: seq<T>)
    requires StrictWeak(less) && multiset(s) == multiset(t)
    requires Ordered(less, s) && Ordered(less, t) && TellsApart(less, multiset(s))
    ensures s == t
  {
    hide Ordered, StrictWeak;
    SameLength(s, t);
    if s != [] {
      SameHead(less, s, t);
      TailCounts(less, s);
      TailCounts(less, t);
      assert TellsApart(less, multiset(s[1..]));
      OrderedUnique(less, s[1..], t[1..]);
      assert s == [s[0]] + s[1..] && t == [t[0]] + t[1..];
    }
  }
}
