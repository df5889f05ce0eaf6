/** A stable sort, as `sort_by` and `sort_by_key` are. Its result is the only sequence that
    is in order and keeps equivalent elements in their original order, so it stands for
    whichever algorithm the standard library uses. */
module StableSort {

  ghost predicate TotalPreorder<T(!new)>(leq: (T, T) -> bool) {
    && (forall x, y :: leq(x, y) || leq(y, x))
    && (forall x, y, z :: leq(x, y) && leq(y, z) ==> leq(x, z))
  }

  ghost predicate Sorted<T>(leq: (T, T) -> bool, xs: seq<T>) {
    forall i, j :: 0 <= i < j < |xs| ==> leq(xs[i], xs[j])
  }

  function Insert<T>(leq: (T, T) -> bool, x: T, xs: seq<T>): seq<T> {
    if xs == [] || leq(x, xs[0]) then [x] + xs else [xs[0]] + Insert(leq, x, xs[1..])
  }

  function Sort<T>(leq: (T, T) -> bool, xs: seq<T>): seq<T> {
    if xs == [] then [] else Insert(leq, xs[0], Sort(leq, xs[1..]))
  }

  predicate Equivalent<T>(leq: (T, T) -> bool, x: T, y: T) {
    leq(x, y) && leq(y, x)
  }

  /** The elements equivalent to `a`, in order. */
  function Class<T>(leq: (T, T) -> bool, a: T, xs: seq<T>): seq<T> {
    if xs == [] then [] else (if Equivalent(leq, a, xs[0]) then [xs[0]] else []) + Class(leq, a, xs[1..])
  }

  lemma {:induction false} InsertKeepsElements<T>(leq: (T, T) -> bool, x: T, xs: seq<T>)
    ensures multiset(Insert(leq, x, xs)) == multiset{x} + multiset(xs)
    decreases |xs|
  {
    if xs != [] && !leq(x, xs[0]) {
      InsertKeepsElements(leq, x, xs[1..]);
      assert xs == [xs[0]] + xs[1..];
    }
  }

  lemma {:induction false} SortKeepsElements<T>(leq: (T, T) -> bool, xs: seq<T>)
    ensures multiset(Sort(leq, xs)) == multiset(xs)
    ensures |Sort(leq, xs)| == |xs|
    decreases |xs|
  {
    if xs != [] {
      SortKeepsElements(leq, xs[1..]);
      InsertKeepsElements(leq, xs[0], Sort(leq, xs[1..]));
      assert xs == [xs[0]] + xs[1..];
      assert |multiset(Sort(leq, xs))| == |Sort(leq, xs)| && |multiset(xs)| == |xs|;
    }
  }

  lemma {:induction false} InsertSorted<T(!new)>(leq: (T, T) -> bool, x: T, xs: seq<T>)
    requires TotalPreorder(leq) && Sorted(leq, xs)
    ensures Sorted(leq, Insert(leq, x, xs))
    decreases |xs|
  {
    if xs != [] && !leq(x, xs[0]) {
      var rest := Insert(leq, x, xs[1..]);
      InsertSorted(leq, x, xs[1..]);
      InsertKeepsElements(leq, x, xs[1..]);
      forall j | 0 <= j < |rest|
        ensures leq(xs[0], rest[j])
      {
        assert rest[j] in multiset(rest);
        assert rest[j] == x || rest[j] in xs[1..];
      }
    }
  }

  lemma {:induction false} SortSorted<T(!new)>(leq: (T, T) -> bool, xs: seq<T>)
    requires TotalPreorder(leq)
    ensures Sorted(leq, Sort(leq, xs))
    decreases |xs|
  {
    if xs != [] {
      SortSorted(leq, xs[1..]);
      InsertSorted(leq, xs[0], Sort(leq, xs[1..]));
    }
  }

  lemma {:induction false} InsertStable<T(!new)>(leq: (T, T) -> bool, x: T, xs: seq<T>, a: T)
    requires TotalPreorder(leq)
    ensures Class(leq, a, Insert(leq, x, xs)) == Class(leq, a, [x] + xs)
    decreases |xs|
  {
    if xs != [] && !leq(x, xs[0]) {
      var y, rest := xs[0], xs[1..];
      InsertStable(leq, x, rest, a);
      assert ([x] + rest)[1..] == rest && ([x] + xs)[1..] == xs;
      assert Insert(leq, x, xs)[1..] == Insert(leq, x, rest);
      assert !(Equivalent(leq, a, x) && Equivalent(leq, a, y));
    }
  }

  lemma {:induction false} SortStable<T(!new)>(leq: (T, T) -> bool, xs: seq<T>, a: T)
    requires TotalPreorder(leq)
    ensures Class(leq, a, Sort(leq, xs)) == Class(leq, a, xs)
    decreases |xs|
  {
    if xs != [] {
      SortStable(leq, xs[1..], a);
      InsertStable(leq, xs[0], Sort(leq, xs[1..]), a);
      assert ([xs[0]] + Sort(leq, xs[1..]))[1..] == Sort(leq, xs[1..]);
    }
  }

  lemma {:induction false} ClassMember<T>(leq: (T, T) -> bool, a: T, xs: seq<T>, x: T)
    requires leq(x, x)
    ensures x in Class(leq, a, xs) <==> x in xs && Equivalent(leq, a, x)
    decreases |xs|
  {
    if xs != [] {
      ClassMember(leq, a, xs[1..], x);
      assert xs == [xs[0]] + xs[1..];
    }
  }

  lemma {:induction false} ClassSnoc<T>(leq: (T, T) -> bool, a: T, xs: seq<T>, x: T)
    ensures Class(leq, a, xs + [x]) == Class(leq, a, xs) + (if Equivalent(leq, a, x) then [x] else [])
    decreases |xs|
  {
    var tail := if Equivalent(leq, a, x) then [x] else [];
    if xs == [] {
      assert xs + [x] == [x] && [x][1..] == [] && tail + [] == tail;
      assert Class(leq, a, [x]) == tail + Class(leq, a, []);
    } else {
      var head, rest := if Equivalent(leq, a, xs[0]) then [xs[0]] else [], Class(leq, a, xs[1..]);
      assert (xs + [x])[0] == xs[0] && (xs + [x])[1..] == xs[1..] + [x];
      ClassSnoc(leq, a, xs[1..], x);
      assert Class(leq, a, xs + [x]) == head + (rest + tail) == (head + rest) + tail;
    }
  }

  /** Order and stability pin the result down. */
  lemma {:induction false} StableSortUnique<T(!new)>(leq: (T, T) -> bool, xs: seq<T>, ys: seq<T>)
    requires TotalPreorder(leq) && Sorted(leq, xs) && Sorted(leq, ys)
    requires forall a :: Class(leq, a, xs) == Class(leq, a, ys)
    ensures xs == ys
    decreases |xs|
  {
    if xs != [] {
      var x := xs[0];
      ClassMember(leq, x, xs, x);
      assert Class(leq, x, xs) == Class(leq, x, ys);
      ClassMember(leq, x, ys, x);
      var y := ys[0];
      ClassMember(leq, y, ys, y);
      assert Class(leq, y, xs) == Class(leq, y, ys);
      ClassMember(leq, y, xs, y);
      assert leq(x, y) && leq(y, x);
      assert Class(leq, x, xs)[0] == x && Class(leq, x, ys)[0] == y;
      forall a
        ensures Class(leq, a, xs[1..]) == Class(leq, a, ys[1..])
      {
        var head := if Equivalent(leq, a, x) then [x] else [];
        assert Class(leq, a, xs) == head + Class(leq, a, xs[1..]);
        assert Class(leq, a, ys) == head + Class(leq, a, ys[1..]);
        assert Class(leq, a, xs)[|head|..] == Class(leq, a, ys)[|head|..];
      }
      StableSortUnique(leq, xs[1..], ys[1..]);
    }
  }
}
