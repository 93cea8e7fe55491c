/** Python's `sorted(xs, key=...)` and `list.sort(key=...)`, modelled as a
    stable insertion sort under a total preorder `le` ("key(a) <= key(b)"). */
module Sorting {

  /** `le` is total and transitive, as the comparison of sort keys is. */
  ghost predicate TotalPreorder<T(!new)>(le: (T, T) -> bool) {
    (forall a, b :: le(a, b) || le(b, a)) &&
    (forall a, b, c :: le(a, b) && le(b, c) ==> le(a, c))
  }

  predicate SortedBy<T>(s: seq<T>, le: (T, T) -> bool) {
    forall i, j :: 0 <= i < j < |s| ==> le(s[i], s[j])
  }

  /** Places `x` before the first element that is not below it; since `x`
      comes from earlier in the input, equal keys keep their input order. */
  function Insert<T(!new)>(x: T, s: seq<T>, le: (T, T) -> bool): (r: seq<T>)
    requires TotalPreorder(le) && SortedBy(s, le)
    ensures SortedBy(r, le)
    ensures multiset(r) == multiset(s) + multiset{x}
    ensures |r| == |s| + 1
  {
    if |s| == 0 || le(x, s[0]) then
      assert forall j :: 0 <= j < |s| ==> le(x, s[j]) by {
        if |s| > 0 {
          forall j | 0 <= j < |s| ensures le(x, s[j]) {
            if j > 0 { assert le(s[0], s[j]); }
          }
        }
      }
      [x] + s
    else
      var rest := Insert(x, s[1..], le);
      assert multiset(rest) == multiset(s[1..]) + multiset{x};
      assert s == [s[0]] + s[1..];
      assert forall j :: 0 <= j < |rest| ==> le(s[0], rest[j]) by {
        forall j | 0 <= j < |rest| ensures le(s[0], rest[j]) {
          assert rest[j] in multiset(rest);
          assert rest[j] in multiset(s[1..]) || rest[j] == x;
          if rest[j] != x {
            var k :| 1 <= k < |s| && s[k] == rest[j];
          }
        }
      }
      [s[0]] + rest
  }

  /** The elements of `s` whose key equals the key of `y`, in their order
      in `s`. */
  function Ties<T>(s: seq<T>, y: T, le: (T, T) -> bool): seq<T>
    decreases |s|
  {
    if |s| == 0 then []
    else (if le(s[0], y) && le(y, s[0]) then [s[0]] else []) + Ties(s[1..], y, le)
  }

  /** Inserting `x` puts it after every element it ties with only if it
      ties with none: elements passed over are strictly below `x`, so among
      the ties of any key `x` comes first. */
  lemma {:induction false} InsertTies<T(!new)>(x: T, s: seq<T>, le: (T, T) -> bool, y: T)
    requires TotalPreorder(le) && SortedBy(s, le)
    ensures Ties(Insert(x, s, le), y, le)
              == (if le(x, y) && le(y, x) then [x] else []) + Ties(s, y, le)
    decreases |s|, 1
  {
    if |s| == 0 || le(x, s[0]) {
      assert Insert(x, s, le)[1..] == s;
    } else {
      InsertTiesLater(x, s, le, y);
    }
  }

  /** Inserting past the head: the head keeps its place before `x`, and
      cannot be tied with `x`'s key when `x` is tied with it. */
  lemma {:induction false} InsertTiesLater<T(!new)>(x: T, s: seq<T>, le: (T, T) -> bool, y: T)
    requires TotalPreorder(le) && SortedBy(s, le)
    requires |s| > 0 && !le(x, s[0])
    ensures Ties(Insert(x, s, le), y, le)
              == (if le(x, y) && le(y, x) then [x] else []) + Ties(s, y, le)
    decreases |s|, 0
  {
    var rest := Insert(x, s[1..], le);
    var a := if le(s[0], y) && le(y, s[0]) then [s[0]] else [];
    var b := if le(x, y) && le(y, x) then [x] else [];
    assert Insert(x, s, le) == [s[0]] + rest;
    TiesHead([s[0]] + rest, y, le);
    TiesHead(s, y, le);
    InsertTies(x, s[1..], le, y);
    NotBothTied(le, x, y, s[0]);
    SwapEmpty(a, b, Ties(s[1..], y, le));
  }

  lemma TiesHead<T>(s: seq<T>, y: T, le: (T, T) -> bool)
    requires |s| > 0
    ensures Ties(s, y, le) == (if le(s[0], y) && le(y, s[0]) then [s[0]] else []) + Ties(s[1..], y, le)
  {
  }

  lemma SwapEmpty<T>(a: seq<T>, b: seq<T>, t: seq<T>)
    requires a == [] || b == []
    ensures a + (b + t) == b + (a + t)
  {
    if a == [] {
      assert a + (b + t) == b + t == b + (a + t);
    } else {
      assert a + (b + t) == a + t == b + (a + t);
    }
  }

  /** Two elements tied with the same key are tied with each other. */
  lemma NotBothTied<T(!new)>(le: (T, T) -> bool, x: T, y: T, z: T)
    requires TotalPreorder(le) && !le(x, z)
    ensures !(le(x, y) && le(y, x) && le(z, y) && le(y, z))
  {
  }

  /** The input, reordered so that keys are non-decreasing; elements with
      equal keys keep their input order. */
  function SortBy<T(!new)>(s: seq<T>, le: (T, T) -> bool): (r: seq<T>)
    requires TotalPreorder(le)
    ensures SortedBy(r, le)
    ensures multiset(r) == multiset(s)
    ensures |r| == |s|
    ensures forall y :: Ties(r, y, le) == Ties(s, y, le)
  {
    if |s| == 0 then []
    else
      assert s == [s[0]] + s[1..];
      var rest := SortBy(s[1..], le);
      assert forall y :: Ties(Insert(s[0], rest, le), y, le) == Ties(s, y, le) by {
        forall y ensures Ties(Insert(s[0], rest, le), y, le) == Ties(s, y, le) {
          InsertTies(s[0], rest, le, y);
        }
      }
      Insert(s[0], rest, le)
  }

  /** An input that is already in key order comes back unchanged. */
  lemma {:induction false} SortSortedIsIdentity<T(!new)>(s: seq<T>, le: (T, T) -> bool)
    requires TotalPreorder(le) && SortedBy(s, le)
    ensures SortBy(s, le) == s
  {
    if |s| > 0 {
      SortSortedIsIdentity(s[1..], le);
      assert SortBy(s[1..], le) == s[1..];
      if |s| > 1 {
        assert le(s[0], s[1]);
      }
    }
  }
}
