/** Generic sequence helpers shared by the model: option and result values,
    filtering, removal of one occurrence and sums. */
module Seqs {

  datatype Option<T> = None | Some(value: T)

  datatype Result<T, E> = Ok(value: T) | Err(error: E)

  /** The elements of `s` that satisfy `p`, in their original order. */
  function Filter<T(!new)>(s: seq<T>, p: T -> bool): (r: seq<T>)
    ensures |r| <= |s|
    ensures forall x :: x in r <==> x in s && p(x)
  {
    if s == [] then []
    else
      assert s == [s[0]] + s[1..];
      if p(s[0]) then [s[0]] + Filter(s[1..], p) else Filter(s[1..], p)
  }

  /** Every element of `s` is related by `le` to every later one. */
  ghost predicate Ordered<T>(s: seq<T>, le: (T, T) -> bool)
  {
    forall i, j :: 0 <= i < j < |s| ==> le(s[i], s[j])
  }

  /** Filtering keeps every ordering the input already had. */
  lemma {:induction false} FilterKeepsOrder<T(!new)>(s: seq<T>, p: T -> bool, le: (T, T) -> bool)
    requires Ordered(s, le)
    ensures Ordered(Filter(s, p), le)
  {
    if s != [] {
      var t := s[1..];
      assert Ordered(t, le) by {
        forall i, j | 0 <= i < j < |t| ensures le(t[i], t[j]) {
          assert t[i] == s[i + 1] && t[j] == s[j + 1];
        }
      }
      FilterKeepsOrder(t, p, le);
      if p(s[0]) {
        var f := Filter(t, p);
        assert forall y :: y in t ==> le(s[0], y) by {
          forall y | y in t ensures le(s[0], y) {
            var k :| 0 <= k < |t| && t[k] == y;
            assert s[k + 1] == y;
          }
        }
        PrependOrdered(s[0], f, le);
      }
    }
  }

  lemma PrependOrdered<T>(x: T, f: seq<T>, le: (T, T) -> bool)
    requires Ordered(f, le)
    requires forall y :: y in f ==> le(x, y)
    ensures Ordered([x] + f, le)
  {
    var r := [x] + f;
    forall i, j | 0 <= i < j < |r| ensures le(r[i], r[j]) {
      assert r[j] == f[j - 1];
      if i > 0 {
        assert r[i] == f[i - 1];
      }
    }
  }

  /** How often `x` survives filtering: as often as in `s` when it passes,
      never otherwise. */
  lemma {:induction false} FilterMultiset<T(!new)>(s: seq<T>, p: T -> bool, x: T)
    ensures multiset(Filter(s, p))[x] == if p(x) then multiset(s)[x] else 0
  {
    if s != [] {
      assert s == [s[0]] + s[1..];
      FilterMultiset(s[1..], p, x);
    }
  }

  /** `FilterMultiset` for every element at once. */
  lemma FilterCounts<T(!new)>(s: seq<T>, p: T -> bool)
    ensures forall x :: multiset(Filter(s, p))[x] == if p(x) then multiset(s)[x] else 0
  {
    forall x { FilterMultiset(s, p, x); }
  }

  /** Filtering takes each element at most as often as it occurs. */
  lemma FilterSubMultiset<T(!new)>(s: seq<T>, p: T -> bool)
    ensures multiset(Filter(s, p)) <= multiset(s)
  {
    forall x ensures multiset(Filter(s, p))[x] <= multiset(s)[x] {
      FilterMultiset(s, p, x);
    }
  }

  /** Filtering two rearrangements of the same elements keeps the same
      elements, so in particular the same number of them. */
  lemma FilterPermutation<T(!new)>(s: seq<T>, t: seq<T>, p: T -> bool)
    requires multiset(s) == multiset(t)
    ensures multiset(Filter(s, p)) == multiset(Filter(t, p))
    ensures |Filter(s, p)| == |Filter(t, p)|
  {
    forall x ensures multiset(Filter(s, p))[x] == multiset(Filter(t, p))[x] {
      FilterMultiset(s, p, x);
      FilterMultiset(t, p, x);
    }
    assert multiset(Filter(s, p)) == multiset(Filter(t, p));
    assert |multiset(Filter(s, p))| == |multiset(Filter(t, p))|;
  }

  /** `s` with its first occurrence of `x` taken out. */
  function RemoveFirst<T(==)>(s: seq<T>, x: T): (r: seq<T>)
    requires x in s
    ensures |r| == |s| - 1
    ensures multiset(r) == multiset(s) - multiset{x}
  {
    assert s == [s[0]] + s[1..];
    if s[0] == x then s[1..] else [s[0]] + RemoveFirst(s[1..], x)
  }

  /** Removing the one-and-only occurrence of `x` leaves every other element
      where it was and `x` nowhere. */
  lemma RemoveSingle<T>(s: seq<T>, x: T)
    requires multiset(s)[x] == 1
    ensures x !in RemoveFirst(s, x)
    ensures forall y :: y != x ==> multiset(RemoveFirst(s, x))[y] == multiset(s)[y]
  {
    var r := RemoveFirst(s, x);
    assert multiset(r)[x] == 0;
  }

  /** Appending then removing an element that was absent gives back the
      original sequence. */
  lemma {:induction false} RemoveAfterAppend<T>(s: seq<T>, x: T)
    requires x !in s
    ensures RemoveFirst(s + [x], x) == s
  {
    if s != [] {
      assert (s + [x])[0] == s[0];
      assert (s + [x])[1..] == s[1..] + [x];
      RemoveAfterAppend(s[1..], x);
      assert [s[0]] + s[1..] == s;
    }
  }

  /** Concatenation of a sequence of strings, front to back. */
  function Concat(parts: seq<string>): (r: string)
    ensures |r| >= (if parts == [] then 0 else |parts[0]|)
    ensures parts != [] ==> r[..|parts[0]|] == parts[0]
  {
    if parts == [] then "" else parts[0] + Concat(parts[1..])
  }

  /** Appending one more part appends its text. */
  lemma {:induction false} ConcatAppend(parts: seq<string>, p: string)
    ensures Concat(parts + [p]) == Concat(parts) + p
  {
    if parts == [] {
      assert [] + [p] == [p];
    } else {
      assert (parts + [p])[1..] == parts[1..] + [p];
      ConcatAppend(parts[1..], p);
    }
  }
}
