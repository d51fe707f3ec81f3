/** Small shared datatypes and the sequence functions several modules reason about. */
module Prelude {

  datatype Option<+T> = None | Some(value: T)

  datatype Result<+T, +E> = Ok(value: T) | Err(error: E)

  /** The elements of s that satisfy p, in their old order. */
  function Filter<T(!new)>(s: seq<T>, p: T -> bool): (r: seq<T>)
    ensures forall x :: x in r <==> x in s && p(x)
    ensures |r| <= |s|
  {
    if s == [] then [] else (if p(s[0]) then [s[0]] else []) + Filter(s[1..], p)
  }

  lemma {:induction false} FilterConcat<T(!new)>(a: seq<T>, b: seq<T>, p: T -> bool)
    ensures Filter(a + b, p) == Filter(a, p) + Filter(b, p)
  {
    if a == [] {
      assert a + b == b;
    } else {
      assert (a + b)[1..] == a[1..] + b;
      FilterConcat(a[1..], b, p);
    }
  }

  /** Each element replaced by a sequence. */
  function FlatMap<T, U>(s: seq<T>, f: T -> seq<U>): seq<U>
  {
    if s == [] then [] else f(s[0]) + FlatMap(s[1..], f)
  }

  lemma {:induction false} FlatMapConcat<T, U>(a: seq<T>, b: seq<T>, f: T -> seq<U>)
    ensures FlatMap(a + b, f) == FlatMap(a, f) + FlatMap(b, f)
  {
    if a == [] {
      assert a + b == b;
    } else {
      assert (a + b)[1..] == a[1..] + b;
      FlatMapConcat(a[1..], b, f);
    }
  }

  lemma FlatMapOne<T, U>(x: T, f: T -> seq<U>)
    ensures FlatMap([x], f) == f(x)
  {
    assert [x][1..] == [];
  }

  lemma {:induction false} FlatMapNone<T, U>(s: seq<T>, f: T -> seq<U>)
    requires forall x :: x in s ==> f(x) == []
    ensures FlatMap(s, f) == []
  {
    if s != [] {
      FlatMapNone(s[1..], f);
    }
  }

  /** Two ways round a square, when they agree on each element. */
  lemma {:induction false} FlatMapSquare<T, U, V, W>(s: seq<T>, f: T -> seq<U>, g: U -> seq<W>, f': T -> seq<V>, g': V -> seq<W>)
    requires forall x :: x in s ==> FlatMap(f(x), g) == FlatMap(f'(x), g')
    ensures FlatMap(FlatMap(s, f), g) == FlatMap(FlatMap(s, f'), g')
  {
    if s != [] {
      assert s[0] in s && forall x :: x in s[1..] ==> x in s;
      FlatMapSquare(s[1..], f, g, f', g');
      FlatMapConcat(f(s[0]), FlatMap(s[1..], f), g);
      FlatMapConcat(f'(s[0]), FlatMap(s[1..], f'), g');
    }
  }

  lemma {:induction false} FlatMapIdempotent<T>(s: seq<T>, f: T -> seq<T>)
    requires forall x :: x in s ==> FlatMap(f(x), f) == f(x)
    ensures FlatMap(FlatMap(s, f), f) == FlatMap(s, f)
  {
    if s != [] {
      assert s[0] in s && forall x :: x in s[1..] ==> x in s;
      FlatMapIdempotent(s[1..], f);
      FlatMapConcat(f(s[0]), FlatMap(s[1..], f), f);
    }
  }

  lemma {:induction false} FlatMapKeeps<T, U>(s: seq<T>, f: T -> seq<U>, x: T, y: U)
    requires x in s && y in f(x)
    ensures y in FlatMap(s, f)
  {
    if x != s[0] || y !in f(s[0]) {
      FlatMapKeeps(s[1..], f, x, y);
    }
  }

  lemma {:induction false} FlatMapMembers<T(!new), U(!new)>(s: seq<T>, f: T -> seq<U>, y: U) returns (x: T)
    requires y in FlatMap(s, f)
    ensures x in s && y in f(x)
  {
    if y in f(s[0]) {
      x := s[0];
    } else {
      x := FlatMapMembers(s[1..], f, y);
    }
  }

  lemma {:induction false} FilterAll<T(!new)>(s: seq<T>, p: T -> bool)
    requires forall x :: x in s ==> p(x)
    ensures Filter(s, p) == s
  {
    if s != [] {
      FilterAll(s[1..], p);
    }
  }

  lemma {:induction false} FilterNone<T(!new)>(s: seq<T>, p: T -> bool)
    requires forall x :: x in s ==> !p(x)
    ensures Filter(s, p) == []
  {
    if s != [] {
      FilterNone(s[1..], p);
    }
  }

  /** Taking one element out of a sequence, seen through a filter. */
  lemma FilterWithout<T(!new)>(s: seq<T>, k: nat, p: T -> bool)
    requires k < |s|
    ensures !p(s[k]) ==> Filter(s[..k] + s[k + 1..], p) == Filter(s, p)
    ensures p(s[k]) ==> |Filter(s[..k] + s[k + 1..], p)| + 1 == |Filter(s, p)|
  {
    assert s == s[..k] + ([s[k]] + s[k + 1..]);
    FilterConcat(s[..k], [s[k]] + s[k + 1..], p);
    FilterConcat([s[k]], s[k + 1..], p);
    FilterConcat(s[..k], s[k + 1..], p);
    assert [s[k]][1..] == [];
  }

  /** t can be obtained from s by deleting elements. */
  ghost predicate Subsequence<T>(t: seq<T>, s: seq<T>)
  {
    if t == [] then true
    else if s == [] then false
    else (t[0] == s[0] && Subsequence(t[1..], s[1..])) || Subsequence(t, s[1..])
  }

  /** A subsequence of a concatenation splits into subsequences of its two parts. */
  lemma {:induction false} SubsequenceSplit<T(!new)>(t: seq<T>, a: seq<T>, b: seq<T>) returns (k: nat)
    requires Subsequence(t, a + b)
    ensures k <= |t| && Subsequence(t[..k], a) && Subsequence(t[k..], b)
  {
    if a == [] {
      assert a + b == b;
      k := 0;
      assert t[0..] == t;
    } else if t == [] {
      k := 0;
    } else {
      assert (a + b)[1..] == a[1..] + b;
      if t[0] == a[0] && Subsequence(t[1..], a[1..] + b) {
        var j := SubsequenceSplit(t[1..], a[1..], b);
        k := j + 1;
        assert t[..k][1..] == t[1..][..j];
        assert t[k..] == t[1..][j..];
      } else {
        k := SubsequenceSplit(t, a[1..], b);
      }
    }
  }

  lemma {:induction false} SubsequenceMember<T(!new)>(t: seq<T>, s: seq<T>)
    requires Subsequence(t, s)
    ensures forall x :: x in t ==> x in s
    ensures |t| <= |s|
  {
    if t != [] && s != [] {
      if t[0] == s[0] && Subsequence(t[1..], s[1..]) {
        SubsequenceMember(t[1..], s[1..]);
        assert t == [t[0]] + t[1..] && s == [s[0]] + s[1..];
      } else {
        SubsequenceMember(t, s[1..]);
      }
    }
  }

  /** Only the whole sequence is a subsequence of the same length. */
  lemma {:induction false} SubsequenceSameLength<T(!new)>(t: seq<T>, s: seq<T>)
    requires Subsequence(t, s) && |t| == |s|
    ensures t == s
  {
    if t != [] {
      if t[0] == s[0] && Subsequence(t[1..], s[1..]) {
        SubsequenceSameLength(t[1..], s[1..]);
      } else {
        SubsequenceMember(t, s[1..]);
      }
    }
  }

  lemma {:induction false} SubsequenceFilter<T(!new)>(t: seq<T>, s: seq<T>, p: T -> bool)
    requires Subsequence(t, s)
    ensures Subsequence(Filter(t, p), Filter(s, p))
  {
    if t == [] || s == [] {
    } else if t[0] == s[0] && Subsequence(t[1..], s[1..]) {
      SubsequenceFilter(t[1..], s[1..], p);
      if p(t[0]) {
        assert Filter(t, p)[1..] == Filter(t[1..], p) && Filter(s, p)[1..] == Filter(s[1..], p);
      } else {
        assert Filter(t, p) == Filter(t[1..], p) && Filter(s, p) == Filter(s[1..], p);
      }
    } else {
      SubsequenceFilter(t, s[1..], p);
      SubsequenceSkip(Filter(t, p), Filter(s[1..], p), if p(s[0]) then [s[0]] else []);
    }
  }

  lemma {:induction false} SubsequenceSkip<T(!new)>(t: seq<T>, s: seq<T>, head: seq<T>)
    requires Subsequence(t, s) && |head| <= 1
    ensures Subsequence(t, head + s)
  {
    if head == [] {
      assert head + s == s;
    } else if t != [] {
      assert (head + s)[1..] == s;
    }
  }

  ghost predicate Distinct<T(!new)>(s: seq<T>)
  {
    forall i, j :: 0 <= i < j < |s| ==> s[i] != s[j]
  }
}
