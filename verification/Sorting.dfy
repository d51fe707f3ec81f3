/** sort.Strings, and sorting by the text something has. */
module Sorting {
  import opened Prelude

  /** Byte order on strings, as sort.Strings uses it. */
  predicate Less(a: string, b: string)
  {
    if b == [] then false
    else if a == [] then true
    else a[0] < b[0] || (a[0] == b[0] && Less(a[1..], b[1..]))
  }

  lemma SameBeginning(a: string, b: string)
    requires a != [] && b != []
    ensures forall i :: 0 < i <= |a| && i <= |b| && a[..i] == b[..i] ==> a[0] == b[0]
  {
    forall i | 0 < i <= |a| && i <= |b| && a[..i] == b[..i]
      ensures a[0] == b[0]
    {
      assert a[..i][0] == a[0] && b[..i][0] == b[0];
    }
  }

  /** One text comes before another when it is the beginning of it, or has the smaller
      character where they first differ. */
  lemma {:induction false} LessMeans(a: string, b: string)
    ensures Less(a, b) <==>
      || (a < b)
      || exists i | 0 <= i < |a| && i < |b| :: a[..i] == b[..i] && a[i] < b[i]
  {
    if a != [] && b != [] && a[0] == b[0] {
      var x, y := a[1..], b[1..];
      LessMeans(x, y);
      assert a == [a[0]] + x && b == [b[0]] + y;
      if i :| 0 <= i < |x| && i < |y| && x[..i] == y[..i] && x[i] < y[i] {
        assert a[..i + 1] == [a[0]] + x[..i] && b[..i + 1] == [b[0]] + y[..i];
        assert a[i + 1] < b[i + 1];
      }
      if i :| 0 <= i < |a| && i < |b| && a[..i] == b[..i] && a[i] < b[i] {
        assert i > 0;
        assert x[..i - 1] == a[..i][1..] && y[..i - 1] == b[..i][1..];
        assert x[i - 1] < y[i - 1];
      }
    } else if a != [] && b != [] {
      SameBeginning(a, b);
      assert a[0] < b[0] ==> a[..0] == b[..0];
    }
  }

  lemma {:induction false} LessAsymmetric(a: string, b: string)
    requires Less(a, b)
    ensures !Less(b, a)
  {
    if a != [] && a[0] == b[0] {
      LessAsymmetric(a[1..], b[1..]);
    }
  }

  lemma {:induction false} LessTotal(a: string, b: string)
    requires a != b
    ensures Less(a, b) || Less(b, a)
  {
    if a != [] && b != [] && a[0] == b[0] {
      assert a == [a[0]] + a[1..] && b == [b[0]] + b[1..];
      LessTotal(a[1..], b[1..]);
    }
  }

  lemma {:induction false} LessTransitive(a: string, b: string, c: string)
    requires Less(a, b) && Less(b, c)
    ensures Less(a, c)
  {
    if a != [] && a[0] == b[0] && b[0] == c[0] {
      LessTransitive(a[1..], b[1..], c[1..]);
    }
  }

  /** Strictly ascending by text. */
  ghost predicate Ascending<T(!new)>(order: seq<T>, text: T -> string)
  {
    forall i, j :: 0 <= i < j < |order| ==> Less(text(order[i]), text(order[j]))
  }

  /** Puts an element in its place among sorted ones. */
  function Place<T(!new)>(order: seq<T>, x: T, text: T -> string): (r: seq<T>)
    ensures forall y :: y in r <==> y in order || y == x
  {
    if order == [] || Less(text(x), text(order[0])) then [x] + order else [order[0]] + Place(order[1..], x, text)
  }

  function Sort<T(!new)>(s: seq<T>, text: T -> string): (r: seq<T>)
    ensures forall y :: y in r <==> y in s
  {
    if s == [] then [] else Place(Sort(s[1..], text), s[0], text)
  }

  lemma {:induction false} PlaceAscends<T(!new)>(order: seq<T>, x: T, text: T -> string)
    requires Ascending(order, text) && forall y :: y in order ==> text(y) != text(x)
    ensures Ascending(Place(order, x, text), text)
  {
    if order == [] {
    } else if Less(text(x), text(order[0])) {
      forall j | 0 < j < |order|
        ensures Less(text(x), text(order[j]))
      {
        LessTransitive(text(x), text(order[0]), text(order[j]));
      }
    } else {
      LessTotal(text(order[0]), text(x));
      assert forall i :: 0 <= i < |order[1..]| ==> order[1..][i] == order[i + 1];
      PlaceAscends(order[1..], x, text);
      var rest := Place(order[1..], x, text);
      forall j | 0 <= j < |rest|
        ensures Less(text(order[0]), text(rest[j]))
      {
        assert rest[j] in rest;
        if rest[j] != x {
          assert rest[j] in order[1..];
        }
      }
    }
  }

  /** Different elements with different texts come out strictly ascending. */
  lemma {:induction false} SortIsAscending<T(!new)>(s: seq<T>, text: T -> string)
    requires Distinct(s) && forall a, b :: text(a) == text(b) ==> a == b
    ensures Ascending(Sort(s, text), text)
  {
    if s != [] {
      assert forall i :: 0 <= i < |s[1..]| ==> s[1..][i] == s[i + 1];
      SortIsAscending(s[1..], text);
      PlaceAscends(Sort(s[1..], text), s[0], text);
    }
  }
}
