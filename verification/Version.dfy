/** Telling a later release from an earlier one. */
module Version {
  import opened Decimal
  import opened Text
  import opened Uapi

  /** A leading v, and everything from the first dash or plus on, do not count. */
  function Core(v: string): string
  {
    var t := Trim(v);
    UpToSuffix(if t != [] && t[0] == 'v' then t[1..] else t)
  }

  function UpToSuffix(s: string): string
  {
    if s == [] || s[0] == '-' || s[0] == '+' then [] else [s[0]] + UpToSuffix(s[1..])
  }

  /** The number strconv.Atoi reads. */
  function IntOf(s: string): int
    requires IsAtoi(s)
  {
    if s[0] == '-' then 0 - Value(s[1..]) else if s[0] == '+' then Value(s[1..]) else Value(s)
  }

  predicate Parses(v: string)
  {
    forall p :: p in Split(Core(v), '.') ==> IsAtoi(p)
  }

  function Fields(parts: seq<string>): (r: seq<int>)
    requires forall p :: p in parts ==> IsAtoi(p)
    ensures |r| == |parts| && forall i :: 0 <= i < |r| ==> r[i] == IntOf(parts[i])
  {
    if parts == [] then []
    else
      assert parts[0] in parts;
      [IntOf(parts[0])] + Fields(parts[1..])
  }

  /** The fields of a version; none at all when any of them is not a number. */
  function VersionOf(v: string): seq<int>
  {
    if Parses(v) then Fields(Split(Core(v), '.')) else []
  }

  method SplitVersion(v: string) returns (out: seq<int>)
    ensures out == VersionOf(v)
  {
    hide Core, IsAtoi, IntOf, Split;
    out := [];
    var parts := Split(Core(v), '.');
    for i := 0 to |parts|
      invariant (forall p :: p in parts[..i] ==> IsAtoi(p)) && out == Fields(parts[..i])
    {
      assert parts[i] in parts;
      if !IsAtoi(parts[i]) {
        return [];
      }
      FieldsSnoc(parts[..i], parts[i]);
      assert parts[..i + 1] == parts[..i] + [parts[i]];
      out := out + [IntOf(parts[i])];
    }
    assert parts[..|parts|] == parts;
  }

  lemma {:induction false} FieldsSnoc(a: seq<string>, p: string)
    requires (forall x :: x in a ==> IsAtoi(x)) && IsAtoi(p)
    ensures (forall x :: x in a + [p] ==> IsAtoi(x)) && Fields(a + [p]) == Fields(a) + [IntOf(p)]
  {
    hide IsAtoi, IntOf;
  }

  /** Field i, zero where there is none. */
  function At(v: seq<int>, i: nat): int
  {
    if i < |v| then v[i] else 0
  }

  /** a comes after b: at the first field in which they differ, a's is larger. */
  ghost predicate After(a: seq<int>, b: seq<int>)
  {
    exists k: nat :: DiffersAt(a, b, k) && At(a, k) > At(b, k)
  }

  ghost predicate DiffersAt(a: seq<int>, b: seq<int>, k: nat)
  {
    At(a, k) != At(b, k) && forall i: nat :: i < k ==> At(a, i) == At(b, i)
  }

  method NewerVersion(a: string, b: string) returns (newer: bool)
    ensures newer <==> After(VersionOf(a), VersionOf(b))
  {
    hide VersionOf;
    var av := SplitVersion(a);
    var bv := SplitVersion(b);
    var i := 0;
    while i < |av| || i < |bv|
      invariant forall j: nat :: j < i ==> At(av, j) == At(bv, j)
      decreases |av| + |bv| - i
    {
      var x, y := 0, 0;
      if i < |av| {
        x := av[i];
      }
      if i < |bv| {
        y := bv[i];
      }
      if x != y {
        assert DiffersAt(av, bv, i);
        return x > y;
      }
      i := i + 1;
    }
    return false;
  }

  // A strict weak order

  lemma NotAfterItself(a: seq<int>)
    ensures !After(a, a)
  {
  }

  lemma AfterIsTransitive(a: seq<int>, b: seq<int>, c: seq<int>)
    requires After(a, b) && After(b, c)
    ensures After(a, c)
  {
    var i: nat :| DiffersAt(a, b, i) && At(a, i) > At(b, i);
    var j: nat :| DiffersAt(b, c, j) && At(b, j) > At(c, j);
    assert DiffersAt(a, c, if i < j then i else j);
  }

  /** Versions that are zero-padded alike are the same release. */
  ghost predicate Ties(a: seq<int>, b: seq<int>)
  {
    forall i: nat :: At(a, i) == At(b, i)
  }

  lemma {:induction false} FirstDifference(a: seq<int>, b: seq<int>, n: nat) returns (k: nat)
    requires At(a, n) != At(b, n)
    ensures DiffersAt(a, b, k)
  {
    if i: nat :| i < n && At(a, i) != At(b, i) {
      k := FirstDifference(a, b, i);
    } else {
      k := n;
    }
  }

  /** Any two versions compare one way, the other way, or tie; and only one of these. */
  lemma AfterIsTotal(a: seq<int>, b: seq<int>)
    ensures After(a, b) || After(b, a) <==> !Ties(a, b)
    ensures !(After(a, b) && After(b, a))
  {
    if !Ties(a, b) {
      var n: nat :| At(a, n) != At(b, n);
      var k := FirstDifference(a, b, n);
      assert DiffersAt(b, a, k);
    }
    if After(a, b) && After(b, a) {
      AfterIsTransitive(a, b, a);
      NotAfterItself(a);
    }
  }

  lemma TiesCarry(a: seq<int>, b: seq<int>, c: seq<int>)
    requires Ties(a, b)
    ensures After(a, c) ==> After(b, c)
    ensures After(c, a) ==> After(c, b)
  {
    if k: nat :| DiffersAt(a, c, k) && At(a, k) > At(c, k) {
      assert DiffersAt(b, c, k);
    }
    if k: nat :| DiffersAt(c, a, k) && At(c, k) > At(a, k) {
      assert DiffersAt(c, b, k);
    }
  }

  /** Neither-is-newer carries over, so releases fall into ranks. */
  lemma AfterIsNegativelyTransitive(a: seq<int>, b: seq<int>, c: seq<int>)
    requires !After(a, b) && !After(b, c)
    ensures !After(a, c)
  {
    AfterIsTotal(a, b);
    AfterIsTotal(b, c);
    AfterIsTotal(a, c);
    if Ties(a, b) {
      TiesCarry(a, b, c);
    } else if Ties(b, c) {
      TiesCarry(c, b, a);
    } else {
      AfterIsTransitive(c, b, a);
    }
  }

  /** A version ties with a longer one exactly when the rest of it is zeros: 1.6 is 1.6.0. */
  lemma TiesMeansPadding(a: seq<int>, b: seq<int>)
    requires |a| <= |b|
    ensures Ties(a, b) <==> b[..|a|] == a && forall i :: |a| <= i < |b| ==> b[i] == 0
  {
    if Ties(a, b) {
      forall i | 0 <= i < |b|
        ensures b[i] == At(a, i)
      {
        assert At(a, i) == At(b, i);
      }
    } else {
      var i: nat :| At(a, i) != At(b, i);
      assert i < |a| ==> b[..|a|][i] != a[i];
    }
  }

  lemma {:induction false} NoSignLeft(s: string)
    ensures forall c :: c in UpToSuffix(s) ==> c != '-' && c != '+'
  {
    if s != [] {
      NoSignLeft(s[1..]);
    }
  }

  /** Whatever follows a sign is cut off, so no field is negative. */
  lemma FieldsAreNotNegative(v: string, i: nat)
    ensures At(VersionOf(v), i) >= 0
  {
    hide IsAtoi, Split;
    if Parses(v) && i < |VersionOf(v)| {
      var parts := Split(Core(v), '.');
      assert parts[i] in parts;
      PartHasNoSign(v, parts[i]);
      UnsignedIsNotNegative(parts[i]);
    }
  }

  lemma PartHasNoSign(v: string, part: string)
    requires part in Split(Core(v), '.')
    ensures '-' !in part
  {
    hide Split, Trim;
    var t := Trim(v);
    NoSignLeft(if t != [] && t[0] == 'v' then t[1..] else t);
    if '-' in part {
      SplitMembers(Core(v), '.', part, '-');
    }
  }

  lemma UnsignedIsNotNegative(part: string)
    requires IsAtoi(part) && '-' !in part
    ensures IntOf(part) >= 0
  {
  }

  /** What does not parse is never newer than anything. */
  lemma UnparsedIsNeverNewer(a: string, b: string)
    requires !Parses(a)
    ensures !After(VersionOf(a), VersionOf(b))
  {
    hide Parses, Core, Split;
    assert VersionOf(a) == [];
    hide VersionOf;
    forall k: nat
      ensures At(VersionOf(b), k) >= 0
    {
      FieldsAreNotNegative(b, k);
    }
  }

  // What a version says

  /** The fields of a release, written in decimal. */
  function Numbers(ns: seq<nat>): (r: seq<string>)
    ensures |r| == |ns| && forall i :: 0 <= i < |ns| ==> r[i] == Digits(ns[i])
  {
    seq(|ns|, i requires 0 <= i < |ns| => Digits(ns[i]))
  }

  function Release(ns: seq<nat>): string
  {
    Joined(Numbers(ns), '.')
  }

  /** What strconv.Atoi can hold. */
  predicate Fits(ns: seq<nat>)
  {
    forall i :: 0 <= i < |ns| ==> ns[i] < 0x8000_0000_0000_0000
  }

  /** Nothing, or something that starts with a dash or a plus. */
  predicate IsSuffix(s: string)
  {
    s != [] ==> s[0] == '-' || s[0] == '+'
  }

  lemma DigitsRead(n: nat)
    requires n < 0x8000_0000_0000_0000
    ensures IsAtoi(Digits(n)) && IntOf(Digits(n)) == n
  {
    ValueOfDigits(n);
    var s := Digits(n);
    assert s[0] in s;
    assert !IsDigit('-') && !IsDigit('+');
  }

  lemma NumberChars(ns: seq<nat>)
    ensures forall p :: p in Numbers(ns) ==> p != [] && forall c :: c in p ==> IsDigit(c)
  {
  }

  lemma ReleaseChars(ns: seq<nat>)
    ensures forall c :: c in Release(ns) ==> IsDigit(c) || c == '.'
  {
    NumberChars(ns);
    hide Numbers, IsDigit, Joined;
    forall c | c in Release(ns)
      ensures IsDigit(c) || c == '.'
    {
      JoinedMembers(Numbers(ns), '.', c);
    }
  }

  lemma ReleaseStarts(ns: seq<nat>)
    requires ns != []
    ensures Release(ns) != [] && IsDigit(Release(ns)[0])
  {
    NumberChars(ns);
    var p := Numbers(ns)[0];
    assert p in Numbers(ns) && p[0] in p;
    hide Numbers, IsDigit;
    assert Release(ns)[0] == p[0];
  }

  lemma {:induction false} SuffixIsCut(body: string, suffix: string)
    requires (forall c :: c in body ==> c != '-' && c != '+') && IsSuffix(suffix)
    ensures UpToSuffix(body + suffix) == body
  {
    if body == [] {
      assert body + suffix == suffix;
    } else {
      assert body[0] in body && forall c :: c in body[1..] ==> c in body;
      SuffixIsCut(body[1..], suffix);
      assert (body + suffix)[1..] == body[1..] + suffix;
    }
  }

  /** The core of a release, with or without a leading v, whatever follows it. */
  lemma CoreOfRelease(v: string, ns: seq<nat>, suffix: string)
    requires ns != [] && IsSuffix(suffix) && Trim(v) in {Release(ns) + suffix, ['v'] + Release(ns) + suffix}
    ensures Core(v) == Release(ns)
  {
    ReleaseChars(ns);
    ReleaseStarts(ns);
    assert !IsDigit('-') && !IsDigit('+') && !IsDigit('v');
    hide Release, IsDigit, Trim;
    SuffixIsCut(Release(ns), suffix);
    var t := Trim(v);
    if t == ['v'] + Release(ns) + suffix {
      assert t[0] == 'v' && t[1..] == Release(ns) + suffix;
    } else {
      assert t[0] == Release(ns)[0];
    }
  }

  /** A release reads as its numbers. */
  lemma ReleaseReads(v: string, ns: seq<nat>, suffix: string)
    requires ns != [] && Fits(ns) && IsSuffix(suffix) && Trim(v) in {Release(ns) + suffix, ['v'] + Release(ns) + suffix}
    ensures VersionOf(v) == ns
  {
    CoreOfRelease(v, ns, suffix);
    NumberChars(ns);
    assert !IsDigit('.');
    hide Core, IsAtoi, IntOf, Split, Joined, IsDigit, Trim;
    var parts := Numbers(ns);
    SplitJoined(parts, '.');
    forall i | 0 <= i < |ns|
      ensures IsAtoi(parts[i]) && IntOf(parts[i]) == ns[i]
    {
      DigitsRead(ns[i]);
    }
    assert Parses(v);
  }

  /** One release is newer than another exactly when its numbers are, the first
      difference deciding and missing fields counting as zero. */
  lemma NewerByNumbers(v: string, a: seq<nat>, x: string, w: string, b: seq<nat>, y: string)
    requires a != [] && Fits(a) && IsSuffix(x) && Trim(v) in {Release(a) + x, ['v'] + Release(a) + x}
    requires b != [] && Fits(b) && IsSuffix(y) && Trim(w) in {Release(b) + y, ['v'] + Release(b) + y}
    ensures After(VersionOf(v), VersionOf(w)) <==>
      exists k: nat :: DiffersAt(a, b, k) && At(a, k) > At(b, k)
  {
    ReleaseReads(v, a, x);
    ReleaseReads(w, b, y);
  }

  /** Fields are numbers, not text: 1.10.0 comes after 1.9.0. */
  lemma TenAfterNine(v: string, w: string)
    requires Trim(v) == Release([1, 10, 0]) && Trim(w) == Release([1, 9, 0])
    ensures After(VersionOf(v), VersionOf(w))
  {
    hide Trim, Release, VersionOf;
    assert Release([1, 10, 0]) + "" == Release([1, 10, 0]) && Release([1, 9, 0]) + "" == Release([1, 9, 0]);
    ReleaseReads(v, [1, 10, 0], "");
    ReleaseReads(w, [1, 9, 0], "");
    assert DiffersAt([1, 10, 0], [1, 9, 0], 1);
  }

  /** A version with a field that is empty or holds anything but digits has no fields
      at all, so it is never newer. */
  lemma BadFieldIsNothing(v: string, parts: seq<string>, bad: string)
    requires bad in parts && Trim(v) == Joined(parts, '.') && (bad == "" || exists c | c in bad :: !IsDigit(c))
    requires forall p :: p in parts ==> '.' !in p && '-' !in p && '+' !in p && (p != "" ==> p[0] != 'v')
    ensures VersionOf(v) == []
  {
    var t := Joined(parts, '.');
    forall c | c in t
      ensures c != '-' && c != '+'
    {
      JoinedMembers(parts, '.', c);
    }
    assert t != [] ==> t[0] != 'v' by {
      assert parts[0] in parts;
    }
    hide Trim, Joined, IsDigit, Split;
    SuffixIsCut(t, "");
    assert t + "" == t && Core(v) == t;
    SplitJoined(parts, '.');
    BadIsNoAtoi(bad);
    assert !Parses(v);
  }

  lemma BadIsNoAtoi(s: string)
    requires '-' !in s && '+' !in s && (s == "" || exists c | c in s :: !IsDigit(c))
    ensures !IsAtoi(s)
  {
    assert s != "" ==> s[0] in s;
  }
}
