/** Decimal text: how numbers, addresses and prefixes are written. */
module Decimal {
  import opened Net

  function Digit(d: nat): (c: char)
    requires d < 10
    ensures '0' <= c <= '9' && c as int - '0' as int == d
  {
    ('0' as int + d) as char
  }

  predicate IsDigit(c: char)
  {
    '0' <= c <= '9'
  }

  function Digits(n: nat): (s: string)
    ensures s != [] && forall c :: c in s ==> IsDigit(c)
  {
    if n < 10 then [Digit(n)] else Digits(n / 10) + [Digit(n % 10)]
  }

  /** The number a run of digits denotes. */
  function Value(s: string): (r: nat)
    requires forall c :: c in s ==> IsDigit(c)
  {
    if s == [] then 0
    else
      var last := s[|s| - 1];
      assert IsDigit(last);
      10 * Value(s[..|s| - 1]) + (last as int - '0' as int)
  }

  lemma {:induction false} ValueOfDigits(n: nat)
    ensures Value(Digits(n)) == n
  {
    if n >= 10 {
      ValueOfDigits(n / 10);
      assert Digits(n)[..|Digits(n)| - 1] == Digits(n / 10);
    } else {
      assert Digits(n)[..0] == [];
    }
  }

  function AddrText(a: Addr): (s: string)
    ensures DottedText(s)
  {
    Dotted(a / 0x100_0000, a / 0x1_0000 % 0x100, a / 0x100 % 0x100, a % 0x100)
  }

  function CidrText(p: Cidr): string
  {
    AddrText(p.base) + "/" + Digits(p.len)
  }

  /** Two texts that start with runs free of a separator and then hold it agree on both sides of it. */
  lemma SplitAt(a: string, b: string, x: string, y: string, sep: char)
    requires sep !in a && sep !in b
    requires a + [sep] + x == b + [sep] + y
    ensures a == b && x == y
  {
    var s, t := a + [sep] + x, b + [sep] + y;
    assert s[|a|] == sep && t[|b|] == sep;
    assert forall i :: 0 <= i < |a| ==> s[i] == a[i] != sep;
    assert forall i :: 0 <= i < |b| ==> t[i] == b[i] != sep;
    assert |a| == |b|;
    assert a == s[..|a|] && b == t[..|b|];
    assert x == s[|a| + 1..] && y == t[|b| + 1..];
  }

  /** An address is its four bytes. */
  lemma BytesDetermine(a: Addr, b: Addr)
    requires a / 0x100_0000 == b / 0x100_0000 && a / 0x1_0000 % 0x100 == b / 0x1_0000 % 0x100
    requires a / 0x100 % 0x100 == b / 0x100 % 0x100 && a % 0x100 == b % 0x100
    ensures a == b
  {
  }

  predicate DottedText(s: string)
  {
    s != [] && forall c :: c in s ==> IsDigit(c) || c == '.'
  }

  function Dot(m: nat, rest: string): (s: string)
    requires DottedText(rest)
    ensures DottedText(s)
  {
    Digits(m) + ['.'] + rest
  }

  lemma DotInjective(m: nat, rest: string, m': nat, rest': string)
    requires DottedText(rest) && DottedText(rest') && Dot(m, rest) == Dot(m', rest')
    ensures m == m' && rest == rest'
  {
    SplitAt(Digits(m), Digits(m'), rest, rest', '.');
    ValueOfDigits(m);
    ValueOfDigits(m');
  }

  function Dotted(w: nat, x: nat, y: nat, z: nat): (s: string)
    ensures DottedText(s)
  {
    Dot(w, Dot(x, Dot(y, Digits(z))))
  }

  lemma DottedInjective(w: nat, x: nat, y: nat, z: nat, w': nat, x': nat, y': nat, z': nat)
    requires Dotted(w, x, y, z) == Dotted(w', x', y', z')
    ensures w == w' && x == x' && y == y' && z == z'
  {
    DotInjective(w, Dot(x, Dot(y, Digits(z))), w', Dot(x', Dot(y', Digits(z'))));
    DotInjective(x, Dot(y, Digits(z)), x', Dot(y', Digits(z')));
    DotInjective(y, Digits(z), y', Digits(z'));
    ValueOfDigits(z);
    ValueOfDigits(z');
  }

  /** An address is written octet by octet, the highest first. */
  lemma AddrTextIs(w: nat, x: nat, y: nat, z: nat)
    requires w < 256 && x < 256 && y < 256 && z < 256
    ensures AddrText(((w * 256 + x) * 256 + y) * 256 + z) == Digits(w) + "." + Digits(x) + "." + Digits(y) + "." + Digits(z)
  {
    OctetsOf(w, x, y, z);
    DottedIs(w, x, y, z);
    hide Dotted, Digits;
  }

  lemma DottedIs(w: nat, x: nat, y: nat, z: nat)
    ensures Dotted(w, x, y, z) == Digits(w) + "." + Digits(x) + "." + Digits(y) + "." + Digits(z)
  {
    hide Digits;
  }

  lemma OctetsOf(w: nat, x: nat, y: nat, z: nat)
    requires w < 256 && x < 256 && y < 256 && z < 256
    ensures var a := ((w * 256 + x) * 256 + y) * 256 + z;
      a / 0x100_0000 == w && a / 0x1_0000 % 0x100 == x && a / 0x100 % 0x100 == y && a % 0x100 == z
  {
  }

  lemma AddrTextInjective(a: Addr, b: Addr)
    requires AddrText(a) == AddrText(b)
    ensures a == b
  {
    DottedInjective(a / 0x100_0000, a / 0x1_0000 % 0x100, a / 0x100 % 0x100, a % 0x100,
                    b / 0x100_0000, b / 0x1_0000 % 0x100, b / 0x100 % 0x100, b % 0x100);
    BytesDetermine(a, b);
  }
}
