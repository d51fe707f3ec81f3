/** The values the configuration protocol takes: numbers, addresses, prefixes and
    endpoints as text. IPv6 text is that of section 2.2 of RFC 4291. */
module Values {
  import opened Prelude
  import opened Net
  import opened Decimal
  import opened Text

  predicate IsNumber(s: string)
  {
    s != [] && forall c :: c in s ==> IsDigit(c)
  }

  /** An unsigned decimal of 16 bits. */
  predicate IsUint16(s: string)
  {
    IsNumber(s) && Value(s) < 0x1_0000
  }

  /** A number of at most max, written without leading zeros. */
  predicate IsSmall(s: string, max: nat)
  {
    IsNumber(s) && Value(s) <= max && (|s| > 1 ==> s[0] != '0')
  }

  predicate AllOctets(parts: seq<string>)
  {
    forall p :: p in parts ==> IsSmall(p, 255)
  }

  predicate IsV4(s: string)
  {
    |Split(s, '.')| == 4 && AllOctets(Split(s, '.'))
  }

  predicate IsHex(c: char)
  {
    '0' <= c <= '9' || 'a' <= c <= 'f' || 'A' <= c <= 'F'
  }

  /** One to four hex digits. */
  predicate IsGroup(s: string)
  {
    1 <= |s| <= 4 && forall c :: c in s ==> IsHex(c)
  }

  function Groups(s: string): seq<string>
  {
    if s == [] then [] else Split(s, ':')
  }

  predicate AllGroups(parts: seq<string>)
  {
    forall p :: p in parts ==> IsGroup(p)
  }

  /** How many 16-bit groups the parts are; the last may be an IPv4 address. */
  function Width(parts: seq<string>): Option<nat>
  {
    if AllGroups(parts) then Some(|parts|)
    else if AllGroups(parts[..|parts| - 1]) && IsV4(parts[|parts| - 1]) then Some(|parts| + 1)
    else None
  }

  /** Eight groups, or fewer around one double colon. */
  predicate IsV6(s: string)
  {
    || Width(Groups(s)) == Some(8)
    || exists i | 0 <= i < |s| - 1 ::
         && s[i] == ':' && s[i + 1] == ':' && AllGroups(Groups(s[..i])) && Width(Groups(s[i + 2..])).Some?
         && |Groups(s[..i])| + Width(Groups(s[i + 2..])).value < 8
  }

  /** An address, a slash and a prefix length. */
  predicate IsPrefix(s: string)
  {
    match Cut(s, '/')
    case None => false
    case Some((addr, bits)) => (IsV4(addr) && IsSmall(bits, 32)) || (IsV6(addr) && IsSmall(bits, 128))
  }

  /** address:port, with an IPv6 address in brackets. */
  predicate IsHost(s: string)
  {
    IsV4(s) || (|s| > 2 && s[0] == '[' && s[|s| - 1] == ']' && IsV6(s[1..|s| - 1]))
  }

  predicate IsAddrPort(s: string)
  {
    exists i | 0 <= i < |s| :: s[i] == ':' && IsHost(s[..i]) && IsUint16(s[i + 1..])
  }

  // What addresses and prefixes are written as is taken

  lemma {:induction false} NoLeadingZero(n: nat)
    requires n > 0
    ensures Digits(n)[0] != '0' && (|Digits(n)| > 1 <==> n >= 10)
  {
    if n >= 10 {
      NoLeadingZero(n / 10);
      assert Digits(n)[0] == Digits(n / 10)[0];
    }
  }

  lemma DigitsAreSmall(n: nat, max: nat)
    requires n <= max
    ensures IsSmall(Digits(n), max) && '.' !in Digits(n) && '/' !in Digits(n)
  {
    ValueOfDigits(n);
    if n > 0 {
      NoLeadingZero(n);
    }
    assert !IsDigit('.') && !IsDigit('/');
  }

  lemma SplitDot(m: nat, rest: string)
    requires DottedText(rest)
    ensures Split(Dot(m, rest), '.') == [Digits(m)] + Split(rest, '.')
  {
    DigitsAreSmall(m, m);
    CutAt(Digits(m), '.', rest);
  }

  lemma SplitLast(m: nat)
    ensures Split(Digits(m), '.') == [Digits(m)]
  {
    DigitsAreSmall(m, m);
    CutParts(Digits(m), '.');
  }

  lemma DottedIsV4(w: nat, x: nat, y: nat, z: nat)
    requires w < 256 && x < 256 && y < 256 && z < 256
    ensures IsV4(Dotted(w, x, y, z))
  {
    DigitsAreSmall(w, 255);
    DigitsAreSmall(x, 255);
    DigitsAreSmall(y, 255);
    DigitsAreSmall(z, 255);
    hide IsSmall, Digits, DottedText, Split, Dot;
    SplitLast(z);
    SplitDot(y, Digits(z));
    SplitDot(x, Dot(y, Digits(z)));
    SplitDot(w, Dot(x, Dot(y, Digits(z))));
    assert Split(Dotted(w, x, y, z), '.') == [Digits(w), Digits(x), Digits(y), Digits(z)];
  }

  /** Every prefix, written the usual way, is one. */
  lemma PrefixesAreTaken(p: Cidr)
    ensures IsV4(AddrText(p.base)) && IsPrefix(CidrText(p))
  {
    var a := p.base;
    DottedIsV4(a / 0x100_0000, a / 0x1_0000 % 0x100, a / 0x100 % 0x100, a % 0x100);
    DigitsAreSmall(p.len, 32);
    hide IsV4, Digits, IsSmall, Dotted;
    assert '/' !in AddrText(a);
    CutAt(AddrText(a), '/', Digits(p.len));
    assert CidrText(p) == AddrText(a) + ['/'] + Digits(p.len);
  }

  /** And every address with a port is an endpoint. */
  lemma EndpointsAreTaken(a: Addr, port: nat)
    requires port < 0x1_0000
    ensures IsAddrPort(AddrText(a) + [':'] + Digits(port))
  {
    PrefixesAreTaken(Single(a));
    ValueOfDigits(port);
    var s := AddrText(a) + [':'] + Digits(port);
    var i := |AddrText(a)|;
    assert s[i] == ':' && s[..i] == AddrText(a) && s[i + 1..] == Digits(port);
  }

  lemma GroupsJoin(gs: seq<string>)
    requires AllGroups(gs)
    ensures Groups(Joined(gs, ':')) == gs
  {
    if gs != [] {
      assert gs[0] in gs && gs[0] != [];
      forall g | g in gs
        ensures ':' !in g
      {
        assert !IsHex(':');
      }
      SplitJoined(gs, ':');
    }
  }

  /** Eight groups are an IPv6 address. */
  lemma EightGroups(gs: seq<string>)
    requires |gs| == 8 && AllGroups(gs)
    ensures IsV6(Joined(gs, ':'))
  {
    GroupsJoin(gs);
    hide IsGroup, Split, Joined;
  }

  /** So are fewer around a double colon. */
  lemma DoubleColon(a: seq<string>, b: seq<string>)
    requires |a| + |b| < 8 && AllGroups(a) && AllGroups(b)
    ensures IsV6(Joined(a, ':') + [':', ':'] + Joined(b, ':'))
  {
    GroupsJoin(a);
    GroupsJoin(b);
    hide IsGroup, Split, Joined, Groups;
    var s, i := Joined(a, ':') + [':', ':'] + Joined(b, ':'), |Joined(a, ':')|;
    assert s[..i] == Joined(a, ':') && s[i + 2..] == Joined(b, ':') && s[i] == ':' && s[i + 1] == ':';
  }
}
