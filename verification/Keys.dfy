/** Keys change their clothes between the two formats: base64 (section 4 of
    RFC 4648) in a .conf file, hex (section 8) in the configuration protocol. */
module Keys {
  import opened Prelude
  import opened Text

  type Byte = b: int | 0 <= b < 256
  type Sextet = v: int | 0 <= v < 64

  const KeySize: nat := 32

  function SextetOf(c: char): Option<Sextet>
  {
    if 'A' <= c <= 'Z' then Some(c as int - 'A' as int)
    else if 'a' <= c <= 'z' then Some(c as int - 'a' as int + 26)
    else if '0' <= c <= '9' then Some(c as int - '0' as int + 52)
    else if c == '+' then Some(62)
    else if c == '/' then Some(63)
    else None
  }

  function SextetChar(v: Sextet): (c: char)
    ensures SextetOf(c) == Some(v) && c != '=' && !IsSpace(c)
  {
    if v < 26 then (v + 'A' as int) as char
    else if v < 52 then (v - 26 + 'a' as int) as char
    else if v < 62 then (v - 52 + '0' as int) as char
    else if v == 62 then '+'
    else '/'
  }

  // Reading

  function First(a: Sextet, b: Sextet): Byte { a * 4 + b / 16 }
  function Second(b: Sextet, c: Sextet): Byte { b % 16 * 16 + c / 4 }
  function Third(c: Sextet, d: Sextet): Byte { c % 4 * 64 + d }

  /** Groups of four; padding is allowed in the last group only, and bits it
      leaves over are ignored. */
  function DecodeQuads(s: string): Option<seq<Byte>>
  {
    if s == [] then Some([])
    else if |s| < 4 then None
    else
      var a, b := SextetOf(s[0]), SextetOf(s[1]);
      var c, d := SextetOf(s[2]), SextetOf(s[3]);
      if a == None || b == None then None
      else if s[3] == '=' then
        if |s| > 4 then None
        else if s[2] == '=' then Some([First(a.value, b.value)])
        else if c == None then None
        else Some([First(a.value, b.value), Second(b.value, c.value)])
      else if c == None || d == None then None
      else
        match DecodeQuads(s[4..])
        case None => None
        case Some(rest) => Some([First(a.value, b.value), Second(b.value, c.value), Third(c.value, d.value)] + rest)
  }

  /** base64.StdEncoding.DecodeString, which passes over line ends. */
  function Decode64(s: string): Option<seq<Byte>>
  {
    DecodeQuads(Filter(s, (c: char) => c != '\r' && c != '\n'))
  }

  datatype KeyError = NotBase64 | WrongSize(size: nat)

  function KeyToHex(b64: string): Result<string, KeyError>
  {
    match Decode64(Trim(b64))
    case None => Err(NotBase64)
    case Some(raw) => if |raw| != KeySize then Err(WrongSize(|raw|)) else Ok(Hex(raw))
  }

  // Writing

  function HexDigit(v: int): (c: char)
    requires 0 <= v < 16
    ensures IsHexDigit(c)
  {
    if v < 10 then (v + '0' as int) as char else (v - 10 + 'a' as int) as char
  }

  predicate IsHexDigit(c: char)
  {
    '0' <= c <= '9' || 'a' <= c <= 'f'
  }

  function HexValue(c: char): (v: int)
    requires IsHexDigit(c)
    ensures 0 <= v < 16
  {
    if c <= '9' then c as int - '0' as int else c as int - 'a' as int + 10
  }

  function Hex(bs: seq<Byte>): (h: string)
    ensures |h| == 2 * |bs| && forall c :: c in h ==> IsHexDigit(c)
  {
    if bs == [] then [] else [HexDigit(bs[0] / 16), HexDigit(bs[0] % 16)] + Hex(bs[1..])
  }

  /** The bytes a run of hex digits denotes. */
  function UnHex(h: string): seq<Byte>
    requires |h| % 2 == 0 && forall c :: c in h ==> IsHexDigit(c)
  {
    if h == [] then []
    else
      assert h[0] in h && h[1] in h;
      [HexValue(h[0]) * 16 + HexValue(h[1])] + UnHex(h[2..])
  }

  lemma {:induction false} UnHexHex(bs: seq<Byte>)
    ensures UnHex(Hex(bs)) == bs
  {
    if bs != [] {
      UnHexHex(bs[1..]);
      assert Hex(bs)[2..] == Hex(bs[1..]);
    }
  }

  /** base64 as it is written. */
  function Encode64(bs: seq<Byte>): string
  {
    if bs == [] then []
    else if |bs| == 1 then [SextetChar(bs[0] / 4), SextetChar(bs[0] % 4 * 16), '=', '=']
    else if |bs| == 2 then
      [SextetChar(bs[0] / 4), SextetChar(bs[0] % 4 * 16 + bs[1] / 16), SextetChar(bs[1] % 16 * 4), '=']
    else
      [SextetChar(bs[0] / 4), SextetChar(bs[0] % 4 * 16 + bs[1] / 16),
       SextetChar(bs[1] % 16 * 4 + bs[2] / 64), SextetChar(bs[2] % 64)] + Encode64(bs[3..])
  }

  lemma {:induction false} EncodedIsVisible(bs: seq<Byte>)
    ensures forall c :: c in Encode64(bs) ==> !IsSpace(c)
  {
    hide IsSpace;
    EqualsIsVisible();
    if |bs| > 2 {
      EncodedIsVisible(bs[3..]);
    }
  }

  lemma EqualsIsVisible()
    ensures !IsSpace('=') && IsSpace('\r') && IsSpace('\n')
  {
  }

  lemma {:induction false} DecodeEncode(bs: seq<Byte>)
    ensures DecodeQuads(Encode64(bs)) == Some(bs)
  {
    hide SextetChar, SextetOf, IsSpace;
    if |bs| > 2 {
      DecodeEncode(bs[3..]);
      var a, b, c := bs[0], bs[1], bs[2];
      var s := Encode64(bs);
      assert s[4..] == Encode64(bs[3..]);
      assert First(a / 4, a % 4 * 16 + b / 16) == a;
      assert Second(a % 4 * 16 + b / 16, b % 16 * 4 + c / 64) == b;
      assert Third(b % 16 * 4 + c / 64, c % 64) == c;
      assert bs == [a, b, c] + bs[3..];
    } else if |bs| == 2 {
      assert First(bs[0] / 4, bs[0] % 4 * 16 + bs[1] / 16) == bs[0];
      assert Second(bs[0] % 4 * 16 + bs[1] / 16, bs[1] % 16 * 4) == bs[1];
      assert bs == [bs[0], bs[1]];
    } else if |bs| == 1 {
      assert First(bs[0] / 4, bs[0] % 4 * 16) == bs[0];
      assert bs == [bs[0]];
    }
  }

  /** A key written as base64 comes out as the hex of exactly that key. */
  lemma KeyRoundTrip(k: seq<Byte>)
    requires |k| == KeySize
    ensures KeyToHex(Encode64(k)) == Ok(Hex(k))
    ensures UnHex(Hex(k)) == k
  {
    var s := Encode64(k);
    EncodedIsVisible(k);
    EqualsIsVisible();
    hide IsSpace, DecodeQuads, Encode64;
    TrimTrimmed(s);
    FilterAll(s, (c: char) => c != '\r' && c != '\n');
    DecodeEncode(k);
    UnHexHex(k);
  }

  /** Two key texts come out the same exactly when they denote the same 32 bytes;
      and whatever comes out is 64 hex digits. */
  lemma SameHexSameKey(s: string, t: string)
    requires KeyToHex(s).Ok?
    ensures KeyToHex(t) == KeyToHex(s) <==> Decode64(Trim(t)) == Decode64(Trim(s))
    ensures |KeyToHex(s).value| == 64 && forall c :: c in KeyToHex(s).value ==> IsHexDigit(c)
  {
    hide Decode64, Trim;
    UnHexHex(Decode64(Trim(s)).value);
    if KeyToHex(t).Ok? {
      UnHexHex(Decode64(Trim(t)).value);
    }
  }

  // Which texts are keys

  const Capitals: string := "ABCDEFGHIJKLMNOPQRSTUVWXYZ"
  const Smalls: string := "abcdefghijklmnopqrstuvwxyz"
  const Numerals: string := "0123456789"

  /** The base64 alphabet, in the order of the values its characters have. */
  const Alphabet: string := Capitals + Smalls + Numerals + "+/"

  lemma CapitalAt(i: nat)
    requires i < 26
    ensures |Capitals| == 26 && Capitals[i] as int == 'A' as int + i
  {
  }

  lemma SmallAt(i: nat)
    requires i < 26
    ensures |Smalls| == 26 && Smalls[i] as int == 'a' as int + i
  {
  }

  lemma NumeralAt(i: nat)
    requires i < 10
    ensures |Numerals| == 10 && Numerals[i] as int == '0' as int + i
  {
  }

  lemma AlphabetInOrder(v: Sextet)
    ensures |Alphabet| == 64 && SextetOf(Alphabet[v]) == Some(v)
  {
    CapitalAt(if v < 26 then v else 0);
    SmallAt(if 26 <= v < 52 then v - 26 else 0);
    NumeralAt(if 52 <= v < 62 then v - 52 else 0);
    hide Capitals, Smalls, Numerals;
    assert Alphabet[62] == '+' && Alphabet[63] == '/';
  }

  predicate InAlphabet(c: char)
  {
    'A' <= c <= 'Z' || 'a' <= c <= 'z' || '0' <= c <= '9' || c == '+' || c == '/'
  }

  function Pads(m: nat): nat
  {
    if m % 3 == 1 then 2 else if m % 3 == 2 then 1 else 0
  }

  /** base64 of m bytes: whole groups of four, with padding where bytes are missing. */
  predicate Shaped(t: string, m: nat)
  {
    && |t| == (m + 2) / 3 * 4
    && (forall i :: 0 <= i < |t| - Pads(m) ==> InAlphabet(t[i]))
    && (forall i :: 0 <= i < |t| && i >= |t| - Pads(m) ==> t[i] == '=')
  }

  lemma ShapedStep(t: string, m: nat)
    requires m > 3
    ensures Shaped(t, m) <==>
      |t| >= 4 && InAlphabet(t[0]) && InAlphabet(t[1]) && InAlphabet(t[2]) && InAlphabet(t[3]) && Shaped(t[4..], m - 3)
  {
    assert (m + 2) / 3 == (m - 3 + 2) / 3 + 1 && Pads(m) == Pads(m - 3);
    hide InAlphabet, Pads;
    if |t| >= 4 {
      var u := t[4..];
      assert forall i :: 0 <= i < |u| ==> u[i] == t[i + 4];
      assert forall i :: 4 <= i < |t| ==> t[i] == u[i - 4];
    }
  }

  lemma EqualsIsOutside()
    ensures !InAlphabet('=') && forall c: char :: InAlphabet(c) <==> SextetOf(c).Some?
  {
  }

  lemma {:induction false} DecodesExactly(t: string, m: nat)
    requires m > 0
    ensures DecodeQuads(t).Some? && |DecodeQuads(t).value| == m <==> Shaped(t, m)
    decreases |t|
  {
    EqualsIsOutside();
    hide SextetOf, InAlphabet;
    if m > 3 {
      ShapedStep(t, m);
      hide Shaped;
      if |t| >= 4 {
        DecodesExactly(t[4..], m - 3);
      }
    } else if |t| > 4 {
      NoBytesFromSomething(t[4..]);
    }
  }

  lemma NoBytesFromSomething(t: string)
    requires t != []
    ensures DecodeQuads(t).Some? ==> |DecodeQuads(t).value| > 0
  {
    hide SextetOf;
  }

  /** A text denotes a key exactly when, without white space around it and line ends
      in it, it is 43 characters of the alphabet and one equals sign. */
  lemma KeyTextsExactly(s: string)
    ensures KeyToHex(s).Ok? <==> Shaped(Filter(Trim(s), (c: char) => c != '\r' && c != '\n'), 32)
    ensures forall t | Shaped(t, 32) :: |t| == 44 && t[43] == '='
  {
    hide Trim, Hex, DecodeQuads, InAlphabet;
    DecodesExactly(Filter(Trim(s), (c: char) => c != '\r' && c != '\n'), 32);
  }
}
