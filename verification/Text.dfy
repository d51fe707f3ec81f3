/** Text as Go's strings and bufio packages cut it up. A file is a sequence of
    Unicode scalar values. */
module Text {
  import opened Prelude

  /** unicode.IsSpace */
  predicate IsSpace(c: char)
  {
    || '\t' <= c <= '\r' || c == ' ' || c == '\U{85}' || c == '\U{A0}' || c == '\U{1680}'
    || '\U{2000}' <= c <= '\U{200A}' || c == '\U{2028}' || c == '\U{2029}' || c == '\U{202F}'
    || c == '\U{205F}' || c == '\U{3000}'
  }

  function TrimRight(s: string): string
  {
    if s != [] && IsSpace(s[|s| - 1]) then TrimRight(s[..|s| - 1]) else s
  }

  function TrimLeft(s: string): string
  {
    if s != [] && IsSpace(s[0]) then TrimLeft(s[1..]) else s
  }

  /** strings.TrimSpace */
  function Trim(s: string): string
  {
    TrimLeft(TrimRight(s))
  }

  lemma {:induction false} TrimRightCuts(s: string)
    ensures var r := TrimRight(s); r <= s && (r != [] ==> !IsSpace(r[|r| - 1]))
    ensures forall i :: |TrimRight(s)| <= i < |s| ==> IsSpace(s[i])
    decreases |s|
  {
    if s != [] && IsSpace(s[|s| - 1]) {
      TrimRightCuts(s[..|s| - 1]);
    }
  }

  lemma {:induction false} TrimLeftCuts(s: string)
    ensures var r := TrimLeft(s); |r| <= |s| && r == s[|s| - |r|..] && (r != [] ==> !IsSpace(r[0]))
    ensures forall i :: 0 <= i < |s| - |TrimLeft(s)| ==> IsSpace(s[i])
  {
    if s != [] && IsSpace(s[0]) {
      TrimLeftCuts(s[1..]);
      assert forall i :: 1 <= i < |s| ==> s[i] == s[1..][i - 1];
    }
  }

  /** Neither starts nor ends with white space. */
  predicate Trimmed(s: string)
  {
    s != [] ==> !IsSpace(s[0]) && !IsSpace(s[|s| - 1])
  }

  /** Trimming cuts white space off both ends, and all of it. */
  lemma TrimCuts(s: string) returns (before: string, after: string)
    ensures s == before + Trim(s) + after && Trimmed(Trim(s))
    ensures (forall i :: 0 <= i < |before| ==> IsSpace(s[i])) && (forall i :: |s| - |after| <= i < |s| ==> IsSpace(s[i]))
  {
    var r := TrimRight(s);
    TrimRightCuts(s);
    TrimLeftCuts(r);
    before, after := r[..|r| - |Trim(s)|], s[|r|..];
    assert r == before + Trim(s);
  }

  lemma TrimTrimmed(s: string)
    requires Trimmed(s)
    ensures Trim(s) == s
  {
  }

  lemma TrimIdempotent(s: string)
    ensures Trim(Trim(s)) == Trim(s)
  {
    var _, _ := TrimCuts(s);
    TrimTrimmed(Trim(s));
  }

  /** Blanks, tabs and carriage returns. */
  predicate IsPadding(s: string)
  {
    forall i :: 0 <= i < |s| ==> s[i] == ' ' || s[i] == '\t' || s[i] == '\r'
  }

  /** Padding around a text goes, and nothing more when the text starts and ends
      with something visible. */
  lemma {:induction false} PaddingGoes(before: string, t: string, after: string)
    requires IsPadding(before) && IsPadding(after)
    requires t != "" && '!' <= t[0] <= '~' && '!' <= t[|t| - 1] <= '~'
    ensures Trim(before + t + after) == t
    decreases |before| + |after|
  {
    var s := before + t + after;
    if after != "" {
      assert s[|s| - 1] == after[|after| - 1] && s[..|s| - 1] == before + t + after[..|after| - 1];
      PaddingGoes(before, t, after[..|after| - 1]);
    } else if before != "" {
      assert s[0] == before[0] && s[1..] == before[1..] + t + after;
      PaddingGoes(before[1..], t, after);
      assert s[|s| - 1] == s[1..][|s| - 2] == t[|t| - 1];
      assert TrimRight(s) == s && TrimRight(s[1..]) == s[1..];
    } else {
      assert s == t && TrimRight(t) == t;
    }
  }

  lemma TrimMembers(s: string, c: char)
    requires c in Trim(s)
    ensures c in s
  {
    var before, after := TrimCuts(s);
  }

  /** One carriage return at the end of a line, which bufio.ScanLines drops. */
  function DropCr(s: string): string
  {
    if s != [] && s[|s| - 1] == '\r' then s[..|s| - 1] else s
  }

  lemma TrimDropCr(s: string)
    ensures Trim(DropCr(s)) == Trim(s)
  {
    if s != [] && s[|s| - 1] == '\r' {
      assert TrimRight(s) == TrimRight(s[..|s| - 1]);
    }
  }

  /** strings.Cut at one character. */
  function Cut(s: string, sep: char): Option<(string, string)>
  {
    if s == [] then None
    else if s[0] == sep then Some(([], s[1..]))
    else
      match Cut(s[1..], sep)
      case None => None
      case Some((before, after)) => Some(([s[0]] + before, after))
  }

  lemma {:induction false} CutParts(s: string, sep: char)
    ensures Cut(s, sep) == None <==> sep !in s
    ensures Cut(s, sep).Some? ==> var (before, after) := Cut(s, sep).value; s == before + [sep] + after && sep !in before
  {
    if s != [] && s[0] != sep {
      CutParts(s[1..], sep);
    }
  }

  lemma {:induction false} CutAt(before: string, sep: char, after: string)
    requires sep !in before
    ensures Cut(before + [sep] + after, sep) == Some((before, after))
  {
    var s := before + [sep] + after;
    if before == [] {
      assert s[0] == sep && s[1..] == after;
    } else {
      CutAt(before[1..], sep, after);
      assert s[0] == before[0] && s[1..] == before[1..] + [sep] + after;
      assert [before[0]] + before[1..] == before;
    }
  }

  /** strings.Split at one character. */
  function Split(s: string, sep: char): seq<string>
    decreases |s|
  {
    CutParts(s, sep);
    match Cut(s, sep)
    case None => [s]
    case Some((before, after)) => [before] + Split(after, sep)
  }

  /** strings.Join with one character. */
  function Joined(parts: seq<string>, sep: char): string
  {
    if parts == [] then [] else if |parts| == 1 then parts[0] else parts[0] + [sep] + Joined(parts[1..], sep)
  }

  /** Splitting takes apart what joining put together. */
  lemma {:induction false} SplitJoined(parts: seq<string>, sep: char)
    requires parts != [] && forall p :: p in parts ==> sep !in p
    ensures Split(Joined(parts, sep), sep) == parts
  {
    assert parts[0] in parts;
    if |parts| == 1 {
      CutParts(parts[0], sep);
    } else {
      SplitJoined(parts[1..], sep);
      CutAt(parts[0], sep, Joined(parts[1..], sep));
      assert parts == [parts[0]] + parts[1..];
    }
  }

  lemma {:induction false} JoinedMembers(parts: seq<string>, sep: char, c: char)
    requires c in Joined(parts, sep)
    ensures c == sep || exists p :: p in parts && c in p
  {
    if parts != [] && c !in parts[0] && c != sep {
      JoinedMembers(parts[1..], sep, c);
      var p :| p in parts[1..] && c in p;
      assert p in parts;
    } else if parts != [] && c in parts[0] {
      assert parts[0] in parts;
    }
  }

  /** What a "Key = value" line sets its key to. */
  function ValueOf(e: string): string
  {
    match Cut(e, '=')
    case None => ""
    case Some((_, v)) => Trim(v)
  }

  /** The lines a bufio.Scanner yields. */
  function ScanLines(s: string): seq<string>
    decreases |s|
  {
    CutParts(s, '\n');
    if s == [] then []
    else
      match Cut(s, '\n')
      case None => [DropCr(s)]
      case Some((before, after)) => [DropCr(before)] + ScanLines(after)
  }

  lemma {:induction false} SplitParts(s: string, sep: char)
    ensures Split(s, sep) != [] && forall l :: l in Split(s, sep) ==> sep !in l
    decreases |s|
  {
    CutParts(s, sep);
    match Cut(s, sep)
    case None =>
    case Some((before, after)) => SplitParts(after, sep);
  }

  lemma {:induction false} SplitMembers(s: string, sep: char, l: string, c: char)
    requires l in Split(s, sep) && c in l
    ensures c in s
    decreases |s|
  {
    CutParts(s, sep);
    match Cut(s, sep)
    case None =>
    case Some((before, after)) =>
      if l != before {
        SplitMembers(after, sep, l, c);
      }
  }

  lemma {:induction false} ScanParts(s: string)
    ensures forall l :: l in ScanLines(s) ==> '\n' !in l
    decreases |s|
  {
    CutParts(s, '\n');
    if s != [] && Cut(s, '\n').Some? {
      ScanParts(Cut(s, '\n').value.1);
    }
  }

  function Unlines(ls: seq<string>): string
  {
    if ls == [] then [] else ls[0] + ['\n'] + Unlines(ls[1..])
  }

  lemma {:induction false} UnlinesConcat(a: seq<string>, b: seq<string>)
    ensures Unlines(a + b) == Unlines(a) + Unlines(b)
  {
    if a == [] {
      assert a + b == b;
    } else {
      assert (a + b)[1..] == a[1..] + b;
      UnlinesConcat(a[1..], b);
    }
  }

  lemma UnlinesOne(l: string)
    ensures Unlines([l]) == l + ['\n']
  {
    assert [l][1..] == [];
  }

  lemma UnlinesTwo(l: string, m: string)
    ensures Unlines([l, m]) == (l + ['\n']) + (m + ['\n'])
  {
    UnlinesConcat([l], [m]);
    UnlinesOne(l);
    UnlinesOne(m);
    assert [l] + [m] == [l, m];
  }

  /** Rewriting line by line can be done a line at a time. */
  lemma UnlinesFlatMapSnoc(ls: seq<string>, l: string, f: string -> seq<string>)
    ensures Unlines(FlatMap(ls + [l], f)) == Unlines(FlatMap(ls, f)) + Unlines(f(l))
  {
    FlatMapConcat(ls, [l], f);
    FlatMapOne(l, f);
    UnlinesConcat(FlatMap(ls, f), f(l));
  }

  lemma {:induction false} SplitUnlines(ls: seq<string>)
    requires forall l :: l in ls ==> '\n' !in l
    ensures Split(Unlines(ls), '\n') == ls + [""]
  {
    if ls != [] {
      SplitUnlines(ls[1..]);
      CutAt(ls[0], '\n', Unlines(ls[1..]));
      assert ls + [""] == [ls[0]] + (ls[1..] + [""]);
    }
  }

  // The lines that say something

  /** Neither blank nor a comment. */
  predicate Says(line: string)
  {
    Trim(line) != [] && Trim(line)[0] != '#'
  }

  function Saying(line: string): seq<string>
  {
    if Says(line) then [Trim(line)] else []
  }

  /** What every reader looks at: trimmed lines that say something. */
  function Effective(ls: seq<string>): seq<string>
  {
    FlatMap(ls, Saying)
  }

  /** A statement: one trimmed line that says something. */
  predicate Statement(e: string)
  {
    e != [] && e[0] != '#' && Trim(e) == e && '\n' !in e
  }

  lemma CommentSaysNothing(s: string)
    requires s != [] && s[0] == '#'
    ensures Saying(s) == []
  {
    var before, after := TrimCuts(s);
    assert !IsSpace(s[0]);
    assert before == [];
    assert s == Trim(s) + after;
  }

  lemma StatementSaysItself(e: string)
    requires Statement(e)
    ensures Saying(e) == [e]
  {
  }

  lemma SayingStates(l: string)
    requires '\n' !in l
    ensures forall e :: e in Saying(l) ==> Statement(e)
  {
    TrimIdempotent(l);
    if '\n' in Trim(l) {
      TrimMembers(l, '\n');
    }
  }

  lemma EffectiveStates(ls: seq<string>)
    requires forall l :: l in ls ==> '\n' !in l
    ensures forall e :: e in Effective(ls) ==> Statement(e)
  {
    forall e | e in Effective(ls)
      ensures Statement(e)
    {
      var l := FlatMapMembers(ls, Saying, e);
      SayingStates(l);
    }
  }

  /** What a file says. */
  function Statements(text: string): (r: seq<string>)
    ensures forall e :: e in r ==> Statement(e)
  {
    SplitParts(text, '\n');
    EffectiveStates(Split(text, '\n'));
    Effective(Split(text, '\n'))
  }

  lemma SayingDropCr(l: string)
    ensures Saying(DropCr(l)) == Saying(l)
  {
    TrimDropCr(l);
  }

  /** Scanning lines and splitting at newlines see the same statements, whatever
      the line endings and whether or not the last line is terminated. */
  lemma {:induction false} ReadersAgree(text: string)
    ensures Effective(ScanLines(text)) == Statements(text)
    decreases |text|
  {
    CutParts(text, '\n');
    match Cut(text, '\n')
    case None =>
      SayingDropCr(text);
      FlatMapOne(text, Saying);
      FlatMapOne(DropCr(text), Saying);
    case Some((before, after)) =>
      SayingDropCr(before);
      ReadersAgree(after);
      FlatMapConcat([before], Split(after, '\n'), Saying);
      FlatMapConcat([DropCr(before)], ScanLines(after), Saying);
      FlatMapOne(before, Saying);
      FlatMapOne(DropCr(before), Saying);
  }

  lemma BlankSaysNothing()
    ensures Saying("") == []
  {
  }

  /** Writing lines out and reading them back keeps what they say. */
  lemma StatementsOfUnlines(ls: seq<string>)
    requires forall l :: l in ls ==> '\n' !in l
    ensures Statements(Unlines(ls)) == Effective(ls)
  {
    SplitUnlines(ls);
    FlatMapConcat(ls, [""], Saying);
    FlatMapOne("", Saying);
    BlankSaysNothing();
  }

  // Letter case

  /** strings.ToLower, as far as it decides equality with ASCII text: outside
      ASCII only the Kelvin sign and the dotted capital I become ASCII letters. */
  function LowerChar(c: char): char
  {
    if 'A' <= c <= 'Z' then c - 'A' + 'a'
    else if c == '\U{212A}' then 'k'
    else if c == '\U{130}' then 'i'
    else c
  }

  function Lower(s: string): string
  {
    seq(|s|, i requires 0 <= i < |s| => LowerChar(s[i]))
  }

  function AsciiLower(c: char): char
  {
    if 'A' <= c <= 'Z' then c - 'A' + 'a' else c
  }

  /** Each of the twenty-six capitals has its small letter, and both readings of a
      character leave every other ASCII character alone. */
  lemma LettersFold(i: nat, c: char)
    requires i < 26 && c < '\U{80}'
    ensures AsciiLower("ABCDEFGHIJKLMNOPQRSTUVWXYZ"[i]) == "abcdefghijklmnopqrstuvwxyz"[i]
    ensures c !in "ABCDEFGHIJKLMNOPQRSTUVWXYZ" ==> AsciiLower(c) == c
    ensures LowerChar(c) == AsciiLower(c)
  {
  }

  /** The text with its ASCII letters in lower case, and nothing else changed. */
  function Folded(s: string): string
  {
    seq(|s|, i requires 0 <= i < |s| => AsciiLower(s[i]))
  }

  /** A character folds to an ASCII letter: what strings.EqualFold compares, for
      letters other than k and s, which alone have folds outside ASCII. */
  predicate Folds(c: char, lower: char)
  {
    AsciiLower(c) == lower
  }

  /** Bytes of a character in UTF-8. */
  function Utf8Width(c: char): nat
  {
    if c < '\U{80}' then 1 else if c < '\U{800}' then 2 else if c < '\U{10000}' then 3 else 4
  }

  /** The bytes themselves (section 3 of RFC 3629). */
  function Utf8(c: char): seq<nat>
  {
    var n := c as int;
    if n < 0x80 then [n]
    else if n < 0x800 then [0xC0 + n / 64, 0x80 + n % 64]
    else if n < 0x1_0000 then [0xE0 + n / 4096, 0x80 + n / 64 % 64, 0x80 + n % 64]
    else [0xF0 + n / 262144, 0x80 + n / 4096 % 64, 0x80 + n / 64 % 64, 0x80 + n % 64]
  }

  function Utf8Bytes(s: string): seq<nat>
  {
    FlatMap(s, Utf8)
  }

  /** The length of a text is how many bytes it takes. */
  lemma {:induction false} Utf8LengthIsBytes(s: string)
    ensures Utf8Length(s) == |Utf8Bytes(s)|
  {
    if s != [] {
      Utf8LengthIsBytes(s[1..]);
    }
  }

  function Utf8Length(s: string): nat
  {
    if s == [] then 0 else Utf8Width(s[0]) + Utf8Length(s[1..])
  }

  /** strings.Contains */
  predicate Holds(text: string, part: string)
  {
    exists i | 0 <= i <= |text| :: part <= text[i..]
  }
}
