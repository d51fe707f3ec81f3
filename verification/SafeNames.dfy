/** The one naming rule an uploaded file gets to influence: its name becomes a
    path and an interface name. */
module SafeNames {
  import opened Prelude
  import opened Text

  const MaxIfaceName: nat := 15

  const Suffix := ".conf"

  /** strings.HasSuffix(name, ".conf") */
  predicate IsConf(name: string)
  {
    |name| >= 5 && name[|name| - 5..] == Suffix
  }

  function TrimConf(name: string): string
  {
    if IsConf(name) then name[..|name| - 5] else name
  }

  function StripSlashes(path: string): string
  {
    if path != [] && path[|path| - 1] == '/' then StripSlashes(path[..|path| - 1]) else path
  }

  function AfterLastSlash(path: string): string
  {
    if path == [] || path[|path| - 1] == '/' then [] else AfterLastSlash(path[..|path| - 1]) + [path[|path| - 1]]
  }

  /** filepath.Base */
  function Base(path: string): string
  {
    if path == [] then "."
    else if StripSlashes(path) == [] then "/"
    else AfterLastSlash(StripSlashes(path))
  }

  function Dashed(c: char): char
  {
    if c == ' ' || c == '.' then '-' else c
  }

  function Dash(s: string): string
  {
    seq(|s|, i requires 0 <= i < |s| => Dashed(s[i]))
  }

  predicate SafeChar(c: char)
  {
    'a' <= c <= 'z' || '0' <= c <= '9' || c == '_' || c == '-'
  }

  /** Starts with a letter or digit, then letters, digits, dashes and underscores. */
  predicate SafeText(s: string)
  {
    s != [] && (forall c :: c in s ==> SafeChar(c)) && s[0] != '_' && s[0] != '-'
  }

  datatype NameError = NoName | BadCharacters | TooLong(length: nat)

  /** The stem the rule arrives at before judging it. */
  function Stem(uploaded: string): string
  {
    Dash(Lower(Trim(TrimConf(Base(uploaded)))))
  }

  function SafeName(uploaded: string): Result<string, NameError>
  {
    var name := Stem(uploaded);
    if name == "" || name == "." || name == ".." then Err(NoName)
    else if !SafeText(name) then Err(BadCharacters)
    else if |name| > MaxIfaceName then Err(TooLong(|name|))
    else Ok(name + Suffix)
  }

  lemma {:induction false} PlainBase(s: string)
    requires '/' !in s
    ensures AfterLastSlash(s) == s
    decreases |s|
  {
    if s != [] {
      assert s == s[..|s| - 1] + [s[|s| - 1]];
      PlainBase(s[..|s| - 1]);
    }
  }

  lemma SafeCharStays(c: char)
    requires SafeChar(c)
    ensures Dashed(LowerChar(c)) == c && !IsSpace(c) && c != '/'
  {
  }

  lemma SafeTextStays(s: string)
    requires SafeText(s)
    ensures Dash(Lower(Trim(s))) == s && '/' !in s
  {
    forall i | 0 <= i < |s|
      ensures Dashed(LowerChar(s[i])) == s[i] && !IsSpace(s[i]) && s[i] != '/'
    {
      assert s[i] in s;
      SafeCharStays(s[i]);
    }
    TrimTrimmed(s);
    hide Trim, IsSpace, LowerChar;
  }

  lemma ConfOff(stem: string)
    ensures IsConf(stem + Suffix) && TrimConf(stem + Suffix) == stem
  {
    assert (stem + Suffix)[|stem|..] == Suffix;
    assert (stem + Suffix)[..|stem|] == stem;
  }

  lemma SuffixIsPlain(stem: string)
    requires '/' !in stem && stem != []
    ensures Base(stem + Suffix) == stem + Suffix
  {
    assert '/' !in Suffix;
    var f := stem + Suffix;
    assert f[|f| - 1] == 'f';
    PlainBase(f);
  }

  /** What passes the rule is a fixed point of it: a stem of one to fifteen safe
      characters, and the suffix. */
  lemma SafeNameIsStable(uploaded: string, name: string)
    requires SafeName(uploaded) == Ok(name)
    ensures SafeName(name) == Ok(name) && IsConf(name) && '/' !in name
    ensures var stem := TrimConf(name); SafeText(stem) && |stem| <= MaxIfaceName && name == stem + Suffix
  {
    var stem := Stem(uploaded);
    assert name == stem + Suffix;
    hide Stem;
    ConfOff(stem);
    SafeTextStays(stem);
    StemIsStable(stem);
    assert '/' !in Suffix;
  }

  lemma StemIsStable(stem: string)
    requires SafeText(stem)
    ensures Stem(stem + Suffix) == stem
  {
    SafeTextStays(stem);
    hide Trim, Lower, Dash, SafeText;
    SuffixIsPlain(stem);
    ConfOff(stem);
  }

  // Exactly which names are accepted, and what becomes of them

  /** What becomes of one character. */
  function SafeCharOf(c: char): char
  {
    if c == ' ' || c == '.' then '-'
    else if 'A' <= c <= 'Z' then c - 'A' + 'a'
    else if c == '\U{212A}' then 'k'
    else if c == '\U{130}' then 'i'
    else c
  }

  function SafeTextOf(s: string): string
  {
    seq(|s|, i requires 0 <= i < |s| => SafeCharOf(s[i]))
  }

  lemma DashedLower(s: string)
    ensures Dash(Lower(s)) == SafeTextOf(s)
  {
    hide Trim;
  }

  lemma {:induction false} LastPart(dir: string, s: string)
    requires '/' !in s && (dir == "" || dir[|dir| - 1] == '/')
    ensures AfterLastSlash(dir + s) == s
    decreases |s|
  {
    if s == [] {
      assert dir + s == dir;
    } else {
      var n := |s| - 1;
      assert s == s[..n] + [s[n]] && s[n] in s;
      assert (dir + s)[..|dir + s| - 1] == dir + s[..n];
      LastPart(dir, s[..n]);
    }
  }

  lemma BaseOfPath(dir: string, s: string)
    requires '/' !in s && s != "" && (dir == "" || dir[|dir| - 1] == '/')
    ensures Base(dir + s) == s
  {
    assert s[|s| - 1] in s && (dir + s)[|dir + s| - 1] == s[|s| - 1];
    LastPart(dir, s);
  }

  /** Lower-case letters, digits, dashes and underscores, starting with a letter or digit. */
  predicate IsSafe(m: string)
  {
    && m != ""
    && (forall c :: c in m ==> 'a' <= c <= 'z' || '0' <= c <= '9' || c == '-' || c == '_')
    && m[0] != '-' && m[0] != '_'
  }

  /** A name in any directory, with or without the suffix, is judged by its stem: the
      directory does not count, blanks around the stem go, blanks and dots inside
      become dashes and letters lower case; and what is then one to fifteen safe
      characters is accepted under exactly that name. */
  lemma SafeNameExactly(dir: string, s: string)
    requires '/' !in s && s != "" && (dir == "" || dir[|dir| - 1] == '/')
    ensures var stem := if |s| >= 5 && s[|s| - 5..] == ".conf" then s[..|s| - 5] else s;
      var m := SafeTextOf(Trim(stem));
      SafeName(dir + s) ==
        if m == "" then Err(NoName)
        else if !IsSafe(m) then Err(BadCharacters)
        else if |m| > 15 then Err(TooLong(|m|))
        else Ok(m + ".conf")
  {
    BaseOfPath(dir, s);
    var stem := TrimConf(s);
    DashedLower(Trim(stem));
    hide Trim, Base, Dash, Lower;
    assert Stem(dir + s) == SafeTextOf(Trim(stem));
    NoDots(Trim(stem));
  }

  /** No dot survives, so the two special names cannot come about. */
  lemma NoDots(s: string)
    ensures SafeTextOf(s) != "." && SafeTextOf(s) != ".."
  {
    if s != "" {
      assert SafeTextOf(s)[0] == SafeCharOf(s[0]) != '.';
    }
  }
}
