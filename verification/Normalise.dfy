/** Rewriting a provider's WireGuard file into one the daemon can use. */
module Normalise {
  import opened Prelude
  import opened Text

  const SizeLimit: nat := 64 * 1024

  const TableOff := "Table = off"
  const KeepaliveKey := "persistentkeepalive"
  const Keepalive25 := "PersistentKeepalive = 25"

  /** The lower-cased key of a "Key = value" line; empty for blanks, comments,
      section headers and anything else. */
  function SettingKey(line: string): string
  {
    var t := Trim(line);
    if t == "" || t[0] == '#' || t[0] == '[' then ""
    else
      match Cut(t, '=')
      case None => ""
      case Some((k, _)) => Lower(Trim(k))
  }

  /** Some line sets this key. */
  predicate Sets(ls: seq<string>, key: string)
  {
    ls != [] && (Sets(ls[..|ls| - 1], key) || SettingKey(ls[|ls| - 1]) == key)
  }

  /** The line is exactly [Interface], in any case. */
  predicate IsHeader(line: string)
  {
    var t := Trim(line);
    && |t| == 11 && t[0] == '[' && Folds(t[1], 'i') && Folds(t[2], 'n') && Folds(t[3], 't') && Folds(t[4], 'e') && Folds(t[5], 'r')
    && Folds(t[6], 'f') && Folds(t[7], 'a') && Folds(t[8], 'c') && Folds(t[9], 'e') && t[10] == ']'
  }

  /** It is that word, in the file's own letters. */
  lemma HeaderByWord(line: string)
    ensures IsHeader(line) <==> Folded(Trim(line)) == "[interface]"
  {
    var t, w := Trim(line), "[interface]";
    assert |w| == 11 && w[0] == '[' && w[1] == 'i' && w[2] == 'n' && w[3] == 't' && w[4] == 'e' && w[5] == 'r'
      && w[6] == 'f' && w[7] == 'a' && w[8] == 'c' && w[9] == 'e' && w[10] == ']';
    hide Trim;
    if IsHeader(line) {
      assert forall i :: 0 <= i < 11 ==> AsciiLower(t[i]) == w[i];
    }
    if Folded(t) == w {
      assert |Folded(t)| == |t|;
      assert forall i :: 0 <= i < 11 ==> Folded(t)[i] == AsciiLower(t[i]) == w[i];
    }
  }

  // The gate before anything is written

  datatype Rejection =
    | Empty | TooLarge | Binary | NoInterface | NoPeer | NoPrivateKey | NoPublicKey | NoAddress

  /** Why a file is refused, the first reason first. */
  function Fault(src: string): Option<Rejection>
  {
    if src == "" then Some(Empty)
    else if Utf8Length(src) > SizeLimit then Some(TooLarge)
    else if '\0' in src then Some(Binary)
    else if !Holds(Lower(src), "[interface]") then Some(NoInterface)
    else if !Holds(Lower(src), "[peer]") then Some(NoPeer)
    else if !Sets(ScanLines(src), "privatekey") then Some(NoPrivateKey)
    else if !Sets(ScanLines(src), "publickey") then Some(NoPublicKey)
    else if !Sets(ScanLines(src), "address") then Some(NoAddress)
    else None
  }

  /** Some line of the file sets this key. */
  predicate SomeLineSets(src: string, key: string)
  {
    exists l | l in ScanLines(src) :: SettingKey(l) == key
  }

  /** What is wrong with a file, reason by reason. */
  predicate Applies(why: Rejection, src: string)
  {
    match why
    case Empty => src == ""
    case TooLarge => Utf8Length(src) > 65536
    case Binary => '\0' in src
    case NoInterface => !Holds(Lower(src), "[interface]")
    case NoPeer => !Holds(Lower(src), "[peer]")
    case NoPrivateKey => !SomeLineSets(src, "privatekey")
    case NoPublicKey => !SomeLineSets(src, "publickey")
    case NoAddress => !SomeLineSets(src, "address")
  }

  /** The order in which the reasons are looked for. */
  function Rank(why: Rejection): nat
  {
    match why
    case Empty => 0
    case TooLarge => 1
    case Binary => 2
    case NoInterface => 3
    case NoPeer => 4
    case NoPrivateKey => 5
    case NoPublicKey => 6
    case NoAddress => 7
  }

  /** Nothing is wrong with it: it is not empty, at most 64 KB, without zero bytes,
      names both sections, and has lines for both keys and an address. */
  predicate Acceptable(src: string)
  {
    && src != "" && Utf8Length(src) <= 65536 && '\0' !in src
    && Holds(Lower(src), "[interface]") && Holds(Lower(src), "[peer]")
    && SomeLineSets(src, "privatekey") && SomeLineSets(src, "publickey") && SomeLineSets(src, "address")
  }

  /** The first thing wrong with it. */
  predicate FirstWrong(why: Rejection, src: string)
  {
    Applies(why, src) && forall other :: Rank(other) < Rank(why) ==> !Applies(other, src)
  }

  lemma SetsBySomeLine(src: string, key: string)
    ensures Sets(ScanLines(src), key) <==> SomeLineSets(src, key)
  {
    SetsMeans(ScanLines(src), key);
    hide SettingKey, ScanLines, Sets;
  }

  /** A file is refused for the first thing wrong with it, and only then. */
  lemma FaultExactly(src: string)
    ensures Fault(src) == None <==> Acceptable(src)
    ensures Fault(src).Some? ==> FirstWrong(Fault(src).value, src)
  {
    SetsBySomeLine(src, "privatekey");
    SetsBySomeLine(src, "publickey");
    SetsBySomeLine(src, "address");
    hide Utf8Length, Holds, Lower, Sets, SomeLineSets, ScanLines;
    var why := Fault(src);
    assert why.Some? ==> Applies(why.value, src);
  }

  lemma SetsSnoc(ls: seq<string>, l: string, key: string)
    ensures Sets(ls + [l], key) <==> Sets(ls, key) || SettingKey(l) == key
  {
    hide SettingKey;
    assert (ls + [l])[..|ls|] == ls;
  }

  lemma {:induction false} SetsMeans(ls: seq<string>, key: string)
    ensures Sets(ls, key) <==> exists l :: l in ls && SettingKey(l) == key
  {
    hide SettingKey;
    if ls != [] {
      SetsMeans(ls[..|ls| - 1], key);
      assert ls == ls[..|ls| - 1] + [ls[|ls| - 1]];
    }
  }

  method ValidateWGConfig(src: string) returns (r: Option<Rejection>)
    ensures r == Fault(src)
    ensures r == None <==> Acceptable(src)
    ensures r.Some? ==> FirstWrong(r.value, src)
  {
    hide SettingKey, Acceptable, FirstWrong, Utf8Length, Holds, Lower;
    FaultExactly(src);
    if src == "" {
      return Some(Empty);
    }
    if Utf8Length(src) > SizeLimit {
      return Some(TooLarge);
    }
    if '\0' in src {
      return Some(Binary);
    }
    var lower := Lower(src);
    if !Holds(lower, "[interface]") {
      return Some(NoInterface);
    }
    if !Holds(lower, "[peer]") {
      return Some(NoPeer);
    }
    var hasKey, hasPeerKey, hasAddress := false, false, false;
    var lines := ScanLines(src);
    for i := 0 to |lines|
      invariant hasKey <==> Sets(lines[..i], "privatekey")
      invariant hasPeerKey <==> Sets(lines[..i], "publickey")
      invariant hasAddress <==> Sets(lines[..i], "address")
    {
      assert lines[..i + 1] == lines[..i] + [lines[i]];
      SetsSnoc(lines[..i], lines[i], "privatekey");
      SetsSnoc(lines[..i], lines[i], "publickey");
      SetsSnoc(lines[..i], lines[i], "address");
      match SettingKey(lines[i]) {
        case "privatekey" => hasKey := true;
        case "publickey" => hasPeerKey := true;
        case "address" => hasAddress := true;
        case _ =>
      }
    }
    assert lines[..|lines|] == lines;
    if !hasKey {
      return Some(NoPrivateKey);
    }
    if !hasPeerKey {
      return Some(NoPublicKey);
    }
    if !hasAddress {
      return Some(NoAddress);
    }
    return None;
  }

  // The rewrite

  /** A comment line, or the beginning of one. */
  type Comment = s: string | s != [] && s[0] == '#' && '\n' !in s && '\0' !in s witness "#"

  /** The comments the rewriter leaves in the file; nothing depends on what they say. */
  datatype Wording = Wording(preamble: seq<Comment>, removed: Comment, tail: seq<Comment>)

  /** What becomes of one line. */
  function Rewrite(line: string, w: Wording): seq<string>
  {
    if SettingKey(line) == "dns" || SettingKey(line) == "table" then [w.removed + Trim(line)]
    else if IsHeader(line) then [line, TableOff]
    else [line]
  }

  function Rewriter(w: Wording): string -> seq<string>
  {
    l => Rewrite(l, w)
  }

  function Rewritten(ls: seq<string>, w: Wording): seq<string>
  {
    FlatMap(ls, Rewriter(w))
  }

  function KeepaliveLines(w: Wording): seq<string>
  {
    [""] + w.tail + [Keepalive25]
  }

  function Tail(ls: seq<string>, w: Wording): seq<string>
  {
    if Sets(ls, KeepaliveKey) then [] else KeepaliveLines(w)
  }

  function NormalisedLines(src: string, w: Wording): seq<string>
  {
    w.preamble + Rewritten(ScanLines(src), w) + Tail(ScanLines(src), w)
  }

  /** The file that replaces src. */
  function Normalised(src: string, w: Wording): string
  {
    Unlines(NormalisedLines(src, w))
  }

  predicate KeepsAlive(line: string)
  {
    SettingKey(line) == KeepaliveKey
  }

  /** What is written for one line, and whether it sets the keepalive. */
  method RewriteLine(line: string, w: Wording) returns (out: string, keepalive: bool)
    ensures out == Unlines(Rewriter(w)(line))
    ensures keepalive == KeepsAlive(line)
  {
    var key := SettingKey(line);
    keepalive := key == KeepaliveKey;
    if key == "dns" || key == "table" {
      UnlinesOne(w.removed + Trim(line));
      return w.removed + Trim(line) + ['\n'], keepalive;
    }
    out := line + ['\n'];
    UnlinesOne(line);
    if IsHeader(line) {
      UnlinesTwo(line, TableOff);
      out := out + (TableOff + ['\n']);
    }
  }

  method RewriteLines(lines: seq<string>, w: Wording) returns (out: string, hasKeepalive: bool)
    ensures out == Unlines(Rewritten(lines, w))
    ensures hasKeepalive <==> Sets(lines, KeepaliveKey)
  {
    hide SettingKey, Rewrite;
    out := "";
    hasKeepalive := false;
    for i := 0 to |lines|
      invariant out == Unlines(Rewritten(lines[..i], w))
      invariant hasKeepalive <==> Sets(lines[..i], KeepaliveKey)
    {
      assert lines[..i + 1] == lines[..i] + [lines[i]];
      UnlinesFlatMapSnoc(lines[..i], lines[i], Rewriter(w));
      SetsSnoc(lines[..i], lines[i], KeepaliveKey);
      var text, keepalive := RewriteLine(lines[i], w);
      out := out + text;
      hasKeepalive := hasKeepalive || keepalive;
    }
    assert lines[..|lines|] == lines;
  }

  lemma NormalisedParts(src: string, w: Wording)
    ensures Normalised(src, w) == Unlines(w.preamble) + Unlines(Rewritten(ScanLines(src), w))
                                  + if Sets(ScanLines(src), KeepaliveKey) then "" else Unlines(KeepaliveLines(w))
  {
    var lines := ScanLines(src);
    UnlinesConcat(w.preamble + Rewritten(lines, w), Tail(lines, w));
    UnlinesConcat(w.preamble, Rewritten(lines, w));
  }

  /** Checks the file, then rewrites it: the provider's DNS and Table lines become
      comments, routing is turned off under the interface header, and a keepalive
      is added at the end when the file has none. */
  method NormaliseUpload(src: string, w: Wording) returns (r: Result<string, Rejection>)
    ensures Fault(src).Some? ==> r == Err(Fault(src).value)
    ensures Fault(src) == None ==> r == Ok(Normalised(src, w))
    ensures r.Ok? <==> Acceptable(src)
    ensures r.Err? ==> FirstWrong(r.error, src)
  {
    var fault := ValidateWGConfig(src);
    if fault.Some? {
      return Err(fault.value);
    }
    hide SettingKey, Rewrite, Acceptable;
    NormalisedParts(src, w);
    var body, hasKeepalive := RewriteLines(ScanLines(src), w);
    return Ok(Unlines(w.preamble) + body + if hasKeepalive then "" else Unlines(KeepaliveLines(w)));
  }
}
