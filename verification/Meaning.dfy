/** What rewriting does to what a file says. */
module Meaning {
  import opened Prelude
  import opened Text
  import opened Normalise

  /** What becomes of one statement. */
  function Kept(e: string): seq<string>
  {
    if SettingKey(e) == "dns" || SettingKey(e) == "table" then []
    else if IsHeader(e) then [e, TableOff]
    else [e]
  }

  function KeptAll(es: seq<string>): seq<string>
  {
    FlatMap(es, Kept)
  }

  /** What a file says once it is normalised. */
  function NormalForm(es: seq<string>): seq<string>
  {
    KeptAll(es) + if Sets(es, KeepaliveKey) then [] else [Keepalive25]
  }

  lemma KeyOfTrim(l: string)
    ensures SettingKey(Trim(l)) == SettingKey(l) && (IsHeader(Trim(l)) <==> IsHeader(l))
  {
    TrimIdempotent(l);
  }

  lemma KeyMeansSays(l: string)
    requires SettingKey(l) != ""
    ensures Saying(l) == [Trim(l)]
  {
  }

  lemma TrimSpaces(k: string)
    requires Trimmed(k) && k != []
    ensures Trim(k + [' ']) == k && Trim([' '] + k) == k
  {
    assert (k + [' '])[..|k|] == k;
    assert TrimRight(k) == k && TrimRight(k + [' ']) == k && TrimLeft(k) == k;
    assert ([' '] + k)[1..] == k;
    assert TrimRight([' '] + k) == [' '] + k && TrimLeft([' '] + k) == k;
  }

  /** A setting written the usual way. */
  function Setting(k: string, v: string): string
  {
    (k + [' ']) + ['='] + ([' '] + v)
  }

  /** What can be a key. */
  predicate KeyText(k: string)
  {
    k != [] && Trimmed(k) && '=' !in k && '\n' !in k && k[0] != '#' && k[0] != '['
  }

  lemma SettingParts(k: string, v: string)
    requires KeyText(k) && v != [] && Trimmed(v) && '\n' !in v
    ensures Statement(Setting(k, v)) && !IsHeader(Setting(k, v))
    ensures Cut(Setting(k, v), '=') == Some((k + [' '], [' '] + v)) && Trim(k + [' ']) == k && Trim([' '] + v) == v
    ensures SettingKey(Setting(k, v)) == Lower(k)
  {
    var e := Setting(k, v);
    CutAt(k + [' '], '=', [' '] + v);
    TrimSpaces(k);
    TrimSpaces(v);
    assert e[0] == k[0] && e[|e| - 1] == v[|v| - 1];
    TrimTrimmed(e);
  }

  lemma TableOffText()
    ensures TableOff == Setting("Table", "off") && KeyText("Table") && Trimmed("off") && '\n' !in "off"
    ensures Lower("Table") == "table"
  {
  }

  lemma TableOffParts()
    ensures Statement(TableOff) && SettingKey(TableOff) == "table" && !IsHeader(TableOff)
  {
    hide *;
    TableOffText();
    SettingParts("Table", "off");
  }

  lemma KeepaliveText()
    ensures Keepalive25 == Setting("PersistentKeepalive", "25") && KeyText("PersistentKeepalive") && Trimmed("25") && '\n' !in "25"
  {
  }

  lemma KeepaliveLower()
    ensures Lower("PersistentKeepalive") == KeepaliveKey
  {
  }

  lemma KeepaliveParts()
    ensures Statement(Keepalive25) && SettingKey(Keepalive25) == KeepaliveKey && !IsHeader(Keepalive25)
  {
    hide *;
    KeepaliveText();
    KeepaliveLower();
    SettingParts("PersistentKeepalive", "25");
  }

  /** Rewriting a line and reading it is reading it and rewriting what it says. */
  lemma RewriteSays(l: string, w: Wording)
    requires '\n' !in l
    ensures Effective(Rewrite(l, w)) == FlatMap(Saying(l), Kept)
  {
    hide Says, SettingKey, IsHeader, Trim;
    KeyOfTrim(l);
    if SettingKey(l) == "dns" || SettingKey(l) == "table" {
      KeyMeansSays(l);
      CommentSaysNothing(w.removed + Trim(l));
      FlatMapOne(w.removed + Trim(l), Saying);
      FlatMapOne(Trim(l), Kept);
    } else if IsHeader(l) {
      HeaderSays(l);
      TableOffParts();
      StatementSaysItself(TableOff);
      FlatMapConcat([l], [TableOff], Saying);
      FlatMapOne(l, Saying);
      FlatMapOne(TableOff, Saying);
      assert [l] + [TableOff] == [l, TableOff];
      FlatMapOne(Trim(l), Kept);
    } else {
      FlatMapOne(l, Saying);
      if Saying(l) != [] {
        SayingIsTrim(l);
        FlatMapOne(Trim(l), Kept);
      }
    }
  }

  lemma SayingIsTrim(l: string)
    ensures Saying(l) == [] || Saying(l) == [Trim(l)]
  {
  }

  lemma HeaderSays(l: string)
    requires IsHeader(l)
    ensures Saying(l) == [Trim(l)]
  {
  }

  lemma RewriteStaysOneLine(l: string, w: Wording)
    requires '\n' !in l
    ensures forall x :: x in Rewrite(l, w) ==> '\n' !in x
  {
    hide SettingKey, IsHeader, Trim, Statement;
    TableOffText();
    if '\n' in Trim(l) {
      TrimMembers(l, '\n');
    }
  }

  lemma TailStaysLines(ls: seq<string>, w: Wording)
    ensures forall x :: x in Tail(ls, w) ==> '\n' !in x
  {
    hide Sets;
    KeepaliveText();
  }

  lemma NoNewlines(src: string, w: Wording)
    ensures forall l :: l in NormalisedLines(src, w) ==> '\n' !in l
  {
    hide Rewrite, Tail, ScanLines;
    var ls := ScanLines(src);
    ScanParts(src);
    TailStaysLines(ls, w);
    forall l | l in Rewritten(ls, w)
      ensures '\n' !in l
    {
      var x := FlatMapMembers(ls, Rewriter(w), l);
      RewriteStaysOneLine(x, w);
    }
  }

  lemma CommentsSayNothing(cs: seq<Comment>)
    ensures Effective(cs) == []
  {
    forall c | c in cs
      ensures Saying(c) == []
    {
      CommentSaysNothing(c);
    }
    FlatMapNone<string, string>(cs, Saying);
  }

  lemma {:induction false} SetsSays(ls: seq<string>, key: string)
    requires key != ""
    ensures Sets(Effective(ls), key) <==> Sets(ls, key)
  {
    SetsMeans(ls, key);
    SetsMeans(Effective(ls), key);
    hide *;
    if l :| l in ls && SettingKey(l) == key {
      KeyMeansSays(l);
      KeyOfTrim(l);
      EffectiveKeeps(ls, l, Trim(l));
    }
    if e :| e in Effective(ls) && SettingKey(e) == key {
      var l := EffectiveFrom(ls, e);
      KeyOfTrim(l);
    }
  }

  lemma EffectiveKeeps(ls: seq<string>, l: string, e: string)
    requires l in ls && Saying(l) == [e]
    ensures e in Effective(ls)
  {
    FlatMapKeeps(ls, Saying, l, e);
  }

  lemma EffectiveFrom(ls: seq<string>, e: string) returns (l: string)
    requires e in Effective(ls)
    ensures l in ls && e == Trim(l)
  {
    l := FlatMapMembers(ls, Saying, e);
    SayingIsTrim(l);
  }

  lemma TailSays(ls: seq<string>, w: Wording)
    ensures Effective(Tail(ls, w)) == if Sets(ls, KeepaliveKey) then [] else [Keepalive25]
  {
    hide SettingKey, Says, Trim;
    BlankSaysNothing();
    FlatMapOne("", Saying);
    CommentsSayNothing(w.tail);
    KeepaliveParts();
    StatementSaysItself(Keepalive25);
    FlatMapOne(Keepalive25, Saying);
    FlatMapConcat([""] + w.tail, [Keepalive25], Saying);
    FlatMapConcat([""], w.tail, Saying);
  }

  lemma RewrittenSays(ls: seq<string>, w: Wording)
    requires forall l :: l in ls ==> '\n' !in l
    ensures Effective(Rewritten(ls, w)) == KeptAll(Effective(ls))
  {
    hide Rewrite, Saying, Kept;
    forall l | l in ls
      ensures FlatMap(Rewriter(w)(l), Saying) == FlatMap(Saying(l), Kept)
    {
      RewriteSays(l, w);
    }
    FlatMapSquare(ls, Rewriter(w), Saying, Saying, Kept);
  }

  /** A normalised file says what the provider's file says, without its DNS and
      Table lines, with routing turned off right under the interface header, and
      with a keepalive at the end when there was none. */
  lemma NormalisedSays(src: string, w: Wording)
    ensures Statements(Normalised(src, w)) == NormalForm(Statements(src))
  {
    hide Rewritten, Tail, Saying, ScanLines, Split, Sets, KeptAll, Unlines, FlatMap;
    var ls := ScanLines(src);
    ScanParts(src);
    ReadersAgree(src);
    NoNewlines(src, w);
    StatementsOfUnlines(NormalisedLines(src, w));
    RewrittenSays(ls, w);
    CommentsSayNothing(w.preamble);
    TailSays(ls, w);
    SetsSays(ls, KeepaliveKey);
    FlatMapConcat(w.preamble + Rewritten(ls, w), Tail(ls, w), Saying);
    FlatMapConcat(w.preamble, Rewritten(ls, w), Saying);
  }

  /** Nothing of the provider's is thrown away: every line is still there, or is left
      behind the note that says it was removed. */
  lemma NothingIsLost(src: string, w: Wording, l: string)
    requires l in ScanLines(src)
    ensures if SettingKey(l) in {"dns", "table"} then w.removed + Trim(l) in NormalisedLines(src, w)
            else l in NormalisedLines(src, w)
  {
    hide SettingKey, IsHeader, Trim, ScanLines, Tail;
    var x := if SettingKey(l) in {"dns", "table"} then w.removed + Trim(l) else l;
    assert x in Rewrite(l, w);
    FlatMapKeeps(ScanLines(src), Rewriter(w), l, x);
  }
}
