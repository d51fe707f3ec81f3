/** The upload path normalises a file twice: once when it arrives and once more
    when it is taken up from the tunnel directory. */
module Twice {
  import opened Prelude
  import opened Text
  import opened Normalise
  import opened Meaning

  // The second time changes nothing

  lemma KeptTwice(e: string)
    ensures FlatMap(Kept(e), Kept) == Kept(e)
  {
    hide SettingKey, IsHeader, Statement;
    TableOffParts();
    FlatMapOne(e, Kept);
    FlatMapOne(TableOff, Kept);
    FlatMapConcat([e], [TableOff], Kept);
    assert [e] + [TableOff] == [e, TableOff];
  }

  lemma KeptAllTwice(es: seq<string>)
    ensures KeptAll(KeptAll(es)) == KeptAll(es)
  {
    hide Kept;
    forall e | e in es
      ensures FlatMap(Kept(e), Kept) == Kept(e)
    {
      KeptTwice(e);
    }
    FlatMapIdempotent(es, Kept);
  }

  /** Keys other than DNS and Table are set afterwards exactly if they were before. */
  lemma KeptSets(es: seq<string>, key: string)
    requires key != "dns" && key != "table"
    ensures Sets(KeptAll(es), key) <==> Sets(es, key)
  {
    hide SettingKey, IsHeader, Statement;
    SetsMeans(es, key);
    SetsMeans(KeptAll(es), key);
    hide Sets;
    TableOffParts();
    if e :| e in es && SettingKey(e) == key {
      FlatMapKeeps(es, Kept, e, e);
    }
    if e :| e in KeptAll(es) && SettingKey(e) == key {
      var x := FlatMapMembers(es, Kept, e);
    }
  }

  lemma NormalFormTwice(es: seq<string>)
    ensures NormalForm(NormalForm(es)) == NormalForm(es)
  {
    KeptAllTwice(es);
    KeepaliveIsNeither();
    KeptSets(es, KeepaliveKey);
    if !Sets(es, KeepaliveKey) {
      NormalFormAdds(es);
    } else {
      assert KeptAll(es) + [] == KeptAll(es);
    }
  }

  lemma KeepaliveIsNeither()
    ensures KeepaliveKey != "dns" && KeepaliveKey != "table"
  {
  }

  lemma NormalFormAdds(es: seq<string>)
    requires !Sets(es, KeepaliveKey)
    ensures NormalForm(NormalForm(es)) == NormalForm(es)
  {
    hide Sets, Kept, SettingKey;
    KeepaliveKept();
    KeepaliveSets(KeptAll(es));
    KeptAllTwice(es);
    FlatMapOne(Keepalive25, Kept);
    FlatMapConcat(KeptAll(es), [Keepalive25], Kept);
    assert NormalForm(es) + [] == NormalForm(es);
  }

  lemma KeepaliveKept()
    ensures Kept(Keepalive25) == [Keepalive25]
  {
    hide SettingKey, IsHeader, Statement;
    KeepaliveParts();
  }

  lemma KeepaliveSets(es: seq<string>)
    ensures Sets(es + [Keepalive25], KeepaliveKey)
  {
    hide SettingKey, IsHeader, Statement;
    KeepaliveParts();
    SetsSnoc(es, Keepalive25, KeepaliveKey);
  }

  /** Normalising twice says the same as normalising once. */
  lemma NormalisingTwice(src: string, w: Wording)
    ensures Statements(Normalised(Normalised(src, w), w)) == Statements(Normalised(src, w))
  {
    hide Normalised, Statements, NormalForm;
    NormalisedSays(src, w);
    NormalisedSays(Normalised(src, w), w);
    NormalFormTwice(Statements(src));
  }

  // What is accepted once is accepted again, if it still fits

  /** A section name, or anything else that starts and ends visibly on one line. */
  predicate Marker(part: string)
  {
    part != [] && '\n' !in part && '\r' !in part && !IsSpace(part[0]) && !IsSpace(part[|part| - 1])
  }

  lemma HoldsAt(text: string, part: string, i: nat)
    requires i + |part| <= |text| && text[i..i + |part|] == part
    ensures Holds(text, part)
  {
    assert part <= text[i..];
  }

  lemma HoldsWhere(text: string, part: string) returns (i: nat)
    requires Holds(text, part)
    ensures i + |part| <= |text| && text[i..i + |part|] == part
  {
    i :| 0 <= i <= |text| && part <= text[i..];
    assert text[i..][..|part|] == text[i..i + |part|];
  }

  lemma HoldsAround(before: string, text: string, after: string, part: string)
    requires Holds(text, part)
    ensures Holds(before + text + after, part)
  {
    var i := HoldsWhere(text, part);
    assert (before + text + after)[|before| + i..|before| + i + |part|] == text[i..i + |part|];
    HoldsAt(before + text + after, part, |before| + i);
  }

  /** An occurrence cannot straddle a character it does not hold. */
  lemma HoldsApart(a: string, c: char, b: string, part: string)
    requires part != [] && c !in part && Holds(a + [c] + b, part)
    ensures Holds(a, part) || Holds(b, part)
  {
    var text := a + [c] + b;
    var i := HoldsWhere(text, part);
    assert text[|a|] == c && forall k :: 0 <= k < |part| ==> part[k] == text[i..i + |part|][k] == text[i + k];
    if i + |part| <= |a| {
      assert a[i..i + |part|] == text[i..i + |part|];
      HoldsAt(a, part, i);
    } else if i > |a| {
      var j := i - |a| - 1;
      assert b[j..j + |part|] == text[i..i + |part|];
      HoldsAt(b, part, j);
    } else {
      assert false;
    }
  }

  lemma LowerConcat(a: string, b: string)
    ensures Lower(a + b) == Lower(a) + Lower(b)
  {
  }

  lemma LowerCut(a: string, c: char, b: string)
    requires LowerChar(c) == c
    ensures Lower(a + [c] + b) == Lower(a) + [c] + Lower(b)
  {
  }

  lemma DropCrHolds(l: string, part: string)
    requires Marker(part) && Holds(Lower(l), part)
    ensures Holds(Lower(DropCr(l)), part)
  {
    if l != [] && l[|l| - 1] == '\r' {
      var l' := l[..|l| - 1];
      assert l == l' + ['\r'] + [];
      LowerCut(l', '\r', []);
      HoldsApart(Lower(l'), '\r', Lower([]), part);
      NothingHolds(part);
    }
  }

  lemma NothingHolds(part: string)
    requires part != []
    ensures !Holds(Lower([]), part)
  {
    if Holds(Lower([]), part) {
      var i := HoldsWhere(Lower([]), part);
    }
  }

  /** An occurrence lies within one line. */
  lemma {:induction false} LineHolds(text: string, part: string) returns (l: string)
    requires Marker(part) && Holds(Lower(text), part)
    ensures l in ScanLines(text) && Holds(Lower(l), part)
    decreases |text|
  {
    hide Marker, Holds, Lower, DropCr;
    if text == [] {
      NothingIsMarked(text, part);
      l := text;
      return;
    }
    CutParts(text, '\n');
    match Cut(text, '\n')
    case None =>
      DropCrHolds(text, part);
      l := DropCr(text);
    case Some((before, after)) =>
      NewlineApart(before, after, part);
      if Holds(Lower(before), part) {
        DropCrHolds(before, part);
        l := DropCr(before);
      } else {
        l := LineHolds(after, part);
      }
  }

  lemma NothingIsMarked(text: string, part: string)
    requires text == [] && Marker(part)
    ensures !Holds(Lower(text), part)
  {
    NothingHolds(part);
  }

  lemma NewlineApart(before: string, after: string, part: string)
    requires Marker(part) && Holds(Lower(before + ['\n'] + after), part)
    ensures Holds(Lower(before), part) || Holds(Lower(after), part)
  {
    LowerCut(before, '\n', after);
    HoldsApart(Lower(before), '\n', Lower(after), part);
  }

  lemma SpaceStaysSpace(c: char)
    ensures IsSpace(LowerChar(c)) <==> IsSpace(c)
  {
  }

  lemma SliceWithin(before: string, text: string, after: string, j: nat, n: nat)
    requires j + n <= |text|
    ensures (before + text + after)[|before| + j..|before| + j + n] == text[j..j + n]
  {
  }

  /** ... and survives trimming. */
  lemma TrimHolds(l: string, part: string)
    requires Marker(part) && Holds(Lower(l), part)
    ensures Holds(Lower(Trim(l)), part)
  {
    var i := HoldsWhere(Lower(l), part);
    var before, after := TrimCuts(l);
    hide Trim, Holds, IsSpace;
    var t, n := Trim(l), |part|;
    assert Lower(l)[i..i + n][0] == LowerChar(l[i]) && Lower(l)[i..i + n][n - 1] == LowerChar(l[i + n - 1]);
    SpaceStaysSpace(l[i]);
    SpaceStaysSpace(l[i + n - 1]);
    assert |before| <= i && i + n <= |l| - |after|;
    var j := i - |before|;
    LowerConcat(before, t);
    LowerConcat(before + t, after);
    SliceWithin(Lower(before), Lower(t), Lower(after), j, n);
    HoldsAt(Lower(t), part, j);
  }

  lemma {:induction false} UnlinesHolds(ls: seq<string>, l: string, part: string)
    requires l in ls && Holds(Lower(l), part)
    ensures Holds(Lower(Unlines(ls)), part)
  {
    var rest := Unlines(ls[1..]);
    assert Unlines(ls) == ls[0] + ['\n'] + rest;
    LowerCut(ls[0], '\n', rest);
    if l == ls[0] {
      HoldsAround([], Lower(l), ['\n'] + Lower(rest), part);
      assert [] + Lower(l) + (['\n'] + Lower(rest)) == Lower(l) + ['\n'] + Lower(rest);
    } else {
      UnlinesHolds(ls[1..], l, part);
      HoldsAround(Lower(l) + [], Lower(rest), [], part);
      HoldsAround(Lower(ls[0]) + ['\n'], Lower(rest), [], part);
      assert (Lower(ls[0]) + ['\n']) + Lower(rest) + [] == Lower(ls[0]) + ['\n'] + Lower(rest);
    }
  }

  /** What stays of a line still holds what the line held. */
  lemma RewriteHolds(l: string, w: Wording, part: string) returns (x: string)
    requires Marker(part) && Holds(Lower(l), part)
    ensures x in Rewrite(l, w) && Holds(Lower(x), part)
  {
    hide Marker, Holds, Lower, SettingKey, IsHeader;
    if SettingKey(l) == "dns" || SettingKey(l) == "table" {
      x := w.removed + Trim(l);
      TrimHolds(l, part);
      LowerConcat(w.removed, Trim(l));
      HoldsAround(Lower(w.removed), Lower(Trim(l)), [], part);
      assert Lower(w.removed) + Lower(Trim(l)) + [] == Lower(w.removed) + Lower(Trim(l));
    } else {
      x := l;
    }
  }

  lemma NormalisedHolds(src: string, w: Wording, part: string)
    requires Marker(part) && Holds(Lower(src), part)
    ensures Holds(Lower(Normalised(src, w)), part)
  {
    hide Marker, Holds, Lower, Rewrite, Tail;
    var l := LineHolds(src, part);
    var x := RewriteHolds(l, w, part);
    FlatMapKeeps(ScanLines(src), Rewriter(w), l, x);
    UnlinesHolds(NormalisedLines(src, w), x, part);
  }

  lemma SectionMarkers()
    ensures Marker("[interface]") && Marker("[peer]")
  {
  }

  lemma NoNulInLines(src: string)
    requires '\0' !in src
    ensures forall l :: l in ScanLines(src) ==> '\0' !in l
    decreases |src|
  {
    CutParts(src, '\n');
    if src != [] && Cut(src, '\n').Some? {
      NoNulInLines(Cut(src, '\n').value.1);
    }
  }

  lemma NoNulInRewrite(l: string, w: Wording)
    requires '\0' !in l
    ensures forall x :: x in Rewrite(l, w) ==> '\0' !in x
  {
    hide SettingKey, IsHeader, Trim;
    if '\0' in Trim(l) {
      TrimMembers(l, '\0');
    }
  }

  lemma NoNulInTail(ls: seq<string>, w: Wording)
    ensures forall x :: x in Tail(ls, w) ==> '\0' !in x
  {
    hide Sets;
  }

  lemma {:induction false} NoNulInUnlines(ls: seq<string>)
    requires forall l :: l in ls ==> '\0' !in l
    ensures '\0' !in Unlines(ls)
  {
    if ls != [] {
      NoNulInUnlines(ls[1..]);
    }
  }

  lemma NoNulAfter(src: string, w: Wording)
    requires '\0' !in src
    ensures '\0' !in Normalised(src, w)
  {
    hide Rewrite, Tail, ScanLines;
    var ls := ScanLines(src);
    NoNulInLines(src);
    NoNulInTail(ls, w);
    forall x | x in Rewritten(ls, w)
      ensures '\0' !in x
    {
      var l := FlatMapMembers(ls, Rewriter(w), x);
      NoNulInRewrite(l, w);
    }
    NoNulInUnlines(NormalisedLines(src, w));
  }

  /** What a file sets, other than DNS and Table, its normalised form sets. */
  lemma StillSets(src: string, w: Wording, key: string)
    requires key != "" && key != "dns" && key != "table" && Sets(ScanLines(src), key)
    ensures Sets(ScanLines(Normalised(src, w)), key)
  {
    hide Sets, ScanLines, Normalised, Statements, KeptAll;
    var es := Statements(src);
    ReadersAgree(src);
    ReadersAgree(Normalised(src, w));
    SetsSays(ScanLines(src), key);
    SetsSays(ScanLines(Normalised(src, w)), key);
    NormalisedSays(src, w);
    KeptSets(es, key);
    SetsMore(KeptAll(es), Keepalive25, key);
    assert KeptAll(es) + [] == KeptAll(es);
  }

  lemma SetsMore(es: seq<string>, e: string, key: string)
    requires Sets(es, key)
    ensures Sets(es + [e], key)
  {
    SetsSnoc(es, e, key);
  }

  lemma HoldsSomething(text: string, part: string)
    requires part != [] && Holds(Lower(text), part)
    ensures text != ""
  {
    hide Holds, Lower;
    if text == "" {
      NothingHolds(part);
    }
  }

  /** A file that was accepted is accepted again after normalising, unless the
      notes it gained took it over the size limit. */
  lemma AcceptedAgain(src: string, w: Wording)
    requires Fault(src) == None
    ensures Fault(Normalised(src, w)) == if Utf8Length(Normalised(src, w)) > SizeLimit then Some(TooLarge) else None
  {
    hide Marker, Holds, Lower, Sets, ScanLines, Normalised, Utf8Length;
    SectionMarkers();
    NormalisedHolds(src, w, "[interface]");
    NormalisedHolds(src, w, "[peer]");
    HoldsSomething(Normalised(src, w), "[peer]");
    NoNulAfter(src, w);
    StillSets(src, w, "privatekey");
    StillSets(src, w, "publickey");
    StillSets(src, w, "address");
  }
}
