/** A file that is accepted and then never runs: it is as large as a file may be,
    and the rewriter adds to it. */
module Oversize {
  import opened Prelude
  import opened Text
  import opened Normalise
  import opened Meaning
  import opened Twice
  import opened WgConf

  lemma {:induction false} Utf8Concat(a: string, b: string)
    ensures Utf8Length(a + b) == Utf8Length(a) + Utf8Length(b)
  {
    if a == [] {
      assert a + b == b;
    } else {
      assert (a + b)[1..] == a[1..] + b;
      Utf8Concat(a[1..], b);
    }
  }

  lemma {:induction false} Utf8Xs(n: nat)
    ensures Utf8Length(Xs(n)) == n
    decreases n
  {
    if n > 0 {
      assert Xs(n)[1..] == Xs(n - 1);
      Utf8Xs(n - 1);
    }
  }

  function Xs(n: nat): string
  {
    seq(n, i requires 0 <= i < n => 'x')
  }

  /** A comment of n + 1 bytes. */
  function Pad(n: nat): string
  {
    ['#'] + Xs(n)
  }

  lemma PadLength(n: nat)
    ensures Utf8Length(Pad(n) + ['\n']) == n + 2 && '\n' !in Pad(n) && '\0' !in Pad(n)
  {
    Utf8Xs(n);
    Utf8Concat(['#'], Xs(n));
    Utf8Concat(Pad(n), ['\n']);
    OneByte('#');
    OneByte('\n');
  }

  lemma OneByte(c: char)
    requires c < '\U{80}'
    ensures Utf8Length([c]) == 1
  {
    assert [c][1..] == [];
  }

  /** The accepted file with a comment that fills it up to the limit. */
  function Filler(): nat
  {
    if Utf8Length(Unlines(Decorated)) + 2 <= SizeLimit then SizeLimit - 2 - Utf8Length(Unlines(Decorated)) else 0
  }

  function FullLines(): seq<string>
  {
    Decorated + [Pad(Filler())]
  }

  lemma RoomForPad()
    ensures Utf8Length(Unlines(Decorated)) + 2 <= SizeLimit
  {
    DecoratedSettings();
    hide Harmless, SettingKey, Setting, Unlines, Utf8Length;
    HarmlessIsShort();
    ShortFile(Decorated);
    FewBytes(Unlines(Decorated));
  }

  lemma HarmlessIsShort()
    ensures forall e :: Harmless(e) ==> |e| <= 30 && '\n' !in e && '\0' !in e
  {
  }

  lemma FullIsFull()
    ensures Utf8Length(Unlines(FullLines())) == SizeLimit
  {
    RoomForPad();
    PadLength(Filler());
    hide Unlines, Utf8Length, Pad;
    UnlinesConcat(Decorated, [Pad(Filler())]);
    UnlinesOne(Pad(Filler()));
    Utf8Concat(Unlines(Decorated), Pad(Filler()) + ['\n']);
  }

  lemma FullSays()
    ensures Statements(Unlines(FullLines())) == Decorated
    ensures forall l :: l in FullLines() ==> '\n' !in l && '\0' !in l
  {
    DecoratedIsPlain();
    DecoratedStates();
    PadLength(Filler());
    hide Decorated, Unlines, Saying, Statements, Statement, Xs, Filler;
    var pad := Pad(Filler());
    StatementsOfUnlines(Decorated + [pad]);
    FlatMapConcat(Decorated, [pad], Saying);
    FlatMapOne(pad, Saying);
    CommentSaysNothing(pad);
    AllStatements(Decorated);
  }

  lemma DecoratedIsPlain()
    ensures forall l :: l in Decorated ==> '\n' !in l && '\0' !in l
  {
    DecoratedSettings();
    HarmlessIsShort();
    hide Harmless, SettingKey, Setting;
  }

  lemma DecoratedStates()
    ensures forall e :: e in Decorated ==> Statement(e)
  {
    DecoratedSettings();
    hide SettingKey, Setting, Statement, IsHeader;
  }

  lemma FullAccepted()
    ensures Fault(Unlines(FullLines())) == None
  {
    FullIsFull();
    FullSays();
    FullHolds();
    FullSets();
    hide Unlines, Sets, ScanLines, Holds, Lower, Utf8Length, FullLines, Statements;
    NoNulInUnlines(FullLines());
    HoldsSomething(Unlines(FullLines()), "[peer]");
  }

  lemma FullHolds()
    ensures Holds(Lower(Unlines(FullLines())), "[interface]") && Holds(Lower(Unlines(FullLines())), "[peer]")
  {
    DecoratedHeader();
    PeerHeader();
    hide Harmless, Setting, Unlines, Lower, Pad, Filler;
    HoldsAt(Lower(Decorated[0]), "[interface]", 0);
    HoldsAt(Lower(Decorated[3]), "[peer]", 0);
    assert FullLines()[0] == Decorated[0] && FullLines()[3] == Decorated[3];
    hide Holds;
    UnlinesHolds(FullLines(), FullLines()[0], "[interface]");
    UnlinesHolds(FullLines(), FullLines()[3], "[peer]");
  }

  lemma FullSets()
    ensures var ls := ScanLines(Unlines(FullLines()));
      && Sets(ls, "privatekey") && Sets(ls, "publickey") && Sets(ls, "address") && !Sets(ls, KeepaliveKey)
  {
    FullSays();
    DecoratedSettings();
    NoKeepalive();
    hide Harmless, SettingKey, Setting, Statements, Unlines, Sets, ScanLines, Effective, FullLines;
    var text := Unlines(FullLines());
    ReadersAgree(text);
    KeepaliveIsNamed();
    SetsSays(ScanLines(text), "privatekey");
    SetsSays(ScanLines(text), "publickey");
    SetsSays(ScanLines(text), "address");
    SetsSays(ScanLines(text), KeepaliveKey);
    SetsMeans(Decorated, "privatekey");
    SetsMeans(Decorated, "publickey");
    SetsMeans(Decorated, "address");
    SetsMeans(Decorated, KeepaliveKey);
  }

  lemma KeepaliveIsNamed()
    ensures KeepaliveKey != ""
  {
    assert |KeepaliveKey| == 19;
  }

  lemma HeadersSetNothing()
    ensures SettingKey(Decorated[0]) == "" && SettingKey(Decorated[3]) == ""
  {
    DecoratedHeader();
    PeerHeader();
    hide Setting, IsHeader;
    assert Decorated[0][0] == '[' && Decorated[3][0] == '[';
  }

  lemma NoKeepalive()
    ensures forall e :: e in Decorated ==> SettingKey(e) !in {KeepaliveKey, "dns", "table"}
  {
    DecoratedSettings();
    HeadersSetNothing();
    hide SettingKey, Setting, Harmless;
    assert |KeepaliveKey| == 19 && |"dns"| == 3 && |"table"| == 5;
    assert |"privatekey"| == 10 && |"address"| == 7 && |"publickey"| == 9 && |""| == 0;
    forall e | e in Decorated
      ensures e in {Decorated[0], Decorated[1], Decorated[2], Decorated[3], Decorated[4]}
    {
    }
  }

  /** Lines that do not end in a carriage return come back from a scan as they were written. */
  lemma {:induction false} ScanUnlines(ls: seq<string>)
    requires forall l :: l in ls ==> '\n' !in l && DropCr(l) == l
    ensures ScanLines(Unlines(ls)) == ls
  {
    hide DropCr;
    if ls != [] {
      assert ls[0] in ls && forall l :: l in ls[1..] ==> l in ls;
      ScanUnlines(ls[1..]);
      CutAt(ls[0], '\n', Unlines(ls[1..]));
      assert ls == [ls[0]] + ls[1..];
    }
  }

  lemma FullEnds()
    ensures forall l :: l in FullLines() ==> DropCr(l) == l
  {
    DecoratedStates();
    hide Setting;
    forall l | l in FullLines()
      ensures DropCr(l) == l
    {
      if l in Decorated {
        StatementEnds(l);
      } else {
        assert l == Pad(Filler());
        PadEnds(Filler());
      }
    }
  }

  lemma PadEnds(n: nat)
    ensures DropCr(Pad(n)) == Pad(n)
  {
    assert Pad(n)[|Pad(n)| - 1] in {'#', 'x'};
  }

  lemma StatementEnds(e: string)
    requires Statement(e)
    ensures DropCr(e) == e
  {
    var before, after := TrimCuts(e);
    hide Trim;
    assert IsSpace('\r');
  }

  lemma {:induction false} NothingToRewrite(ls: seq<string>, w: Wording)
    requires forall l :: l in ls ==> SettingKey(l) !in {"dns", "table"} && !IsHeader(l)
    ensures Rewritten(ls, w) == ls
  {
    hide SettingKey, IsHeader;
    if ls != [] {
      assert ls[0] in ls && forall l :: l in ls[1..] ==> l in ls;
      NothingToRewrite(ls[1..], w);
      assert ls == [ls[0]] + ls[1..];
    }
  }

  lemma FullIsKept(w: Wording)
    ensures Rewritten(FullLines(), w) == FullLines()
  {
    NoKeepalive();
    PadSetsNothing(Filler());
    DecoratedHasNoHeader();
    hide SettingKey, IsHeader, Pad, Setting, Harmless, Rewritten;
    NothingToRewrite(FullLines(), w);
  }

  lemma DecoratedHasNoHeader()
    ensures forall e :: e in Decorated ==> !IsHeader(e)
  {
    DecoratedSettings();
    hide SettingKey, IsHeader, Setting, Statement;
  }

  lemma PadSetsNothing(n: nat)
    ensures SettingKey(Pad(n)) !in {"dns", "table"} && !IsHeader(Pad(n))
  {
    assert |"dns"| == 3 && |"table"| == 5 && |""| == 0;
    CommentIsTrimmed(Pad(n));
  }

  lemma CommentIsTrimmed(s: string)
    requires s != [] && s[0] == '#'
    ensures Trim(s) != [] && Trim(s)[0] == '#'
  {
    var before, after := TrimCuts(s);
    assert !IsSpace(s[0]);
    assert before == [];
    assert s == Trim(s) + after;
    hide Trim;
    assert !IsSpace('#');
  }

  lemma FullGrows(w: Wording)
    ensures Utf8Length(Normalised(Unlines(FullLines()), w)) > SizeLimit
  {
    FullIsFull();
    FullSets();
    FullSays();
    FullEnds();
    FullIsKept(w);
    hide FullLines, Unlines, Utf8Length, Sets, ScanLines, Rewritten, Normalised, Statements, DropCr;
    var text := Unlines(FullLines());
    ScanUnlines(FullLines());
    NormalisedParts(text, w);
    var tail := Unlines(KeepaliveLines(w));
    Utf8Concat(Unlines(w.preamble) + text, tail);
    Utf8Concat(Unlines(w.preamble), text);
    TailIsSomething(w);
  }

  lemma TailIsSomething(w: Wording)
    ensures Utf8Length(Unlines(KeepaliveLines(w))) > 0
  {
    var ls := [""] + (w.tail + [Keepalive25]);
    assert ls == KeepaliveLines(w);
    hide Utf8Length;
    UnlinesConcat([""], w.tail + [Keepalive25]);
    UnlinesOne("");
    Utf8Concat("" + ['\n'], Unlines(w.tail + [Keepalive25]));
    OneByte('\n');
    assert "" + ['\n'] == ['\n'];
  }

  /** The full file is accepted, and whatever the notes say its normalised form is refused. */
  lemma AcceptedThenTooLarge(w: Wording)
    ensures Fault(Unlines(FullLines())) == None
    ensures Fault(Normalised(Unlines(FullLines()), w)) == Some(TooLarge)
  {
    hide *;
    FullAccepted();
    FullGrows(w);
    AcceptedAgain(Unlines(FullLines()), w);
  }
}
