/** What the daemon checks of a tunnel's file before it starts anything. */
module WgConf {
  import opened Prelude
  import opened Text
  import opened Words
  import opened Normalise
  import opened Meaning
  import opened Twice

  datatype Conf = Conf(table: string, dns: string, keepalive: bool)

  const Blank := Conf("", "", false)

  /** One setting; a later one overrides. */
  function Set(c: Conf, key: string, val: string): Conf
  {
    if key == "table" then c.(table := Lower(val))
    else if key == "dns" then c.(dns := val)
    else if key == KeepaliveKey then c.(keepalive := val != "" && val != "0")
    else c
  }

  /** One statement. Unlike the rewriter's, this reader does not skip section headers. */
  function Read(c: Conf, e: string): Conf
  {
    match Cut(e, '=')
    case None => c
    case Some((k, v)) => Set(c, Lower(Trim(k)), Trim(v))
  }

  function ReadAll(c: Conf, es: seq<string>): Conf
    decreases |es|
  {
    if es == [] then c else ReadAll(Read(c, es[0]), es[1..])
  }

  lemma {:induction false} ReadConcat(c: Conf, a: seq<string>, b: seq<string>)
    ensures ReadAll(c, a + b) == ReadAll(ReadAll(c, a), b)
    decreases |a|
  {
    hide Read;
    if a == [] {
      assert a + b == b;
    } else {
      assert (a + b)[1..] == a[1..] + b;
      ReadConcat(Read(c, a[0]), a[1..], b);
    }
  }

  lemma ReadOne(c: Conf, e: string)
    ensures ReadAll(c, [e]) == Read(c, e)
  {
    hide Read;
    assert [e][1..] == [];
  }

  method ReadLine(c: Conf, text: string) returns (c': Conf)
    ensures c' == ReadAll(c, Saying(text))
  {
    hide Trim, Cut, Set;
    var line := Trim(text);
    if line == "" || line[0] == '#' {
      return c;
    }
    ReadOne(c, line);
    match Cut(line, '=') {
      case None => return c;
      case Some((key, val)) => return Set(c, Lower(Trim(key)), Trim(val));
    }
  }

  method ParseWgConf(text: string) returns (c: Conf)
    ensures c == ReadAll(Blank, Statements(text))
  {
    hide Saying, ReadAll;
    ReadNothing(Blank);
    c := Blank;
    var lines := ScanLines(text);
    for i := 0 to |lines|
      invariant c == ReadAll(Blank, Effective(lines[..i]))
    {
      assert lines[..i + 1] == lines[..i] + [lines[i]];
      FlatMapConcat(lines[..i], [lines[i]], Saying);
      FlatMapOne(lines[i], Saying);
      ReadConcat(Blank, Effective(lines[..i]), Saying(lines[i]));
      c := ReadLine(c, lines[i]);
    }
    assert lines[..|lines|] == lines;
    ReadersAgree(text);
  }

  lemma ReadNothing(c: Conf)
    ensures ReadAll(c, []) == c
  {
  }

  datatype Fatal = TableNotOff | RewritesResolver(dns: string) | Unreadable
  datatype Warning = NoKeepalive

  /** Without "Table = off", or with a DNS line, the daemon refuses to start; a
      missing keepalive is only warned about. */
  method Problems(c: Conf) returns (fatal: seq<Fatal>, warn: seq<Warning>)
    ensures fatal == [] <==> Fit(c)
    ensures TableNotOff in fatal <==> c.table != "off"
    ensures RewritesResolver(c.dns) in fatal <==> c.dns != ""
    ensures warn == if c.keepalive then [] else [NoKeepalive]
  {
    fatal, warn := [], [];
    if c.table != "off" {
      fatal := fatal + [TableNotOff];
    }
    if c.dns != "" {
      fatal := fatal + [RewritesResolver(c.dns)];
    }
    if !c.keepalive {
      warn := warn + [NoKeepalive];
    }
  }

  predicate Fit(c: Conf)
  {
    c.table == "off" && c.dns == ""
  }

  // The gate in the file's own words

  /** The last table setting turns routing off, and no DNS setting comes after an
      empty one. */
  predicate MayRun(es: seq<string>)
  {
    var table, dns := LastValue(es, "table"), LastValue(es, "dns");
    table.Some? && Lower(table.value) == "off" && (dns.Some? ==> dns.value == "")
  }

  /** The last keepalive setting asks for one. */
  predicate AsksForKeepalive(es: seq<string>)
  {
    var keepalive := LastValue(es, "persistentkeepalive");
    keepalive.Some? && keepalive.value != "" && keepalive.value != "0"
  }

  function OrEmpty(v: Option<string>): string
  {
    if v.Some? then v.value else ""
  }

  lemma SetAlone(c: Conf, key: string, val: string)
    ensures Set(c, key, val).table == if key == "table" then Lower(val) else c.table
    ensures Set(c, key, val).dns == if key == "dns" then val else c.dns
    ensures Set(c, key, val).keepalive == if key == "persistentkeepalive" then val != "" && val != "0" else c.keepalive
  {
    assert "table"[0] == 't' && "dns"[0] == 'd' && "persistentkeepalive"[0] == 'p';
  }

  lemma ReadAlone(c: Conf, e: string)
    ensures Read(c, e).table == if SetsKey(e, "table") then Lower(ValueOf(e)) else c.table
    ensures Read(c, e).dns == if SetsKey(e, "dns") then ValueOf(e) else c.dns
    ensures Read(c, e).keepalive
         == if SetsKey(e, "persistentkeepalive") then ValueOf(e) != "" && ValueOf(e) != "0" else c.keepalive
  {
    hide Set, Trim, Lower, Cut;
    match Cut(e, '=')
    case None =>
    case Some((k, v)) => SetAlone(c, Lower(Trim(k)), Trim(v));
  }

  /** Reading a file is finding its last setting of each of the three keys. */
  lemma {:induction false} ReadsLast(es: seq<string>)
    ensures var c := ReadAll(Blank, es);
      && c.table == Lower(OrEmpty(LastValue(es, "table"))) && c.dns == OrEmpty(LastValue(es, "dns"))
      && (c.keepalive <==> AsksForKeepalive(es))
  {
    hide Read, SetsKey, ValueOf, Lower, LastValue, ReadAll;
    if es == [] {
      NothingSaid();
    } else {
      var before, e := es[..|es| - 1], es[|es| - 1];
      assert es == before + [e];
      ReadsLast(before);
      ReadConcat(Blank, before, [e]);
      ReadOne(ReadAll(Blank, before), e);
      ReadAlone(ReadAll(Blank, before), e);
      LastValueSnoc(before, e, "table");
      LastValueSnoc(before, e, "dns");
      LastValueSnoc(before, e, "persistentkeepalive");
    }
  }

  lemma NothingSaid()
    ensures ReadAll(Blank, []) == Blank && forall key :: LastValue([], key) == None
    ensures Lower("") == ""
  {
  }

  /** A file is fit exactly when its last table setting is off and its last DNS
      setting, if it has one, is empty. */
  lemma FitExactly(es: seq<string>)
    ensures Fit(ReadAll(Blank, es)) <==> MayRun(es)
    ensures ReadAll(Blank, es).keepalive <==> AsksForKeepalive(es)
  {
    ReadsLast(es);
    hide ReadAll, LastValue, AsksForKeepalive, Lower;
    NothingSaid();
    assert |"off"| == 3 && |""| == 0;
  }

  /** The file can be read and used as it is. */
  predicate Passes(f: Option<string>)
  {
    f.Some? && MayRun(Statements(f.value))
  }

  predicate GatePasses(files: seq<Option<string>>)
  {
    forall f :: f in files ==> Passes(f)
  }

  /** Every file that can be read asks for a keepalive. */
  predicate NoWarning(files: seq<Option<string>>)
  {
    forall f :: f in files && f.Some? ==> AsksForKeepalive(Statements(f.value))
  }

  lemma GateSnoc(files: seq<Option<string>>, f: Option<string>)
    ensures GatePasses(files + [f]) <==> GatePasses(files) && Passes(f)
  {
    hide Passes;
    assert f in files + [f] && forall g :: g in files ==> g in files + [f];
  }

  lemma WarningSnoc(files: seq<Option<string>>, f: Option<string>)
    ensures NoWarning(files + [f]) <==> NoWarning(files) && (f.Some? ==> AsksForKeepalive(Statements(f.value)))
  {
    hide AsksForKeepalive, Statements;
    assert f in files + [f] && forall g :: g in files ==> g in files + [f];
  }

  lemma EmptyGate()
    ensures GatePasses([]) && NoWarning([])
  {
  }

  /** The gate before anything starts: every tunnel's file, or None for one that
      cannot be read. Nothing is fatal exactly when all of them pass, and there is
      no warning exactly when every one that can be read asks for a keepalive. */
  method CheckTunnelConfigs(files: seq<Option<string>>) returns (fatal: seq<Fatal>, warn: seq<Warning>)
    ensures fatal == [] <==> GatePasses(files)
    ensures warn == [] <==> NoWarning(files)
  {
    hide Fit, ReadAll, Statements, MayRun, AsksForKeepalive, GatePasses, NoWarning;
    assert GatePasses([]) && NoWarning([]) by {
      EmptyGate();
    }
    fatal, warn := [], [];
    for i := 0 to |files|
      invariant fatal == [] <==> GatePasses(files[..i])
      invariant warn == [] <==> NoWarning(files[..i])
    {
      assert files[..i + 1] == files[..i] + [files[i]];
      GateSnoc(files[..i], files[i]);
      WarningSnoc(files[..i], files[i]);
      match files[i] {
        case None => fatal := fatal + [Unreadable];
        case Some(text) =>
          var c := ParseWgConf(text);
          var f, w := Problems(c);
          FitExactly(Statements(text));
          fatal, warn := fatal + f, warn + w;
      }
    }
    assert files[..|files|] == files;
  }

  // Normalised files at this gate

  /** A statement that starts with a bracket sets nothing, equals sign or not. */
  lemma BracketSetsNothing(c: Conf, e: string)
    requires Statement(e) && e[0] == '['
    ensures Read(c, e) == c
  {
    CutParts(e, '=');
    match Cut(e, '=')
    case None =>
    case Some((k, v)) =>
      assert k != [] && k[0] == '[';
      BracketStaysFirst(k);
      assert Lower(Trim(k))[0] == '[';
      OtherKey(c, Lower(Trim(k)), Trim(v));
  }

  lemma OtherKey(c: Conf, key: string, val: string)
    requires key != [] && key[0] == '['
    ensures Set(c, key, val) == c
  {
    assert "table"[0] == 't' && "dns"[0] == 'd' && KeepaliveKey[0] == 'p';
  }

  /** This reader and the rewriter agree on which setting a statement is. */
  lemma ReadByKey(c: Conf, e: string)
    requires Statement(e)
    ensures Read(c, e) == Set(c, SettingKey(e), ValueOf(e))
  {
    hide Set, Trim, Cut, Lower;
    EmptyKey(c, ValueOf(e));
    if e[0] == '[' {
      BracketSetsNothing(c, e);
    }
  }

  lemma EmptyKey(c: Conf, val: string)
    ensures Set(c, "", val) == c
  {
  }

  /** Some line is the interface header and nothing else. */
  predicate HasHeader(es: seq<string>)
  {
    exists e | e in es :: Folded(Trim(e)) == "[interface]"
  }

  lemma HasHeaderLine(es: seq<string>)
    ensures HasHeader(es) <==> exists e | e in es :: IsHeader(e)
  {
    hide IsHeader, Trim, Folded;
    forall e
      ensures IsHeader(e) <==> Folded(Trim(e)) == "[interface]"
    {
      HeaderByWord(e);
    }
  }

  lemma TableOffReads(c: Conf)
    ensures Read(c, TableOff) == c.(table := "off")
  {
    hide *;
    TableOffParts();
    TableOffValue();
    ReadByKey(c, TableOff);
    SetsTable(c);
  }

  lemma TableOffValue()
    ensures ValueOf(TableOff) == "off"
  {
    hide Trim, Cut, Lower;
    TableOffText();
    SettingParts("Table", "off");
  }

  lemma SetsTable(c: Conf)
    ensures Set(c, "table", "off") == c.(table := "off")
  {
    assert Lower("off") == "off";
  }

  lemma KeepaliveReads(c: Conf)
    ensures Read(c, Keepalive25) == c.(keepalive := true)
  {
    hide *;
    KeepaliveParts();
    KeepaliveValue();
    ReadByKey(c, Keepalive25);
    SetsKeepalive(c);
  }

  lemma KeepaliveValue()
    ensures ValueOf(Keepalive25) == "25"
  {
    hide Trim, Cut, Lower;
    KeepaliveText();
    SettingParts("PersistentKeepalive", "25");
  }

  lemma SetsKeepalive(c: Conf)
    ensures Set(c, KeepaliveKey, "25") == c.(keepalive := true)
  {
    assert KeepaliveKey[0] == 'p' && "table"[0] == 't' && "dns"[0] == 'd';
    assert |"25"| == 2;
  }

  lemma SetEffects(c: Conf, d: Conf, key: string, val: string)
    requires key != "dns" && key != "table"
    ensures Set(c, key, val).table == c.table && Set(c, key, val).dns == c.dns
    ensures key != KeepaliveKey ==> Set(c, key, val) == c
    ensures c.keepalive == d.keepalive ==> Set(c, key, val).keepalive == Set(d, key, val).keepalive
  {
  }

  lemma DnsOrTable(d: Conf, key: string, val: string)
    requires key == "dns" || key == "table"
    ensures Set(d, key, val).keepalive == d.keepalive
  {
  }

  /** One statement, as it was and as it is kept. */
  lemma KeptReads(c: Conf, d: Conf, e: string)
    requires Statement(e) && c.dns == "" && c.keepalive == d.keepalive
    ensures var c' := ReadAll(c, Kept(e));
      c'.dns == "" && c'.table == (if IsHeader(e) then "off" else c.table) && c'.keepalive == Read(d, e).keepalive
  {
    hide Set, Read, SettingKey, IsHeader, Statement;
    ReadByKey(d, e);
    ReadByKey(c, e);
    ReadNothing(c);
    if SettingKey(e) == "dns" || SettingKey(e) == "table" {
      DnsOrTable(d, SettingKey(e), ValueOf(e));
      SettingIsNoHeader(e);
    } else {
      SetEffects(c, d, SettingKey(e), ValueOf(e));
      ReadOne(c, e);
      if IsHeader(e) {
        HeaderReads(c, e);
        HeaderReads(d, e);
        ReadConcat(c, [e], [TableOff]);
        ReadOne(Read(c, e), TableOff);
        TableOffReads(Read(c, e));
        assert [e] + [TableOff] == [e, TableOff];
      }
    }
  }

  lemma HeaderReads(c: Conf, e: string)
    requires Statement(e) && IsHeader(e)
    ensures Read(c, e) == c
  {
    hide Read, SettingKey, Trim;
    HeaderStarts(e);
    BracketSetsNothing(c, e);
  }

  lemma HeaderStarts(e: string)
    requires Statement(e) && IsHeader(e)
    ensures e[0] == '['
  {
  }

  lemma SettingIsNoHeader(e: string)
    requires SettingKey(e) == "dns" || SettingKey(e) == "table"
    ensures !IsHeader(e)
  {
    assert SettingKey(e) != "";
  }

  lemma {:induction false} KeptAllReads(c: Conf, d: Conf, es: seq<string>)
    requires (forall e :: e in es ==> Statement(e)) && c.dns == "" && c.keepalive == d.keepalive
    ensures var c' := ReadAll(c, KeptAll(es));
      c'.dns == "" && c'.table == (if HasHeader(es) then "off" else c.table) && c'.keepalive == ReadAll(d, es).keepalive
    decreases |es|
  {
    hide Read, Kept, IsHeader, Statement;
    if es != [] {
      assert es[0] in es && forall e :: e in es[1..] ==> e in es;
      KeptReads(c, d, es[0]);
      KeptAllReads(ReadAll(c, Kept(es[0])), Read(d, es[0]), es[1..]);
      ReadConcat(c, Kept(es[0]), KeptAll(es[1..]));
      HeaderFirst(es);
    }
  }

  lemma HeaderFirst(es: seq<string>)
    requires es != []
    ensures HasHeader(es) <==> IsHeader(es[0]) || HasHeader(es[1..])
  {
    HasHeaderLine(es);
    HasHeaderLine(es[1..]);
    hide IsHeader, HasHeader;
    assert es == [es[0]] + es[1..];
    if e :| e in es && IsHeader(e) {
      assert e == es[0] || e in es[1..];
    }
    if e :| e in es[1..] && IsHeader(e) {
      assert e in es;
    }
  }

  /** A normalised file passes the gate exactly when some line of the provider's
      file was the interface header and nothing else; and its keepalive is missing
      exactly when the file's own last one was empty or zero. */
  lemma NormalisedPassesGate(src: string, w: Wording)
    ensures var c := ReadAll(Blank, Statements(Normalised(src, w)));
      && (Fit(c) <==> HasHeader(Statements(src)))
      && c.dns == ""
      && (c.keepalive <==> (Sets(Statements(src), KeepaliveKey) ==> ReadAll(Blank, Statements(src)).keepalive))
  {
    hide Statements, Normalised, Read, KeptAll, HasHeader, Sets, Statement, ReadAll;
    var es := Statements(src);
    NormalisedSays(src, w);
    StatementsState(src);
    KeptAllReads(Blank, Blank, es);
    KeepaliveEnd(ReadAll(Blank, KeptAll(es)));
    ReadConcat(Blank, KeptAll(es), [Keepalive25]);
    assert KeptAll(es) + [] == KeptAll(es);
    NotOff();
  }

  function Copies(srcs: seq<string>, w: Wording): seq<Option<string>>
  {
    seq(|srcs|, i requires 0 <= i < |srcs| => Some(Normalised(srcs[i], w)))
  }

  /** Normalised copies pass exactly when every file they are made from has the
      bare interface header. */
  lemma CopiesPassGate(srcs: seq<string>, w: Wording)
    ensures GatePasses(Copies(srcs, w)) <==> forall src :: src in srcs ==> HasHeader(Statements(src))
  {
    hide Statements, Normalised, ReadAll, Fit, HasHeader, MayRun;
    forall i | 0 <= i < |srcs|
      ensures MayRun(Statements(Normalised(srcs[i], w))) <==> HasHeader(Statements(srcs[i]))
    {
      NormalisedPassesGate(srcs[i], w);
      FitExactly(Statements(Normalised(srcs[i], w)));
    }
    assert forall i :: 0 <= i < |srcs| ==> Copies(srcs, w)[i] == Some(Normalised(srcs[i], w));
    if GatePasses(Copies(srcs, w)) {
      forall src | src in srcs
        ensures HasHeader(Statements(src))
      {
        var i :| 0 <= i < |srcs| && srcs[i] == src;
        assert Copies(srcs, w)[i] in Copies(srcs, w);
      }
    }
  }

  lemma NotOff()
    ensures "" != "off"
  {
    assert |"off"| == 3;
  }

  lemma StatementsState(src: string)
    ensures forall e :: e in Statements(src) ==> Statement(e)
  {
    hide Statement;
  }

  lemma KeepaliveEnd(c: Conf)
    ensures ReadAll(c, [Keepalive25]) == c.(keepalive := true)
  {
    hide Read;
    ReadOne(c, Keepalive25);
    KeepaliveReads(c);
  }

  // An accepted file the gate refuses

  /** A file whose interface header carries a comment. */
  const Decorated: seq<string> := [
    "[Interface] # home", Setting("PrivateKey", "k"), Setting("Address", "a"), "[Peer]", Setting("PublicKey", "p")]

  /** A harmless line: a statement, short, without NUL, and not the bare header. */
  predicate Harmless(e: string)
  {
    Statement(e) && !IsHeader(e) && |e| <= 30 && '\0' !in e
  }

  lemma HarmlessSetting(k: string, v: string)
    requires KeyText(k) && v != [] && Trimmed(v) && '\n' !in v && |k| + |v| <= 27 && '\0' !in k && '\0' !in v
    ensures Harmless(Setting(k, v)) && SettingKey(Setting(k, v)) == Lower(k)
  {
    hide SettingKey, Statement, IsHeader, Cut, Trim, Lower;
    SettingParts(k, v);
  }

  lemma PrivateKeyText()
    ensures KeyText("PrivateKey") && Lower("PrivateKey") == "privatekey" && Trimmed("k")
  {
  }

  lemma AddressText()
    ensures KeyText("Address") && Lower("Address") == "address" && Trimmed("a")
  {
  }

  lemma PublicKeyText()
    ensures KeyText("PublicKey") && Lower("PublicKey") == "publickey" && Trimmed("p")
  {
  }

  lemma DecoratedHeader()
    ensures var e := "[Interface] # home"; Harmless(e) && |Lower(e)| == 18 && Lower(e)[0..11] == "[interface]"
  {
    hide Trim;
    var e := "[Interface] # home";
    assert e[0] == '[' && e[|e| - 1] == 'e';
    TrimTrimmed(e);
  }

  lemma PeerHeader()
    ensures var e := "[Peer]"; Harmless(e) && |Lower(e)| == 6 && Lower(e)[0..6] == "[peer]"
  {
    hide Trim;
    var e := "[Peer]";
    assert e[0] == '[' && e[|e| - 1] == ']';
    TrimTrimmed(e);
  }

  lemma DecoratedSettings()
    ensures forall e :: e in Decorated ==> Harmless(e)
    ensures SettingKey(Decorated[1]) == "privatekey" && SettingKey(Decorated[2]) == "address" && SettingKey(Decorated[4]) == "publickey"
  {
    PrivateKeyText();
    AddressText();
    PublicKeyText();
    DecoratedHeader();
    PeerHeader();
    hide SettingKey, Harmless, Lower, Setting, KeyText;
    HarmlessSetting("PrivateKey", "k");
    HarmlessSetting("Address", "a");
    HarmlessSetting("PublicKey", "p");
  }

  lemma {:induction false} AllStatements(es: seq<string>)
    requires forall e :: e in es ==> Statement(e)
    ensures Effective(es) == es
  {
    hide Saying, Statement;
    if es != [] {
      assert es[0] in es && forall e :: e in es[1..] ==> e in es;
      AllStatements(es[1..]);
      StatementSaysItself(es[0]);
    }
  }

  lemma {:induction false} ShortFile(ls: seq<string>)
    requires forall l :: l in ls ==> |l| <= 30
    ensures |Unlines(ls)| <= 31 * |ls|
  {
    if ls != [] {
      assert ls[0] in ls && forall l :: l in ls[1..] ==> l in ls;
      ShortFile(ls[1..]);
    }
  }

  lemma {:induction false} FewBytes(s: string)
    ensures Utf8Length(s) <= 4 * |s|
  {
    if s != [] {
      FewBytes(s[1..]);
    }
  }

  lemma DecoratedSays()
    ensures Statements(Unlines(Decorated)) == Decorated
  {
    DecoratedSettings();
    hide Statements, IsHeader, SettingKey, Setting, Unlines;
    StatementsOfUnlines(Decorated);
    AllStatements(Decorated);
  }

  lemma NoHeaderInDecorated()
    ensures !HasHeader(Statements(Unlines(Decorated)))
  {
    DecoratedSays();
    DecoratedSettings();
    HasHeaderLine(Statements(Unlines(Decorated)));
    hide IsHeader, HasHeader, SettingKey, Setting, Statement, Statements, Unlines;
  }

  lemma DecoratedHolds()
    ensures Holds(Lower(Unlines(Decorated)), "[interface]") && Holds(Lower(Unlines(Decorated)), "[peer]")
  {
    DecoratedHeader();
    PeerHeader();
    hide Harmless, Setting, Unlines, Lower;
    HoldsAt(Lower(Decorated[0]), "[interface]", 0);
    HoldsAt(Lower(Decorated[3]), "[peer]", 0);
    hide Holds;
    UnlinesHolds(Decorated, Decorated[0], "[interface]");
    UnlinesHolds(Decorated, Decorated[3], "[peer]");
  }

  lemma DecoratedSets()
    ensures var ls := ScanLines(Unlines(Decorated)); Sets(ls, "privatekey") && Sets(ls, "publickey") && Sets(ls, "address")
  {
    DecoratedSays();
    DecoratedSettings();
    hide Harmless, SettingKey, Setting, Statements, Unlines, Sets, ScanLines, Effective;
    ReadersAgree(Unlines(Decorated));
    SetsSays(ScanLines(Unlines(Decorated)), "privatekey");
    SetsSays(ScanLines(Unlines(Decorated)), "publickey");
    SetsSays(ScanLines(Unlines(Decorated)), "address");
    SetsMeans(Decorated, "privatekey");
    SetsMeans(Decorated, "publickey");
    SetsMeans(Decorated, "address");
  }

  lemma DecoratedIsSmall()
    ensures Utf8Length(Unlines(Decorated)) <= SizeLimit && '\0' !in Unlines(Decorated)
  {
    DecoratedSettings();
    hide Statement, IsHeader, SettingKey, Setting, Unlines, Utf8Length;
    ShortFile(Decorated);
    FewBytes(Unlines(Decorated));
    NoNulInUnlines(Decorated);
  }

  lemma DecoratedAccepted()
    ensures Fault(Unlines(Decorated)) == None
  {
    DecoratedIsSmall();
    DecoratedHolds();
    DecoratedSets();
    hide Unlines, Sets, ScanLines, Holds, Lower, Utf8Length;
    HoldsSomething(Unlines(Decorated), "[peer]");
  }

  /** A file whose header line is decorated is accepted, normalised without an
      error, and then refused by the daemon's own gate. */
  lemma AcceptedButUnfit(w: Wording)
    ensures Fault(Unlines(Decorated)) == None
    ensures !Fit(ReadAll(Blank, Statements(Normalised(Unlines(Decorated), w))))
  {
    hide *;
    DecoratedAccepted();
    NormalisedPassesGate(Unlines(Decorated), w);
    NoHeaderInDecorated();
  }
}
