/** Rewriting a file does not change what wireguard-go is told. */
module Commute {
  import opened Prelude
  import opened Text
  import opened Normalise
  import opened Meaning
  import opened Decimal
  import opened Uapi
  import V = Values
  import P = Protocol
  import B = ReadBack

  /** This reader goes by the rewriter's key, where the statement is no header. */
  lemma EmitByKey(o: Out, e: string, resolve: Resolver)
    requires Statement(e) && SettingKey(e) != ""
    ensures Cut(e, '=').Some?
    ensures Emit(o, e, resolve) == EmitSetting(o, Classify(SettingKey(e)), Trim(Cut(e, '=').value.1), resolve)
  {
    hide EmitSetting, Classify;
    assert Trim(e) == e;
    assert e[0] != '[';
  }

  lemma NotTranslated()
    ensures Classify("dns") == Other && Classify("table") == Other
  {
    assert "dns"[0] == 'd' && "table"[0] == 't';
    assert "privatekey"[0] == 'p' && "listenport"[0] == 'l' && "address"[0] == 'a' && "publickey"[0] == 'p' && "presharedkey"[0] == 'p'
      && "endpoint"[0] == 'e' && "allowedips"[0] == 'a' && "persistentkeepalive"[0] == 'p';
  }

  /** DNS and Table lines and the interface header say nothing to this reader. */
  lemma SilentSetting(o: Out, e: string, resolve: Resolver)
    requires Statement(e) && (SettingKey(e) == "dns" || SettingKey(e) == "table")
    ensures Emit(o, e, resolve) == Ok(o)
  {
    KeyIsSomething(e);
    EmitByKey(o, e, resolve);
    NotTranslated();
    hide Emit, SettingKey, Classify, Trim, Cut, Statement;
  }

  lemma KeyIsSomething(e: string)
    requires SettingKey(e) == "dns" || SettingKey(e) == "table"
    ensures SettingKey(e) != ""
  {
    hide SettingKey;
    assert |"dns"| == 3 && |"table"| == 5;
  }

  lemma SilentHeader(o: Out, e: string, resolve: Resolver)
    requires Statement(e) && IsHeader(e)
    ensures Emit(o, e, resolve) == Ok(o)
  {
    assert Trim(e) == e;
    assert e[0] == '[' && |e| == 11;
  }

  lemma SilentTableOff(o: Out, resolve: Resolver)
    ensures Emit(o, TableOff, resolve) == Ok(o)
  {
    hide *;
    TableOffParts();
    SilentSetting(o, TableOff, resolve);
  }

  lemma KeptEmits(o: Out, e: string, resolve: Resolver)
    requires Statement(e)
    ensures EmitAll(o, Kept(e), resolve) == Emit(o, e, resolve)
  {
    hide Emit, SettingKey, IsHeader, Statement;
    EmitOne(o, e, resolve);
    EmitNothing(o, resolve);
    if SettingKey(e) == "dns" || SettingKey(e) == "table" {
      SilentSetting(o, e, resolve);
    } else if IsHeader(e) {
      SilentHeader(o, e, resolve);
      SilentTableOff(o, resolve);
      EmitConcat(o, [e], [TableOff], resolve);
      EmitOne(o, TableOff, resolve);
      assert [e] + [TableOff] == [e, TableOff];
    }
  }

  lemma {:induction false} KeptAllEmits(o: Out, es: seq<string>, resolve: Resolver)
    requires forall e :: e in es ==> Statement(e)
    ensures EmitAll(o, KeptAll(es), resolve) == EmitAll(o, es, resolve)
    decreases |es|
  {
    hide Emit, Kept, Statement;
    if es != [] {
      assert es[0] in es && forall e :: e in es[1..] ==> e in es;
      KeptEmits(o, es[0], resolve);
      EmitConcat(o, Kept(es[0]), KeptAll(es[1..]), resolve);
      match Emit(o, es[0], resolve)
      case Err(_) =>
      case Ok(o') => KeptAllEmits(o', es[1..], resolve);
    }
  }

  const KeepaliveText25: string := P.Line(P.Keepalive, "25") + ['\n']

  lemma TwentyFive()
    ensures IsAtoi("25") && V.IsUint16("25") && '\n' !in "25"
  {
    var s := "25";
    assert s[0] == '2' && s[1] == '5' && |s| == 2;
    assert s[..1] == ['2'];
    assert Value(['2']) == 2 by {
      assert ['2'][..0] == [];
    }
    assert Value(s) == 25;
  }

  lemma KeepaliveClass()
    ensures Classify(KeepaliveKey) == Means(P.Keepalive)
  {
    var k := KeepaliveKey;
    assert k[0] == 'p' && |k| == 19;
    assert |"privatekey"| == 10 && |"listenport"| == 10 && |"address"| == 7 && |"publickey"| == 9 && |"presharedkey"| == 12
      && |"endpoint"| == 8 && |"allowedips"| == 10;
  }

  lemma KeepaliveEmits(o: Out, resolve: Resolver)
    ensures Emit(o, Keepalive25, resolve) == Ok(Write(o, KeepaliveText25))
  {
    KeepaliveParts();
    KeepaliveNamed();
    KeepaliveClass();
    KeepaliveVal();
    TwentyFive();
    hide Emit, Statement, SettingKey, Classify, Trim, Cut, IsAtoi;
    EmitByKey(o, Keepalive25, resolve);
  }

  lemma KeepaliveNamed()
    ensures KeepaliveKey != ""
  {
    assert |KeepaliveKey| == 19;
  }

  lemma KeepaliveVal()
    ensures Cut(Keepalive25, '=').Some? && Trim(Cut(Keepalive25, '=').value.1) == "25"
  {
    hide Trim, Cut, Lower;
    KeepaliveText();
    SettingParts("PersistentKeepalive", "25");
  }

  /** Normalising commutes with translation: the same error, or the same addresses
      and the same text, followed by one keepalive line exactly when the file sets
      no keepalive of its own. */
  lemma NormalisingCommutes(src: string, w: Wording, resolve: Resolver)
    ensures Translated(Statements(Normalised(src, w)), resolve) ==
      match Translated(Statements(src), resolve)
      case Err(x) => Err(x)
      case Ok((text, addrs)) => Ok((text + (if Sets(Statements(src), KeepaliveKey) then "" else KeepaliveText25), addrs))
  {
    hide Statements, Normalised, KeptAll, Sets, EmitAll, Statement;
    var es := Statements(src);
    NormalisedSays(src, w);
    KeptAllEmits(Start, es, resolve);
    EmitConcat(Start, KeptAll(es), [Keepalive25], resolve);
    assert KeptAll(es) + [] == KeptAll(es);
    match EmitAll(Start, es, resolve)
    case Err(_) =>
    case Ok(o) =>
      KeepaliveLast(o, resolve);
      assert o.text + "" == o.text;
  }

  lemma KeepaliveLast(o: Out, resolve: Resolver)
    ensures EmitAll(o, [Keepalive25], resolve) == Ok(Write(o, KeepaliveText25))
  {
    hide Emit;
    EmitOne(o, Keepalive25, resolve);
    KeepaliveEmits(o, resolve);
  }

  /** The device with a keepalive on its last peer, unless the file has its own. */
  function KeptAlive(d: P.Device, own: bool): P.Device
    requires d.peers != []
  {
    if own then d else B.Reopened(d, B.Open(d).(keepalive := Some("25")))
  }

  lemma KeepaliveReadsBack(text: string, d: P.Device)
    requires B.Reads(text, d) && d.peers != []
    ensures P.ReadText(text + KeepaliveText25) == Some(KeptAlive(d, false))
  {
    hide B.Reads, P.Line, P.ReadText;
    B.SetOpen(d, P.Keepalive, "25");
    TwentyFive();
    B.LineReads(text, d, P.Keepalive, "25", KeptAlive(d, false));
    B.ReadsAs(text + KeepaliveText25, KeptAlive(d, false));
  }

  /** A keepalive after a header that got no key spoils the text. */
  lemma KeepaliveAfterHeader(base: string, d: P.Device)
    requires B.Reads(base, d)
    ensures P.ReadText(base + (P.Spelled(P.PublicKey) + ['=']) + KeepaliveText25) == None
  {
    hide B.Reads, P.Spelled, P.ReadText, B.Bad;
    B.RefusedOpening(base, d, P.Keepalive, "25" + ['\n']);
    assert (P.Spelled(P.Keepalive) + ['=']) + ("25" + ['\n']) == KeepaliveText25;
    B.BadIsRefused(base + (P.Spelled(P.PublicKey) + ['=']) + KeepaliveText25);
  }

  lemma KeepaliveAfterWrong(text: string)
    requires B.Bad(text)
    ensures P.ReadText(text + KeepaliveText25) == None
  {
    hide B.Bad, P.ReadText, KeepaliveText25;
    B.BadGrows(text, KeepaliveText25);
    B.BadIsRefused(text + KeepaliveText25);
  }

  lemma KeepaliveStands(text: string, p: B.Phase, d: P.Device)
    requires B.Stands(text, p, d) && p != B.Before
    ensures p == B.Inside ==> d.peers != []
    ensures P.ReadText(text + KeepaliveText25) == if p == B.Inside then Some(KeptAlive(d, false)) else None
  {
    hide B.Reads, B.Bad, P.ReadText, KeepaliveText25, P.Spelled, KeptAlive;
    match p
    case Unnamed =>
      var base :| B.Reads(base, d) && text == base + (P.Spelled(P.PublicKey) + ['=']);
      KeepaliveAfterHeader(base, d);
    case Inside => KeepaliveReadsBack(text, d);
    case Wrong => KeepaliveAfterWrong(text);
  }

  /** From the provider's file to wireguard-go, through the rewriter: understood
      exactly when the file itself is, and then the device is the file's own, with
      a keepalive on its last peer when the file sets none. */
  lemma NormalisedReadsBack(src: string, w: Wording, resolve: Resolver, text: string, addrs: seq<string>)
    requires B.OneLine(resolve) && Translated(Statements(Normalised(src, w)), resolve) == Ok((text, addrs))
    ensures var es := Statements(src); var d := B.FileDevice(es, resolve);
      && addrs == FlatMap(es, B.AddressItems)
      && (B.Standing(es, resolve) == B.Inside <==> B.PhaseAfter(es) == B.Inside && B.AllWellValued(es, resolve))
      && (B.Standing(es, resolve) == B.Inside ==> d.peers != [])
      && P.ReadText(text)
         == if B.Standing(es, resolve) == B.Inside then Some(KeptAlive(d, Sets(es, KeepaliveKey))) else None
  {
    hide Normalised, Translated, Sets, KeepaliveText25, P.ReadText, Statement, B.AddressItems;
    hide B.OneLine, B.FileDevice, B.PhaseAfter, B.AllWellValued, B.Stands, Split, Effective;
    NormalisingCommutes(src, w, resolve);
    var es := Statements(src);
    var (plain, places) := Translated(es, resolve).value;
    B.ReadsBack(es, resolve, plain, places);
    KeepaliveStands(plain, B.Standing(es, resolve), B.FileDevice(es, resolve));
    assert plain + "" == plain;
  }
}
