/** Files in perfect order that translate without an error into text the protocol
    refuses, because of one value. */
module Misvalued {
  import opened Prelude
  import opened Decimal
  import opened Text
  import opened Meaning
  import opened WgConf
  import opened Keys
  import opened Values
  import opened Uapi
  import opened ReadBack
  import P = Protocol
  import Commute

  lemma SettingClass(k: string, v: string)
    requires KeyText(k) && v != [] && Trimmed(v) && '\n' !in v
    ensures var e := Setting(k, v);
      Statement(e) && !IsPeer(e) && ClassOf(e) == Classify(Lower(k)) && ValueOf(e) == v
  {
    SettingParts(k, v);
    hide Statement, Cut, Trim, Lower, Classify;
    assert Setting(k, v)[0] == k[0];
  }

  lemma HeaderOpens()
    ensures Statement("[Peer]") && EffectOf("[Peer]") == Opens
  {
    PeerHeader();
    hide Statement, Lower;
    var e := "[Peer]";
    assert |e| == 6 && e[0] == '[' && e[1] == 'P' && e[2] == 'e' && e[3] == 'e' && e[4] == 'r' && e[5] == ']';
    assert IsPeer(e);
  }

  /** A public key line as a provider writes it. */
  function KeyLine(k: seq<Byte>): string
  {
    Setting("PublicKey", Encode64(k))
  }

  lemma ClassOfKey()
    ensures Classify("publickey") == Means(P.PublicKey)
  {
    assert |"publickey"| == 9 && |"privatekey"| == 10 && |"listenport"| == 10 && |"address"| == 7;
  }

  lemma EncodedIsText(k: seq<Byte>)
    requires |k| == 32
    ensures Encode64(k) != [] && Trimmed(Encode64(k)) && '\n' !in Encode64(k)
  {
    EncodedIsVisible(k);
    EqualsIsVisible();
    hide IsSpace;
    assert Encode64(k) != [];
  }

  lemma KeyNames(k: seq<Byte>, resolve: Resolver)
    requires |k| == 32
    ensures Statement(KeyLine(k)) && EffectOf(KeyLine(k)) == Names && Usable(KeyLine(k), resolve)
  {
    EncodedIsText(k);
    PublicKeyText();
    KeyRoundTrip(k);
    ClassOfKey();
    hide Statement, Lower, Trimmed, KeyText, Setting, Encode64, KeyToHex, Classify, IsPeer, ClassOf, ValueOf;
    SettingClass("PublicKey", Encode64(k));
  }

  /** A peer with its key, and one setting more. */
  function PeerFile(k: seq<Byte>, e: string): seq<string>
  {
    ["[Peer]", KeyLine(k), e]
  }

  lemma PeerFilePhase(k: seq<Byte>, e: string, resolve: Resolver)
    requires |k| == 32 && EffectOf(e) == ForPeer
    ensures PhaseAfter(PeerFile(k, e)) == Inside
  {
    HeaderOpens();
    KeyNames(k, resolve);
    hide EffectOf, KeyLine, Statement, Usable;
    var es := PeerFile(k, e);
    assert es[..2] == ["[Peer]", KeyLine(k)] && es[..2][..1] == ["[Peer]"] && es[..2][..1][..0] == [];
    assert PhaseAfter([]) == Before;
    assert PhaseAfter(["[Peer]"]) == Unnamed;
    assert PhaseAfter(es[..2]) == Inside;
  }

  /** One setting in its place with a value the protocol does not take: the file is
      in order, translates, and is refused. */
  lemma InOrderButRefused(k: seq<Byte>, e: string, resolve: Resolver)
    requires |k| == 32 && Statement(e) && EffectOf(e) == ForPeer && Usable(e, resolve) && OneLine(resolve)
    requires !WellValued(e, resolve)
    ensures var es := PeerFile(k, e);
      && PhaseAfter(es) == Inside && Translated(es, resolve).Ok?
      && P.ReadText(Translated(es, resolve).value.0) == None
  {
    HeaderOpens();
    KeyNames(k, resolve);
    PeerFilePhase(k, e, resolve);
    var es := PeerFile(k, e);
    HeaderIsUsable(resolve);
    hide EffectOf, KeyLine, Statement, Usable, WellValued, OneLine, Translated, PhaseAfter, FileDevice, AddressItems, P.ReadText;
    hide Stands, IsPeer;
    assert e in es && forall x :: x in es ==> x in {"[Peer]", KeyLine(k), e};
    assert "[Peer]" in es;
    TranslatesExactly(es, resolve);
    var (text, addrs) := Translated(es, resolve).value;
    ReadsBack(es, resolve, text, addrs);
  }

  lemma HeaderIsUsable(resolve: Resolver)
    ensures IsPeer("[Peer]") && Usable("[Peer]", resolve)
  {
    HeaderOpens();
    OpensIsPeer("[Peer]");
  }

  lemma OpensIsPeer(e: string)
    requires EffectOf(e) == Opens
    ensures IsPeer(e)
  {
    hide IsPeer, ClassOf, IsAtoi, ValueOf, Items;
  }

  lemma MinusOne()
    ensures IsAtoi("-1") && !IsUint16("-1") && Trimmed("-1") && '\n' !in "-1"
  {
    var s := "-1";
    assert s[0] == '-' && s[1..] == ['1'];
    assert ['1'][..0] == [];
    assert Value(['1']) == 1;
    assert !IsDigit('-') && '-' in s;
  }

  /** A negative keepalive is an integer, so translation writes it. */
  lemma NegativeKeepalive(k: seq<Byte>, resolve: Resolver)
    requires |k| == 32 && OneLine(resolve)
    ensures var es := PeerFile(k, Setting("PersistentKeepalive", "-1"));
      && PhaseAfter(es) == Inside && Translated(es, resolve).Ok?
      && P.ReadText(Translated(es, resolve).value.0) == None
  {
    MinusOne();
    KeepaliveText();
    KeepaliveLower();
    Commute.KeepaliveClass();
    hide Statement, Lower, Trimmed, KeyText, Setting, Classify, IsPeer, ClassOf, ValueOf, IsAtoi, IsUint16;
    hide Translated, PhaseAfter, P.ReadText, OneLine, PeerFile;
    SettingClass("PersistentKeepalive", "-1");
    InOrderButRefused(k, Setting("PersistentKeepalive", "-1"), resolve);
  }

  lemma AllowedText()
    ensures KeyText("AllowedIPs") && Lower("AllowedIPs") == "allowedips"
  {
  }

  lemma AllowedClass()
    ensures Classify("allowedips") == Means(P.AllowedIp)
  {
    assert "allowedips"[1] == 'l' && "allowedips"[0] == 'a';
    assert "privatekey"[0] == 'p' && "listenport"[0] == 'l' && "address"[1] == 'd' && "publickey"[0] == 'p' && "presharedkey"[0] == 'p'
      && "endpoint"[0] == 'e';
  }

  lemma BareAddress()
    ensures var s := "10.64.0.1"; Trimmed(s) && '\n' !in s && ',' !in s && '/' !in s && s != ""
  {
  }

  lemma OneItem(s: string)
    requires Trimmed(s) && s != "" && ',' !in s
    ensures Items(s) == [s]
  {
    CutParts(s, ',');
    TrimTrimmed(s);
    hide Trim;
    FlatMapOne(s, Item);
    assert Split(s, ',') == [s];
  }

  lemma NoSlashNoPrefix(s: string)
    requires '/' !in s
    ensures !IsPrefix(s)
  {
    CutParts(s, '/');
  }

  lemma AllowedSetting(s: string, resolve: Resolver)
    requires Trimmed(s) && s != "" && '\n' !in s && ',' !in s && '/' !in s
    ensures var e := Setting("AllowedIPs", s);
      Statement(e) && EffectOf(e) == ForPeer && Usable(e, resolve) && !WellValued(e, resolve)
  {
    AllowedText();
    AllowedClass();
    OneItem(s);
    NoSlashNoPrefix(s);
    hide Statement, Lower, Trimmed, KeyText, Setting, Classify, IsPeer, ClassOf, ValueOf, IsPrefix, Items;
    SettingClass("AllowedIPs", s);
    assert s in [s];
  }

  /** An allowed address without a prefix length is not looked at. */
  lemma AddressWithoutLength(k: seq<Byte>, resolve: Resolver)
    requires |k| == 32 && OneLine(resolve)
    ensures var es := PeerFile(k, Setting("AllowedIPs", "10.64.0.1"));
      && PhaseAfter(es) == Inside && Translated(es, resolve).Ok?
      && P.ReadText(Translated(es, resolve).value.0) == None
  {
    hide *;
    BareAddress();
    AllowedSetting("10.64.0.1", resolve);
    InOrderButRefused(k, Setting("AllowedIPs", "10.64.0.1"), resolve);
  }
}
