/** What wireguard-go is told, in the file's own words: each key by its name, each
    peer by its section. */
module Said {
  import opened Prelude
  import opened Text
  import opened Words
  import opened Keys
  import opened Values
  import opened Uapi
  import opened ReadBack
  import P = Protocol

  /** The line is [Peer], in any case. */
  predicate PeerLine(e: string)
  {
    Lower(e) == "[peer]"
  }

  /** The last value of a key that is an unsigned number of 16 bits. */
  function LastNumber(es: seq<string>, key: string): Option<string>
  {
    if es == [] then None
    else if SetsKey(es[|es| - 1], key) && IsUint16(ValueOf(es[|es| - 1])) then Some(ValueOf(es[|es| - 1]))
    else LastNumber(es[..|es| - 1], key)
  }

  /** All entries of the lists a key is given, in order. */
  function Entries(es: seq<string>, key: string): seq<string>
  {
    if es == [] then []
    else Entries(es[..|es| - 1], key) + if SetsKey(es[|es| - 1], key) then Items(ValueOf(es[|es| - 1])) else []
  }

  /** The statements of each peer's section, headers left out. */
  function Sections(es: seq<string>): seq<seq<string>>
  {
    if es == [] then [] else Sectioned(Sections(es[..|es| - 1]), es[|es| - 1])
  }

  function Sectioned(ss: seq<seq<string>>, e: string): seq<seq<string>>
  {
    if PeerLine(e) then ss + [[]]
    else if ss == [] then []
    else ss[..|ss| - 1] + [ss[|ss| - 1] + [e]]
  }

  /** The key is the hex of the one the text gives, and there is none where none is given. */
  predicate KeyIs(said: Option<string>, key: Option<string>)
  {
    match said
    case None => key == None
    case Some(v) => key.Some? && KeyToHex(v) == Ok(key.value)
  }

  predicate EndpointIs(said: Option<string>, endpoint: Option<string>, resolve: Resolver)
  {
    match said
    case None => endpoint == None
    case Some(v) => endpoint.Some? && resolve(v) == Ok(endpoint.value)
  }

  /** The peer is the one its section describes. */
  predicate PeerSays(p: P.Peer, rest: seq<string>, resolve: Resolver)
  {
    && KeyIs(LastValue(rest, "publickey"), Some(p.publicKey))
    && KeyIs(LastValue(rest, "presharedkey"), p.presharedKey)
    && EndpointIs(LastValue(rest, "endpoint"), p.endpoint, resolve)
    && p.allowed == Entries(rest, "allowedips")
    && p.keepalive == LastNumber(rest, "persistentkeepalive")
  }

  /** A section that has said nothing of its peer yet. */
  predicate Bare(rest: seq<string>)
  {
    && LastValue(rest, "publickey") == None && LastValue(rest, "presharedkey") == None
    && LastValue(rest, "endpoint") == None && Entries(rest, "allowedips") == []
    && LastNumber(rest, "persistentkeepalive") == None
  }

  predicate PeersSay(peers: seq<P.Peer>, ss: seq<seq<string>>, resolve: Resolver)
    requires |peers| <= |ss|
  {
    forall i :: 0 <= i < |peers| ==> PeerSays(peers[i], ss[i], resolve)
  }

  predicate DeviceSays(d: P.Device, es: seq<string>)
  {
    KeyIs(LastValue(es, "privatekey"), d.privateKey) && d.port == LastNumber(es, "listenport")
  }

  /** The device is what the statements say, as far as they are in order. */
  ghost predicate SaysSoFar(d: P.Device, es: seq<string>, p: Phase, resolve: Resolver)
  {
    var ss := Sections(es);
    && DeviceSays(d, es)
    && |ss| == |d.peers| + (if p == Unnamed then 1 else 0)
    && PeersSay(d.peers, ss, resolve)
    && (p == Before ==> ss == []) && (p == Unnamed ==> Bare(ss[|ss| - 1])) && (p == Inside ==> ss != [])
  }

  // Words and classes

  /** The eight names are eight different words. */
  lemma ClassifyByName(key: string)
    ensures Classify(key) == Means(P.PrivateKey) <==> key == "privatekey"
    ensures Classify(key) == Means(P.ListenPort) <==> key == "listenport"
    ensures Classify(key) == Address <==> key == "address"
    ensures Classify(key) == Means(P.PublicKey) <==> key == "publickey"
    ensures Classify(key) == Means(P.PresharedKey) <==> key == "presharedkey"
    ensures Classify(key) == Means(P.Endpoint) <==> key == "endpoint"
    ensures Classify(key) == Means(P.AllowedIp) <==> key == "allowedips"
    ensures Classify(key) == Means(P.Keepalive) <==> key == "persistentkeepalive"
  {
    assert |"privatekey"| == 10 && |"listenport"| == 10 && |"address"| == 7 && |"publickey"| == 9 && |"presharedkey"| == 12
      && |"endpoint"| == 8 && |"allowedips"| == 10 && |"persistentkeepalive"| == 19;
    assert "privatekey"[0] == 'p' && "listenport"[0] == 'l' && "allowedips"[0] == 'a';
  }

  /** A statement that is no header is of the class its key names. */
  lemma ClassByWord(e: string, key: string, k: Known)
    requires Statement(e) && !IsPeer(e) && key != [] && key[0] != '[' && k != Other
    requires forall x :: Classify(x) == k <==> x == key
    ensures ClassOf(e) == k <==> SetsKey(e, key)
  {
    if e[0] == '[' {
      assert ClassOf(e) == Other;
      if SetsKey(e, key) {
        BracketSetsNoKey(e, key);
      }
    } else {
      hide Classify, Trim, Lower;
    }
  }

  lemma PeerByWord(e: string)
    ensures IsPeer(e) <==> PeerLine(e)
  {
    var w := "[peer]";
    assert |w| == 6 && w[0] == '[' && w[1] == 'p' && w[2] == 'e' && w[3] == 'e' && w[4] == 'r' && w[5] == ']';
    if IsPeer(e) {
      assert forall i :: 0 <= i < 6 ==> LowerChar(e[i]) == w[i];
    }
    if PeerLine(e) {
      assert |Lower(e)| == |e|;
      assert forall i :: 0 <= i < 6 ==> Lower(e)[i] == LowerChar(e[i]) == w[i];
    }
  }

  lemma PeerSetsNoKey(e: string, key: string)
    requires IsPeer(e)
    ensures !SetsKey(e, key)
  {
    CutParts(e, '=');
  }

  /** The statement's class is decided by its key, name by name. */
  ghost predicate ByName(e: string)
  {
    && (ClassOf(e) == Means(P.PrivateKey) <==> SetsKey(e, "privatekey"))
    && (ClassOf(e) == Means(P.ListenPort) <==> SetsKey(e, "listenport"))
    && (ClassOf(e) == Address <==> SetsKey(e, "address"))
    && (ClassOf(e) == Means(P.PublicKey) <==> SetsKey(e, "publickey"))
    && (ClassOf(e) == Means(P.PresharedKey) <==> SetsKey(e, "presharedkey"))
    && (ClassOf(e) == Means(P.Endpoint) <==> SetsKey(e, "endpoint"))
    && (ClassOf(e) == Means(P.AllowedIp) <==> SetsKey(e, "allowedips"))
    && (ClassOf(e) == Means(P.Keepalive) <==> SetsKey(e, "persistentkeepalive"))
  }

  lemma ClassWords(e: string)
    requires Statement(e) && !IsPeer(e)
    ensures ByName(e)
  {
    forall x
      ensures Classify(x) == Means(P.PrivateKey) <==> x == "privatekey"
      ensures Classify(x) == Means(P.ListenPort) <==> x == "listenport"
      ensures Classify(x) == Address <==> x == "address"
      ensures Classify(x) == Means(P.PublicKey) <==> x == "publickey"
      ensures Classify(x) == Means(P.PresharedKey) <==> x == "presharedkey"
      ensures Classify(x) == Means(P.Endpoint) <==> x == "endpoint"
      ensures Classify(x) == Means(P.AllowedIp) <==> x == "allowedips"
      ensures Classify(x) == Means(P.Keepalive) <==> x == "persistentkeepalive"
    {
      ClassifyByName(x);
    }
    hide Statement, IsPeer, ClassOf, SetsKey, Classify;
    ClassByWord(e, "privatekey", Means(P.PrivateKey));
    ClassByWord(e, "listenport", Means(P.ListenPort));
    ClassByWord(e, "address", Address);
    ClassByWord(e, "publickey", Means(P.PublicKey));
    ClassByWord(e, "presharedkey", Means(P.PresharedKey));
    ClassByWord(e, "endpoint", Means(P.Endpoint));
    ClassByWord(e, "allowedips", Means(P.AllowedIp));
    ClassByWord(e, "persistentkeepalive", Means(P.Keepalive));
  }

  // One statement more

  lemma LastNumberSnoc(es: seq<string>, e: string, key: string)
    ensures LastNumber(es + [e], key)
         == if SetsKey(e, key) && IsUint16(ValueOf(e)) then Some(ValueOf(e)) else LastNumber(es, key)
  {
    hide SetsKey, IsUint16;
    assert (es + [e])[..|es|] == es;
  }

  lemma EntriesSnoc(es: seq<string>, e: string, key: string)
    ensures Entries(es + [e], key) == Entries(es, key) + if SetsKey(e, key) then Items(ValueOf(e)) else []
  {
    hide SetsKey, Items;
    assert (es + [e])[..|es|] == es;
  }

  lemma SectionsSnoc(es: seq<string>, e: string)
    ensures Sections(es + [e]) == Sectioned(Sections(es), e)
  {
    hide PeerLine;
    assert (es + [e])[..|es|] == es;
  }

  /** Every number of 16 bits is an integer. */
  lemma UintIsAtoi(s: string)
    requires IsUint16(s)
    ensures IsAtoi(s)
  {
    assert s[0] in s;
  }

  /** A statement of this effect keeps the device's description. */
  lemma DeviceStaysSaid(d: P.Device, es: seq<string>, e: string)
    requires DeviceSays(d, es) && (ByName(e) || IsPeer(e)) && EffectOf(e) != ForDevice
    ensures DeviceSays(d, es + [e])
  {
    hide SetsKey, ClassOf, IsUint16, IsAtoi, LastValue, LastNumber, Items, ValueOf, KeyIs;
    LastValueSnoc(es, e, "privatekey");
    LastNumberSnoc(es, e, "listenport");
    if IsPeer(e) {
      PeerSetsNoKey(e, "privatekey");
      PeerSetsNoKey(e, "listenport");
    } else if IsUint16(ValueOf(e)) {
      UintIsAtoi(ValueOf(e));
    }
  }

  lemma DeviceSetSaid(d: P.Device, es: seq<string>, e: string, resolve: Resolver)
    requires DeviceSays(d, es) && ByName(e) && !IsPeer(e) && EffectOf(e) == ForDevice
    requires Usable(e, resolve) && WellValued(e, resolve)
    ensures DeviceSays(MeansForDevice(d, e), es + [e])
  {
    hide SetsKey, ClassOf, IsUint16, IsAtoi, LastValue, LastNumber, Items, ValueOf, KeyToHex, IsPeer;
    LastValueSnoc(es, e, "privatekey");
    LastNumberSnoc(es, e, "listenport");
  }

  lemma BareStays(rest: seq<string>, e: string)
    requires Bare(rest) && ByName(e) && !IsPeer(e) && EffectOf(e) == Quiet
    ensures Bare(rest + [e])
  {
    hide SetsKey, ClassOf, IsUint16, IsAtoi, LastValue, LastNumber, Entries, Items, ValueOf, IsPeer;
    LastValueSnoc(rest, e, "publickey");
    LastValueSnoc(rest, e, "presharedkey");
    LastValueSnoc(rest, e, "endpoint");
    EntriesSnoc(rest, e, "allowedips");
    LastNumberSnoc(rest, e, "persistentkeepalive");
    if IsUint16(ValueOf(e)) {
      UintIsAtoi(ValueOf(e));
    }
  }

  lemma PeerNamedSaid(rest: seq<string>, e: string, resolve: Resolver)
    requires Bare(rest) && ByName(e) && !IsPeer(e) && EffectOf(e) == Names && Usable(e, resolve)
    ensures PeerSays(P.NewPeer(HexOf(e)), rest + [e], resolve)
  {
    hide SetsKey, ClassOf, IsUint16, IsAtoi, LastValue, LastNumber, Entries, Items, ValueOf, IsPeer, KeyToHex;
    LastValueSnoc(rest, e, "publickey");
    LastValueSnoc(rest, e, "presharedkey");
    LastValueSnoc(rest, e, "endpoint");
    EntriesSnoc(rest, e, "allowedips");
    LastNumberSnoc(rest, e, "persistentkeepalive");
  }

  lemma PeerSetSaid(p: P.Peer, rest: seq<string>, e: string, resolve: Resolver)
    requires PeerSays(p, rest, resolve) && ByName(e) && !IsPeer(e) && EffectOf(e) in {Quiet, ForPeer}
    requires Usable(e, resolve) && WellValued(e, resolve)
    ensures PeerSays(MeansForPeer(p, e, resolve), rest + [e], resolve)
  {
    hide SetsKey, ClassOf, IsUint16, IsAtoi, LastValue, LastNumber, Entries, Items, ValueOf, IsPeer, KeyToHex;
    LastValueSnoc(rest, e, "publickey");
    LastValueSnoc(rest, e, "presharedkey");
    LastValueSnoc(rest, e, "endpoint");
    EntriesSnoc(rest, e, "allowedips");
    LastNumberSnoc(rest, e, "persistentkeepalive");
    assert p.allowed + [] == p.allowed;
    if IsUint16(ValueOf(e)) {
      UintIsAtoi(ValueOf(e));
    }
  }

  lemma QuietMeansNothing(d: P.Device, e: string, resolve: Resolver)
    requires EffectOf(e) == Quiet
    ensures MoreOf(d, e, resolve) == d
  {
    hide IsPeer, ClassOf, IsAtoi, ValueOf, IsUint16;
    assert d.peers != [] ==> Reopened(d, Open(d)) == d;
    assert d.peers != [] ==> Open(d).allowed + [] == Open(d).allowed;
  }

  // From the first statement to the last

  lemma StepOpensSaid(d: P.Device, es: seq<string>, p: Phase, e: string, resolve: Resolver)
    requires SaysSoFar(d, es, p, resolve) && EffectOf(e) == Opens && p in {Before, Inside} && IsPeer(e)
    ensures SaysSoFar(d, es + [e], Unnamed, resolve)
  {
    DeviceStaysSaid(d, es, e);
    PeerByWord(e);
    SectionsSnoc(es, e);
    BareAtFirst();
    hide DeviceSays, PeerSays, Bare, Sections, EffectOf, IsPeer, PeerLine;
  }

  lemma BareAtFirst()
    ensures Bare([])
  {
  }

  /** The last section gets its peer, or that peer its description anew. */
  lemma LastPeerSays(peers: seq<P.Peer>, ss: seq<seq<string>>, p: P.Peer, rest: seq<string>, resolve: Resolver)
    requires ss != [] && |peers| == |ss| - 1 && PeersSay(peers, ss, resolve) && PeerSays(p, rest, resolve)
    ensures PeersSay(peers + [p], ss[..|ss| - 1] + [rest], resolve)
  {
    hide PeerSays;
  }

  lemma StepNamesSaid(d: P.Device, es: seq<string>, e: string, resolve: Resolver)
    requires SaysSoFar(d, es, Unnamed, resolve) && EffectOf(e) == Names && ByName(e) && !IsPeer(e) && Usable(e, resolve)
    ensures SaysSoFar(d.(peers := d.peers + [P.NewPeer(HexOf(e))]), es + [e], Inside, resolve)
  {
    hide DeviceSays, PeersSay, PeerSays, Bare, Sections, EffectOf, IsPeer, PeerLine, ByName, Usable, HexOf;
    var ss := Sections(es);
    DeviceStaysSaid(d, es, e);
    PeerByWord(e);
    SectionsSnoc(es, e);
    PeerNamedSaid(ss[|ss| - 1], e, resolve);
    LastPeerSays(d.peers, ss, P.NewPeer(HexOf(e)), ss[|ss| - 1] + [e], resolve);
    DeviceSaysAlone(d, d.(peers := d.peers + [P.NewPeer(HexOf(e))]), es + [e]);
  }

  /** Only the key and the port matter to it. */
  lemma DeviceSaysAlone(d: P.Device, d': P.Device, es: seq<string>)
    requires d.privateKey == d'.privateKey && d.port == d'.port && DeviceSays(d, es)
    ensures DeviceSays(d', es)
  {
  }

  lemma OpenPeerSays(d: P.Device, ss: seq<seq<string>>, resolve: Resolver)
    requires d.peers != [] && |d.peers| == |ss| && PeersSay(d.peers, ss, resolve)
    ensures PeerSays(Open(d), ss[|ss| - 1], resolve) && PeersSay(d.peers[..|d.peers| - 1], ss, resolve)
  {
    hide PeerSays;
  }

  lemma StepInsideSaid(d: P.Device, es: seq<string>, e: string, resolve: Resolver)
    requires SaysSoFar(d, es, Inside, resolve) && EffectOf(e) in {Quiet, ForPeer} && ByName(e) && !IsPeer(e)
    requires Usable(e, resolve) && WellValued(e, resolve)
    ensures d.peers != [] && SaysSoFar(Reopened(d, MeansForPeer(Open(d), e, resolve)), es + [e], Inside, resolve)
  {
    hide DeviceSays, PeersSay, PeerSays, Bare, Sections, EffectOf, IsPeer, PeerLine, ByName, Usable, WellValued, MeansForPeer;
    var ss, p := Sections(es), MeansForPeer(Open(d), e, resolve);
    DeviceStaysSaid(d, es, e);
    PeerByWord(e);
    SectionsSnoc(es, e);
    OpenPeerSays(d, ss, resolve);
    PeerSetSaid(Open(d), ss[|ss| - 1], e, resolve);
    LastPeerSays(d.peers[..|d.peers| - 1], ss, p, ss[|ss| - 1] + [e], resolve);
    DeviceSaysAlone(d, Reopened(d, p), es + [e]);
  }

  lemma StepQuietSaid(d: P.Device, es: seq<string>, p: Phase, e: string, resolve: Resolver)
    requires SaysSoFar(d, es, p, resolve) && EffectOf(e) == Quiet && p in {Before, Unnamed} && ByName(e) && !IsPeer(e)
    ensures SaysSoFar(d, es + [e], p, resolve)
  {
    var ss := Sections(es);
    DeviceStaysSaid(d, es, e);
    PeerByWord(e);
    SectionsSnoc(es, e);
    if p == Unnamed {
      BareStays(ss[|ss| - 1], e);
    }
    hide DeviceSays, PeerSays, Bare, Sections, EffectOf, IsPeer, PeerLine, ByName;
  }

  lemma StepDeviceSaid(d: P.Device, es: seq<string>, e: string, resolve: Resolver)
    requires SaysSoFar(d, es, Before, resolve) && EffectOf(e) == ForDevice && ByName(e) && !IsPeer(e)
    requires Usable(e, resolve) && WellValued(e, resolve)
    ensures SaysSoFar(MeansForDevice(d, e), es + [e], Before, resolve)
  {
    DeviceSetSaid(d, es, e, resolve);
    PeerByWord(e);
    SectionsSnoc(es, e);
    DevicePeersStay(d, e);
    hide DeviceSays, PeerSays, Bare, Sections, EffectOf, IsPeer, PeerLine, ByName, Usable, WellValued, MeansForDevice;
  }

  lemma DevicePeersStay(d: P.Device, e: string)
    ensures MeansForDevice(d, e).peers == d.peers
  {
    hide ClassOf, IsAtoi, ValueOf, HexOf;
  }

  /** What one statement more means, by effect. */
  lemma MoreByEffect(d: P.Device, e: string, resolve: Resolver)
    ensures EffectOf(e) == Opens <==> IsPeer(e)
    ensures EffectOf(e) in {Opens, Quiet} ==> MoreOf(d, e, resolve) == d
    ensures EffectOf(e) == Names ==> MoreOf(d, e, resolve) == d.(peers := d.peers + [P.NewPeer(HexOf(e))])
    ensures EffectOf(e) == ForDevice && d.peers == [] ==> MoreOf(d, e, resolve) == MeansForDevice(d, e)
    ensures EffectOf(e) in {Quiet, ForPeer} && d.peers != [] ==>
        MoreOf(d, e, resolve) == Reopened(d, MeansForPeer(Open(d), e, resolve))
  {
    if EffectOf(e) == Quiet {
      QuietMeansNothing(d, e, resolve);
    }
    hide IsPeer, ClassOf, IsAtoi, ValueOf, IsUint16, HexOf, MeansForPeer, MeansForDevice, Items;
  }

  lemma StepSaid(d: P.Device, es: seq<string>, p: Phase, e: string, resolve: Resolver)
    requires SaysSoFar(d, es, p, resolve) && p != Wrong && Advance(p, EffectOf(e)) != Wrong && Statement(e)
    requires Usable(e, resolve) && WellValued(e, resolve)
    ensures SaysSoFar(MoreOf(d, e, resolve), es + [e], Advance(p, EffectOf(e)), resolve)
  {
    MoreByEffect(d, e, resolve);
    PeerCountSaid(d, es, p, resolve);
    if !IsPeer(e) {
      ClassWords(e);
    }
    hide SaysSoFar, EffectOf, MoreOf, IsPeer, ByName, Usable, WellValued, Statement;
    match EffectOf(e)
    case Opens => StepOpensSaid(d, es, p, e, resolve);
    case Names => StepNamesSaid(d, es, e, resolve);
    case ForDevice => StepDeviceSaid(d, es, e, resolve);
    case ForPeer => StepInsideSaid(d, es, e, resolve);
    case Quiet =>
      if p == Inside {
        StepInsideSaid(d, es, e, resolve);
      } else {
        StepQuietSaid(d, es, p, e, resolve);
      }
  }

  lemma PeerCountSaid(d: P.Device, es: seq<string>, p: Phase, resolve: Resolver)
    requires SaysSoFar(d, es, p, resolve)
    ensures (p == Before ==> d.peers == []) && (p == Inside ==> d.peers != [])
  {
  }

  lemma {:induction false} FileSays(es: seq<string>, resolve: Resolver)
    requires forall e :: e in es ==> Statement(e) && Usable(e, resolve) && WellValued(e, resolve)
    requires PhaseAfter(es) != Wrong
    ensures SaysSoFar(FileDevice(es, resolve), es, PhaseAfter(es), resolve)
  {
    hide Statement, Usable, WellValued, EffectOf, MoreOf, SaysSoFar;
    if es == [] {
      NothingSaidYet(resolve);
    } else {
      var before, e := es[..|es| - 1], es[|es| - 1];
      assert es == before + [e] && e in es && forall x :: x in before ==> x in es;
      FileSays(before, resolve);
      StepSaid(FileDevice(before, resolve), before, PhaseAfter(before), e, resolve);
    }
  }

  lemma NothingSaidYet(resolve: Resolver)
    ensures SaysSoFar(P.NoDevice, [], Before, resolve)
  {
  }

  lemma {:induction false} AddressesSaid(es: seq<string>)
    requires forall e :: e in es ==> Statement(e)
    ensures FlatMap(es, AddressItems) == Entries(es, "address")
  {
    hide Statement, AddressItems, SetsKey, Items, ValueOf;
    if es != [] {
      var before, e := es[..|es| - 1], es[|es| - 1];
      assert es == before + [e] && e in es && forall x :: x in before ==> x in es;
      AddressesSaid(before);
      FlatMapConcat(before, [e], AddressItems);
      FlatMapOne(e, AddressItems);
      EntriesSnoc(before, e, "address");
      AddressSaid(e);
    }
  }

  lemma AddressSaid(e: string)
    requires Statement(e)
    ensures AddressItems(e) == if SetsKey(e, "address") then Items(ValueOf(e)) else []
  {
    if IsPeer(e) {
      PeerSetsNoKey(e, "address");
    } else {
      ClassWords(e);
      hide Statement, IsPeer, ClassOf, SetsKey, Items, ValueOf;
    }
  }

  /** What wireguard-go makes of its text is what the file says, word for word: the
      private key of the last PrivateKey, the port of the last ListenPort that is
      one, a peer for each [Peer] section in order with that section's keys,
      endpoint, allowed addresses and keepalive; and the interface gets the entries
      of every Address. */
  lemma TextSays(es: seq<string>, resolve: Resolver, text: string, addrs: seq<string>, d: P.Device)
    requires (forall e :: e in es ==> Statement(e)) && OneLine(resolve) && Translated(es, resolve) == Ok((text, addrs))
    requires P.ReadText(text) == Some(d)
    ensures KeyIs(LastValue(es, "privatekey"), d.privateKey)
    ensures d.port == LastNumber(es, "listenport")
    ensures |d.peers| == |Sections(es)| && PeersSay(d.peers, Sections(es), resolve)
    ensures addrs == Entries(es, "address")
  {
    hide Statement, OneLine, Translated, FileDevice, PhaseAfter, Usable, WellValued, P.ReadText, Stands, AddressItems;
    ReadsBack(es, resolve, text, addrs);
    AddressesSaid(es);
    TranslatesExactly(es, resolve);
    FileSays(es, resolve);
  }

  /** So a private key written as base64 arrives as itself. */
  lemma PrivateKeyArrives(
    es: seq<string>, resolve: Resolver, text: string, addrs: seq<string>, d: P.Device, k: seq<Byte>)
    requires (forall e :: e in es ==> Statement(e)) && OneLine(resolve) && Translated(es, resolve) == Ok((text, addrs))
    requires P.ReadText(text) == Some(d) && |k| == 32 && LastValue(es, "privatekey") == Some(Encode64(k))
    ensures d.privateKey == Some(Hex(k)) && UnHex(Hex(k)) == k
  {
    hide Statement, OneLine, Translated, P.ReadText, LastValue, LastNumber, Sections, Entries, KeyToHex, Encode64, PeersSay;
    TextSays(es, resolve, text, addrs, d);
    KeyRoundTrip(k);
  }

  /** And so do a peer's keys. */
  lemma PeerKeysArrive(p: P.Peer, rest: seq<string>, resolve: Resolver, k: seq<Byte>)
    requires PeerSays(p, rest, resolve) && |k| == 32
    ensures LastValue(rest, "publickey") == Some(Encode64(k)) ==> p.publicKey == Hex(k)
    ensures LastValue(rest, "presharedkey") == Some(Encode64(k)) ==> p.presharedKey == Some(Hex(k))
  {
    hide LastValue, LastNumber, Entries, KeyToHex, Encode64;
    KeyRoundTrip(k);
  }

  // What one statement writes

  lemma LineIs(n: P.Name, val: string)
    ensures P.Line(n, val) + ['\n'] == (
      match n
      case PrivateKey => "private_key="
      case ListenPort => "listen_port="
      case PublicKey => "public_key="
      case PresharedKey => "preshared_key="
      case Endpoint => "endpoint="
      case AllowedIp => "allowed_ip="
      case Keepalive => "persistent_keepalive_interval=") + val + "\n"
  {
    assert P.Spelled(n) + ['='] + val + ['\n'] == P.Spelled(n) + ("=" + val + "\n");
  }

  /** The text grows by this, and nothing else changes. */
  predicate Adds(o: Out, o': Out, text: string)
  {
    o' == o.(text := o.text + text)
  }

  function Allowing(item: string): string
  {
    "allowed_ip=" + item + "\n"
  }

  lemma {:induction false} AllowedText(items: seq<string>)
    ensures Unlines(AllowedLines(items)) == FlatMap(items, Allowing)
  {
    if items != [] {
      AllowedText(items[1..]);
      assert AllowedLines(items) == [P.Line(P.AllowedIp, items[0])] + AllowedLines(items[1..]);
      LineIs(P.AllowedIp, items[0]);
    }
  }

  lemma PeerWritesNoKey(e: string)
    requires IsPeer(e)
    ensures forall key :: !SetsKey(e, key)
  {
    forall key
      ensures !SetsKey(e, key)
    {
      PeerSetsNoKey(e, key);
    }
  }

  lemma SettingWritten(o: Out, k: Known, v: string, resolve: Resolver, o': Out)
    requires EmitSetting(o, k, v, resolve) == Ok(o')
    ensures match k
      case Means(PrivateKey) => KeyToHex(v).Ok? && Adds(o, o', "private_key=" + KeyToHex(v).value + "\n")
      case Means(ListenPort) => Adds(o, o', if IsAtoi(v) then "listen_port=" + v + "\n" else "")
      case Address => o' == o.(addrs := o.addrs + Items(v))
      case Means(PublicKey) => KeyToHex(v).Ok? && Adds(o, o', KeyToHex(v).value + "\n")
      case Means(PresharedKey) => KeyToHex(v).Ok? && Adds(o, o', "preshared_key=" + KeyToHex(v).value + "\n")
      case Means(Endpoint) => resolve(v).Ok? && Adds(o, o', "endpoint=" + resolve(v).value + "\n")
      case Means(AllowedIp) => Adds(o, o', FlatMap(Items(v), Allowing))
      case Means(Keepalive) => Adds(o, o', if IsAtoi(v) then "persistent_keepalive_interval=" + v + "\n" else "")
      case Other => o' == o
  {
    hide KeyToHex, IsAtoi, Items, P.Line;
    assert o.text + "" == o.text;
    match k
    case Means(n) =>
      if n == P.AllowedIp {
        AllowedText(Items(v));
      } else {
        LineIs(n, if n == P.Endpoint && resolve(v).Ok? then resolve(v).value else if KeyToHex(v).Ok? then KeyToHex(v).value else v);
        LineIs(n, v);
      }
    case _ =>
  }

  /** The statement is one of the eight settings. */
  predicate SetsAny(e: string)
  {
    || SetsKey(e, "privatekey") || SetsKey(e, "listenport") || SetsKey(e, "address") || SetsKey(e, "publickey")
    || SetsKey(e, "presharedkey") || SetsKey(e, "endpoint") || SetsKey(e, "allowedips") || SetsKey(e, "persistentkeepalive")
  }

  /** What a statement writes, letter for letter. */
  lemma Written(o: Out, e: string, resolve: Resolver, o': Out)
    requires Statement(e) && Emit(o, e, resolve) == Ok(o')
    ensures var v := ValueOf(e);
      && (PeerLine(e) ==> o' == Out(o.text + "public_key=", o.addrs, true))
      && (SetsKey(e, "privatekey") ==> KeyToHex(v).Ok? && Adds(o, o', "private_key=" + KeyToHex(v).value + "\n"))
      && (SetsKey(e, "listenport") ==> Adds(o, o', if IsAtoi(v) then "listen_port=" + v + "\n" else ""))
      && (SetsKey(e, "address") ==> o' == o.(addrs := o.addrs + Items(v)))
      && (SetsKey(e, "publickey") ==> KeyToHex(v).Ok? && Adds(o, o', KeyToHex(v).value + "\n"))
      && (SetsKey(e, "presharedkey") ==> KeyToHex(v).Ok? && Adds(o, o', "preshared_key=" + KeyToHex(v).value + "\n"))
      && (SetsKey(e, "endpoint") ==> resolve(v).Ok? && Adds(o, o', "endpoint=" + resolve(v).value + "\n"))
      && (SetsKey(e, "allowedips") ==> Adds(o, o', FlatMap(Items(v), Allowing)))
      && (SetsKey(e, "persistentkeepalive") ==>
            Adds(o, o', if IsAtoi(v) then "persistent_keepalive_interval=" + v + "\n" else ""))
      && (!PeerLine(e) && !SetsAny(e) ==> o' == o)
  {
    var v := ValueOf(e);
    PeerByWord(e);
    if IsPeer(e) {
      PeerWritesNoKey(e);
    } else {
      ClassWords(e);
      EmitByClass(o, e, resolve);
      hide Emit, Statement, IsPeer, PeerLine, ClassOf, SetsKey, KeyToHex, ValueOf, IsAtoi, Items, P.Line, AllowedLines;
      SettingWritten(o, ClassOf(e), v, resolve, o');
    }
  }

  // Errors

  /** The error is this statement's: a key that is none, by its name, or an endpoint
      that does not resolve. */
  predicate ErrorOf(e: string, resolve: Resolver, x: UapiError)
  {
    var v := ValueOf(e);
    || (SetsKey(e, "privatekey") && KeyToHex(v).Err? && x == BadKey(P.PrivateKey, KeyToHex(v).error))
    || (SetsKey(e, "publickey") && KeyToHex(v).Err? && x == BadKey(P.PublicKey, KeyToHex(v).error))
    || (SetsKey(e, "presharedkey") && KeyToHex(v).Err? && x == BadKey(P.PresharedKey, KeyToHex(v).error))
    || (SetsKey(e, "endpoint") && resolve(v).Err? && x == BadEndpoint(resolve(v).error))
  }

  /** The statement has none. */
  ghost predicate Harmless(e: string, resolve: Resolver)
  {
    forall x :: !ErrorOf(e, resolve, x)
  }

  lemma EmitErrs(o: Out, e: string, resolve: Resolver)
    requires Statement(e)
    ensures Emit(o, e, resolve).Err? ==> ErrorOf(e, resolve, Emit(o, e, resolve).error)
    ensures Emit(o, e, resolve).Ok? ==> Harmless(e, resolve)
  {
    if IsPeer(e) {
      PeerSetsNoKey(e, "privatekey");
      PeerSetsNoKey(e, "publickey");
      PeerSetsNoKey(e, "presharedkey");
      PeerSetsNoKey(e, "endpoint");
    } else {
      ClassWords(e);
      EmitByClass(o, e, resolve);
      hide Emit, Statement, IsPeer, ClassOf, SetsKey, KeyToHex, ValueOf, IsAtoi, Items, P.Line, AllowedLines;
    }
  }

  /** The first statement with something wrong in it ends translation with its error. */
  ghost predicate FirstError(es: seq<string>, resolve: Resolver, x: UapiError)
  {
    exists i | 0 <= i < |es| :: ErrorOf(es[i], resolve, x) && forall j :: 0 <= j < i ==> Harmless(es[j], resolve)
  }

  lemma {:induction false} EmitAllErrs(o: Out, es: seq<string>, resolve: Resolver)
    requires forall e :: e in es ==> Statement(e)
    ensures EmitAll(o, es, resolve).Err? ==> FirstError(es, resolve, EmitAll(o, es, resolve).error)
    ensures EmitAll(o, es, resolve).Ok? ==> forall e :: e in es ==> Harmless(e, resolve)
    decreases |es|
  {
    hide Emit, Statement, ErrorOf, Harmless;
    if es != [] {
      var rest := es[1..];
      assert es == [es[0]] + rest && es[0] in es && forall e :: e in rest ==> e in es;
      EmitErrs(o, es[0], resolve);
      if Emit(o, es[0], resolve).Ok? {
        var o' := Emit(o, es[0], resolve).value;
        EmitAllErrs(o', rest, resolve);
        if EmitAll(o', rest, resolve).Err? {
          var x := EmitAll(o', rest, resolve).error;
          var i :| 0 <= i < |rest| && ErrorOf(rest[i], resolve, x) && forall j :: 0 <= j < i ==> Harmless(rest[j], resolve);
          assert es[i + 1] == rest[i] && forall j :: 0 < j < i + 1 ==> es[j] == rest[j - 1];
          assert ErrorOf(es[i + 1], resolve, x);
        }
      } else {
        assert ErrorOf(es[0], resolve, Emit(o, es[0], resolve).error);
      }
    }
  }

  /** Translation fails with the first error among the statements, or for want of a
      peer where there is none. */
  lemma ErrorsSaid(es: seq<string>, resolve: Resolver)
    requires (forall e :: e in es ==> Statement(e)) && Translated(es, resolve).Err?
    ensures var x := Translated(es, resolve).error;
      if x == NoPeerSection then (forall e :: e in es ==> Harmless(e, resolve) && !PeerLine(e)) else FirstError(es, resolve, x)
  {
    hide Statement, EmitAll, ErrorOf, FirstError, Harmless, Usable, IsPeer;
    EmitAllErrs(Start, es, resolve);
    UsableAll(Start, es, resolve);
    if EmitAll(Start, es, resolve).Ok? {
      forall e | e in es
        ensures !PeerLine(e)
      {
        PeerByWord(e);
      }
    } else {
      NoPeerIsNoStatement(es, resolve);
    }
  }

  lemma NoPeerIsNoStatement(es: seq<string>, resolve: Resolver)
    ensures !FirstError(es, resolve, NoPeerSection)
  {
  }
}
