/** The protocol text, read by the protocol's own rules, is the file. */
module ReadBack {
  import opened Prelude
  import opened Decimal
  import opened Text
  import opened Keys
  import opened Values
  import opened Protocol
  import opened Uapi

  // What a file means, statement by statement

  function ClassOf(e: string): Known
  {
    if "[" <= e then Other
    else
      match Cut(e, '=')
      case None => Other
      case Some((k, _)) => Classify(Lower(Trim(k)))
  }

  /** What a statement has translation write: nothing, the opening of a peer, a
      peer's public key, or settings of the device or of a peer. */
  datatype Effect = Quiet | Opens | Names | ForDevice | ForPeer

  function EffectOf(e: string): Effect
  {
    if IsPeer(e) then Opens
    else
      match ClassOf(e)
      case Means(PublicKey) => Names
      case Means(PrivateKey) => ForDevice
      case Means(ListenPort) => if IsAtoi(ValueOf(e)) then ForDevice else Quiet
      case Means(PresharedKey) => ForPeer
      case Means(Endpoint) => ForPeer
      case Means(AllowedIp) => if Items(ValueOf(e)) == [] then Quiet else ForPeer
      case Means(Keepalive) => if IsAtoi(ValueOf(e)) then ForPeer else Quiet
      case _ => Quiet
  }

  /** How far a file is in order: no peer yet, a peer opened and not named, a
      named peer, or out of order for good. */
  datatype Phase = Before | Unnamed | Inside | Wrong

  function Advance(p: Phase, x: Effect): Phase
  {
    if x == Quiet then p
    else
      match p
      case Before => if x == Opens then Unnamed else if x == ForDevice then Before else Wrong
      case Unnamed => if x == Names then Inside else Wrong
      case Inside => if x == Opens then Unnamed else if x == ForPeer then Inside else Wrong
      case Wrong => Wrong
  }

  function PhaseAfter(es: seq<string>): Phase
  {
    if es == [] then Before else Advance(PhaseAfter(es[..|es| - 1]), EffectOf(es[|es| - 1]))
  }

  /** Whatever the statement has translation write, its values are ones the
      protocol takes. Keys are, since translation checks them; numbers are only
      checked to be integers, prefixes and resolved endpoints not at all. */
  predicate WellValued(e: string, resolve: Resolver)
  {
    IsPeer(e) ||
    match ClassOf(e)
    case Means(ListenPort) => IsAtoi(ValueOf(e)) ==> IsUint16(ValueOf(e))
    case Means(Keepalive) => IsAtoi(ValueOf(e)) ==> IsUint16(ValueOf(e))
    case Means(Endpoint) => resolve(ValueOf(e)).Ok? ==> IsAddrPort(resolve(ValueOf(e)).value)
    case Means(AllowedIp) => AllPrefixes(Items(ValueOf(e)))
    case _ => true
  }

  predicate AllPrefixes(items: seq<string>)
  {
    forall a :: a in items ==> IsPrefix(a)
  }

  predicate AllWellValued(es: seq<string>, resolve: Resolver)
  {
    forall e :: e in es ==> WellValued(e, resolve)
  }

  /** How far a file is in order with every value well formed. */
  function Standing(es: seq<string>, resolve: Resolver): Phase
  {
    if AllWellValued(es, resolve) then PhaseAfter(es) else Wrong
  }

  function HexOf(e: string): string
  {
    match KeyToHex(ValueOf(e))
    case Err(_) => ""
    case Ok(h) => h
  }

  /** A later setting of the same key overrides. */
  function MeansForDevice(d: Device, e: string): Device
  {
    match ClassOf(e)
    case Means(PrivateKey) => d.(privateKey := Some(HexOf(e)))
    case Means(ListenPort) => if IsAtoi(ValueOf(e)) then d.(port := Some(ValueOf(e))) else d
    case _ => d
  }

  function MeansForPeer(p: Peer, e: string, resolve: Resolver): Peer
  {
    match ClassOf(e)
    case Means(PresharedKey) => p.(presharedKey := Some(HexOf(e)))
    case Means(Endpoint) => (match resolve(ValueOf(e)) case Err(_) => p case Ok(ep) => p.(endpoint := Some(ep)))
    case Means(AllowedIp) => p.(allowed := p.allowed + Items(ValueOf(e)))
    case Means(Keepalive) => if IsAtoi(ValueOf(e)) then p.(keepalive := Some(ValueOf(e))) else p
    case _ => p
  }

  /** The device with its open peer changed. */
  function Reopened(d: Device, p: Peer): Device
    requires d.peers != []
  {
    d.(peers := d.peers[..|d.peers| - 1] + [p])
  }

  function Open(d: Device): Peer
    requires d.peers != []
  {
    d.peers[|d.peers| - 1]
  }

  /** One statement more: a public key names a new peer, and settings go to the
      last peer, or to the device while there is none. */
  function MoreOf(d: Device, e: string, resolve: Resolver): Device
  {
    if IsPeer(e) then d
    else if ClassOf(e) == Means(PublicKey) then d.(peers := d.peers + [NewPeer(HexOf(e))])
    else if d.peers == [] then MeansForDevice(d, e)
    else Reopened(d, MeansForPeer(Open(d), e, resolve))
  }

  function FileDevice(es: seq<string>, resolve: Resolver): Device
  {
    if es == [] then NoDevice else MoreOf(FileDevice(es[..|es| - 1], resolve), es[|es| - 1], resolve)
  }

  // The text, line by line

  /** The text consists of whole lines that read as d. */
  ghost predicate Reads(text: string, d: Device)
  {
    exists ls :: IsText(text, ls) && ReadLines(NoDevice, ls) == Some(d)
  }

  predicate IsText(text: string, ls: seq<string>)
  {
    text == Unlines(ls) && forall l :: l in ls ==> '\n' !in l
  }

  lemma ReadsAs(text: string, d: Device)
    requires Reads(text, d)
    ensures ReadText(text) == Some(d)
  {
    hide ReadLines;
    var ls :| IsText(text, ls) && ReadLines(NoDevice, ls) == Some(d);
    ReadUnlines(ls);
  }

  lemma NothingReads()
    ensures Reads("", NoDevice)
  {
    assert IsText("", []) && ReadLines(NoDevice, []) == Some(NoDevice);
  }

  lemma LineReads(text: string, d: Device, n: Name, val: string, d': Device)
    requires Reads(text, d) && '\n' !in val && SetDevice(d, n, val) == Some(d')
    ensures Reads(text + (Line(n, val) + ['\n']), d')
  {
    hide SetDevice, ReadLine, ReadLines, Spelled;
    var ls :| IsText(text, ls) && ReadLines(NoDevice, ls) == Some(d);
    SpelledOnOneLine(n);
    var l := Line(n, val);
    UnlinesConcat(ls, [l]);
    UnlinesOne(l);
    ReadLinesConcat(NoDevice, ls, [l]);
    Protocol.ReadOne(d, l);
    ReadSpelled(d, n, val);
    assert IsText(text + (l + ['\n']), ls + [l]);
  }

  lemma ValueOnOneLine(e: string)
    requires Statement(e)
    ensures '\n' !in ValueOf(e)
  {
    hide Trim;
    CutParts(e, '=');
    if Cut(e, '=').Some? && '\n' in ValueOf(e) {
      TrimMembers(Cut(e, '=').value.1, '\n');
    }
  }

  lemma ItemsOnOneLine(val: string)
    requires '\n' !in val
    ensures forall a :: a in Items(val) ==> '\n' !in a
  {
    hide Trim;
    forall a | a in Items(val)
      ensures '\n' !in a
    {
      var part := FlatMapMembers(Split(val, ','), Item, a);
      if '\n' in a {
        TrimMembers(part, '\n');
        SplitMembers(val, ',', part, '\n');
      }
    }
  }

  lemma HexIsKey(val: string)
    requires KeyToHex(val).Ok?
    ensures IsKey(KeyToHex(val).value) && '\n' !in KeyToHex(val).value
  {
    SameHexSameKey(val, val);
    hide KeyToHex;
  }

  lemma EmitByClass(o: Out, e: string, resolve: Resolver)
    requires !IsPeer(e)
    ensures Emit(o, e, resolve) == EmitSetting(o, ClassOf(e), ValueOf(e), resolve)
  {
    hide IsPeer, Trim, Classify, KeyToHex, IsAtoi, Line, Lower;
  }

  /** A setting of the device, while there is no peer. */
  lemma DeviceStep(o: Out, o': Out, d: Device, e: string, resolve: Resolver)
    requires Statement(e) && EffectOf(e) == ForDevice && WellValued(e, resolve)
    requires Reads(o.text, d) && d.peers == [] && Emit(o, e, resolve) == Ok(o')
    ensures Reads(o'.text, MoreOf(d, e, resolve)) && MoreOf(d, e, resolve).peers == []
  {
    hide Statement, IsPeer, ClassOf, Reads, Emit, KeyToHex, IsAtoi, Line, Items, ValueOf, IsKey, IsUint16;
    EmitByClass(o, e, resolve);
    ValueOnOneLine(e);
    match ClassOf(e)
    case Means(PrivateKey) =>
      HexIsKey(ValueOf(e));
      LineReads(o.text, d, PrivateKey, HexOf(e), MeansForDevice(d, e));
    case Means(ListenPort) =>
      LineReads(o.text, d, ListenPort, ValueOf(e), MeansForDevice(d, e));
  }

  lemma SetOpen(d: Device, n: Name, val: string)
    requires d.peers != [] && n != PublicKey
    ensures SetDevice(d, n, val) == match SetPeer(Open(d), n, val) case None => None case Some(p) => Some(Reopened(d, p))
  {
    hide Takes;
  }

  lemma {:induction false} AllowedReads(text: string, d: Device, items: seq<string>)
    requires Reads(text, d) && d.peers != [] && forall a :: a in items ==> '\n' !in a && IsPrefix(a)
    ensures Reads(text + Unlines(AllowedLines(items)), Reopened(d, Open(d).(allowed := Open(d).allowed + items)))
    decreases |items|
  {
    hide Reads, Line, IsPrefix;
    if items == [] {
      assert text + Unlines(AllowedLines(items)) == text;
      assert Reopened(d, Open(d).(allowed := Open(d).allowed + [])) == d by {
        assert Open(d).allowed + [] == Open(d).allowed;
      }
    } else {
      var a, rest := items[0], items[1..];
      assert a in items && forall b :: b in rest ==> b in items;
      var p := Open(d).(allowed := Open(d).allowed + [a]);
      SetOpen(d, AllowedIp, a);
      LineReads(text, d, AllowedIp, a, Reopened(d, p));
      var text' := text + (Line(AllowedIp, a) + ['\n']);
      AllowedReads(text', Reopened(d, p), rest);
      AllowedFirst(items);
      assert text' + Unlines(AllowedLines(rest)) == text + Unlines(AllowedLines(items));
      assert p.allowed + rest == Open(d).allowed + items;
      assert Reopened(Reopened(d, p), p.(allowed := p.allowed + rest)) == Reopened(d, p.(allowed := p.allowed + rest));
    }
  }

  lemma AllowedFirst(items: seq<string>)
    requires items != []
    ensures Unlines(AllowedLines(items)) == (Line(AllowedIp, items[0]) + ['\n']) + Unlines(AllowedLines(items[1..]))
  {
    hide Line;
    UnlinesConcat([Line(AllowedIp, items[0])], AllowedLines(items[1..]));
    UnlinesOne(Line(AllowedIp, items[0]));
  }

  /** One entry that is no prefix spoils the whole list. */
  lemma {:induction false} AllowedSpoils(text: string, d: Device, items: seq<string>)
    requires Reads(text, d) && d.peers != [] && (forall a :: a in items ==> '\n' !in a) && !AllPrefixes(items)
    ensures Bad(text + Unlines(AllowedLines(items)))
    decreases |items|
  {
    hide Reads, Line, IsPrefix, Bad, ReadLine;
    var a, rest := items[0], items[1..];
    assert a in items && items == [a] + rest;
    AllowedFirst(items);
    SetOpen(d, AllowedIp, a);
    if IsPrefix(a) {
      var p := Open(d).(allowed := Open(d).allowed + [a]);
      LineReads(text, d, AllowedIp, a, Reopened(d, p));
      var text' := text + (Line(AllowedIp, a) + ['\n']);
      AllowedSpoils(text', Reopened(d, p), rest);
      assert text' + Unlines(AllowedLines(rest)) == text + Unlines(AllowedLines(items));
    } else {
      UntakenLine(text, d, AllowedIp, a, Unlines(AllowedLines(rest)));
      assert text + (Line(AllowedIp, a) + ['\n']) + Unlines(AllowedLines(rest)) == text + Unlines(AllowedLines(items));
    }
  }

  /** A value its name does not take spoils the text for good. */
  lemma UntakenLine(text: string, d: Device, n: Name, val: string, more: string)
    requires Reads(text, d) && '\n' !in val && !Takes(n, val)
    ensures Bad(text + (Line(n, val) + ['\n']) + more)
  {
    ReadSpelled(d, n, val);
    SpelledOnOneLine(n);
    hide Reads, Bad, ReadLine, Takes, Spelled;
    RefusedLine(text, d, Line(n, val), more);
  }

  /** A resolved endpoint is one line. */
  ghost predicate OneLine(resolve: Resolver)
  {
    forall v :: '\n' !in v && resolve(v).Ok? ==> '\n' !in resolve(v).value
  }

  /** A setting of the peer that is open. */
  lemma PeerStep(o: Out, o': Out, d: Device, e: string, resolve: Resolver)
    requires Statement(e) && EffectOf(e) == ForPeer && WellValued(e, resolve) && OneLine(resolve)
    requires Reads(o.text, d) && d.peers != [] && Emit(o, e, resolve) == Ok(o')
    ensures Reads(o'.text, MoreOf(d, e, resolve)) && MoreOf(d, e, resolve).peers != []
  {
    hide Statement, IsPeer, ClassOf, Reads, Emit, KeyToHex, IsAtoi, Line, Items, ValueOf, IsKey, AllowedLines;
    hide IsUint16, IsPrefix, IsAddrPort;
    EmitByClass(o, e, resolve);
    ValueOnOneLine(e);
    assert Reopened(d, Open(d)) == d;
    match ClassOf(e)
    case Means(PresharedKey) =>
      HexIsKey(ValueOf(e));
      SetOpen(d, PresharedKey, HexOf(e));
      LineReads(o.text, d, PresharedKey, HexOf(e), Reopened(d, MeansForPeer(Open(d), e, resolve)));
    case Means(Endpoint) =>
      var ep := resolve(ValueOf(e)).value;
      SetOpen(d, Endpoint, ep);
      LineReads(o.text, d, Endpoint, ep, Reopened(d, MeansForPeer(Open(d), e, resolve)));
    case Means(AllowedIp) =>
      ItemsOnOneLine(ValueOf(e));
      AllowedReads(o.text, d, Items(ValueOf(e)));
    case Means(Keepalive) =>
      SetOpen(d, Keepalive, ValueOf(e));
      LineReads(o.text, d, Keepalive, ValueOf(e), Reopened(d, MeansForPeer(Open(d), e, resolve)));
  }

  /** A setting in its place with a value the protocol does not take. */
  lemma SpoilingStep(o: Out, o': Out, d: Device, e: string, resolve: Resolver)
    requires Statement(e) && !WellValued(e, resolve) && OneLine(resolve)
    requires Reads(o.text, d) && Emit(o, e, resolve) == Ok(o')
    requires EffectOf(e) == if d.peers == [] then ForDevice else ForPeer
    ensures Bad(o'.text)
  {
    hide Statement, IsPeer, ClassOf, Reads, Bad, Emit, KeyToHex, IsAtoi, Line, Items, ValueOf, AllowedLines;
    hide IsUint16, IsPrefix, IsAddrPort;
    EmitByClass(o, e, resolve);
    ValueOnOneLine(e);
    var v := ValueOf(e);
    match ClassOf(e)
    case Means(ListenPort) => Spoils(o.text, o'.text, d, ListenPort, v);
    case Means(Keepalive) => Spoils(o.text, o'.text, d, Keepalive, v);
    case Means(Endpoint) => Spoils(o.text, o'.text, d, Endpoint, resolve(v).value);
    case Means(AllowedIp) =>
      ItemsOnOneLine(v);
      AllowedSpoils(o.text, d, Items(v));
  }

  lemma Spoils(text: string, text': string, d: Device, n: Name, val: string)
    requires Reads(text, d) && '\n' !in val && !Takes(n, val) && text' == text + (Line(n, val) + ['\n'])
    ensures Bad(text')
  {
    hide Reads, Bad, Takes, Line;
    UntakenLine(text, d, n, val, "");
    assert text' + "" == text';
  }

  /** A statement that writes nothing means nothing. */
  lemma QuietStep(o: Out, o': Out, d: Device, e: string, resolve: Resolver)
    requires EffectOf(e) == Quiet && Emit(o, e, resolve) == Ok(o')
    ensures o'.text == o.text && MoreOf(d, e, resolve) == d && o'.inPeer == o.inPeer && WellValued(e, resolve)
  {
    hide IsPeer, ClassOf, Emit, KeyToHex, IsAtoi, Line, ValueOf, IsUint16, IsAddrPort, IsPrefix;
    EmitByClass(o, e, resolve);
    assert d.peers != [] ==> Reopened(d, Open(d)) == d;
    if ClassOf(e) == Means(AllowedIp) {
      assert o.text + "" == o.text && AllowedLines([]) == [];
      assert d.peers != [] ==> Open(d).allowed + [] == Open(d).allowed;
    }
  }

  // Text the protocol refuses, whatever follows

  /** Whole lines and the start of one more. */
  ghost predicate Bad(text: string)
  {
    exists ls, part :: IsLinesAnd(text, ls, part) && (ReadLines(NoDevice, ls) == None || Misnamed(part))
  }

  predicate IsLinesAnd(text: string, ls: seq<string>, part: string)
  {
    text == Unlines(ls) + part && '\n' !in part && forall l :: l in ls ==> '\n' !in l
  }

  /** A public key line with an equals sign in its value. */
  predicate Misnamed(part: string)
  {
    Spelled(PublicKey) + ['='] <= part && '=' in part[|Spelled(PublicKey)| + 1..]
  }

  lemma MisnamedIsRefused(d: Device, part: string)
    requires Misnamed(part)
    ensures ReadLine(d, part) == None && part != ""
  {
    var val := part[|Spelled(PublicKey)| + 1..];
    assert part == Line(PublicKey, val);
    hide Spelled;
    ReadSpelled(d, PublicKey, val);
    EqualsIsNoDigit();
    hide ReadLine;
  }

  lemma EqualsIsNoDigit()
    ensures !IsHexDigit('=')
  {
  }

  lemma MisnamedGrows(part: string, c: char)
    requires Misnamed(part)
    ensures Misnamed(part + [c])
  {
    hide Spelled;
    var n := |Spelled(PublicKey)| + 1;
    assert (part + [c])[n..] == part[n..] + [c];
  }

  lemma BadLineEnds(ls: seq<string>, part: string)
    requires ReadLines(NoDevice, ls) == None || Misnamed(part)
    ensures ReadLines(NoDevice, ls + [part]) == None
  {
    hide ReadLines, Misnamed, ReadLine;
    ReadLinesConcat(NoDevice, ls, [part]);
    match ReadLines(NoDevice, ls)
    case None =>
    case Some(d) =>
      Protocol.ReadOne(d, part);
      MisnamedIsRefused(d, part);
  }

  lemma IsBad(text: string, ls: seq<string>, part: string)
    requires IsLinesAnd(text, ls, part) && (ReadLines(NoDevice, ls) == None || Misnamed(part))
    ensures Bad(text)
  {
  }

  lemma BadNewline(ls: seq<string>, part: string)
    requires IsLinesAnd(Unlines(ls) + part, ls, part) && (ReadLines(NoDevice, ls) == None || Misnamed(part))
    ensures Bad(Unlines(ls) + part + ['\n'])
  {
    BadLineEnds(ls, part);
    hide ReadLines, Misnamed, Bad, Unlines;
    UnlinesSnoc(ls, part);
    var text := Unlines(ls) + part + ['\n'];
    assert text == Unlines(ls + [part]) + [];
    IsBad(text, ls + [part], []);
  }

  lemma UnlinesSnoc(ls: seq<string>, part: string)
    ensures Unlines(ls + [part]) == Unlines(ls) + part + ['\n']
  {
    UnlinesConcat(ls, [part]);
    UnlinesOne(part);
    hide Unlines;
  }

  lemma BadLetter(ls: seq<string>, part: string, c: char)
    requires IsLinesAnd(Unlines(ls) + part, ls, part) && (ReadLines(NoDevice, ls) == None || Misnamed(part)) && c != '\n'
    ensures Bad(Unlines(ls) + part + [c])
  {
    if Misnamed(part) {
      MisnamedGrows(part, c);
    }
    hide ReadLines, Misnamed;
    assert Unlines(ls) + part + [c] == Unlines(ls) + (part + [c]);
    assert IsLinesAnd(Unlines(ls) + part + [c], ls, part + [c]);
  }

  lemma BadByOne(text: string, c: char)
    requires Bad(text)
    ensures Bad(text + [c])
  {
    hide ReadLines, Misnamed;
    var ls, part :| IsLinesAnd(text, ls, part) && (ReadLines(NoDevice, ls) == None || Misnamed(part));
    hide Bad;
    if c == '\n' {
      BadNewline(ls, part);
    } else {
      BadLetter(ls, part, c);
    }
  }

  lemma {:induction false} BadGrows(text: string, more: string)
    requires Bad(text)
    ensures Bad(text + more)
    decreases |more|
  {
    hide Bad;
    if more == [] {
      assert text + more == text;
    } else {
      BadByOne(text, more[0]);
      BadGrows(text + [more[0]], more[1..]);
      assert text + more == (text + [more[0]]) + more[1..];
    }
  }

  lemma {:induction false} SplitLinesAnd(ls: seq<string>, part: string)
    requires '\n' !in part && forall l :: l in ls ==> '\n' !in l
    ensures Split(Unlines(ls) + part, '\n') == ls + [part]
  {
    if ls == [] {
      CutParts(part, '\n');
      assert Unlines(ls) + part == part;
    } else {
      SplitLinesAnd(ls[1..], part);
      CutAt(ls[0], '\n', Unlines(ls[1..]) + part);
      assert Unlines(ls) + part == ls[0] + ['\n'] + (Unlines(ls[1..]) + part);
      assert ls + [part] == [ls[0]] + (ls[1..] + [part]);
    }
  }

  lemma BadIsRefused(text: string)
    requires Bad(text)
    ensures ReadText(text) == None
  {
    hide ReadLines, Misnamed;
    var ls, part :| IsLinesAnd(text, ls, part) && (ReadLines(NoDevice, ls) == None || Misnamed(part));
    SplitLinesAnd(ls, part);
    assert (ls + [part])[..|ls|] == ls;
    if Misnamed(part) {
      MisnamedIsRefused(NoDevice, part);
    }
  }

  lemma UnnamedIsRefused(base: string, d: Device)
    requires Reads(base, d)
    ensures ReadText(base + (Spelled(PublicKey) + ['='])) == None
  {
    hide ReadLines, Spelled;
    var ls :| IsText(base, ls) && ReadLines(NoDevice, ls) == Some(d);
    SpelledOnOneLine(PublicKey);
    SplitLinesAnd(ls, Spelled(PublicKey) + ['=']);
  }

  /** A line the device cannot take spoils the text for good. */
  lemma RefusedLine(text: string, d: Device, l: string, more: string)
    requires Reads(text, d) && '\n' !in l && ReadLine(d, l) == None
    ensures Bad(text + (l + ['\n']) + more)
  {
    hide ReadLine, ReadLines, Misnamed;
    var ls :| IsText(text, ls) && ReadLines(NoDevice, ls) == Some(d);
    UnlinesConcat(ls, [l]);
    UnlinesOne(l);
    ReadLinesConcat(NoDevice, ls, [l]);
    Protocol.ReadOne(d, l);
    assert text + (l + ['\n']) == Unlines(ls + [l]) + [];
    assert IsLinesAnd(text + (l + ['\n']), ls + [l], []);
    BadGrows(text + (l + ['\n']), more);
  }

  lemma MisnamedSpoils(base: string, d: Device, part: string, more: string)
    requires Reads(base, d) && Misnamed(part) && '\n' !in part
    ensures Bad(base + part + more)
  {
    hide ReadLines, Misnamed, Bad, Unlines;
    var ls :| IsText(base, ls) && ReadLines(NoDevice, ls) == Some(d);
    IsBad(base + part, ls, part);
    BadGrows(base + part, more);
  }

  lemma DoubleIsMisnamed(n: Name)
    ensures Misnamed((Spelled(PublicKey) + ['=']) + (Spelled(n) + ['=']))
    ensures '\n' !in (Spelled(PublicKey) + ['=']) + (Spelled(n) + ['='])
  {
    hide Spelled;
    SpelledOnOneLine(PublicKey);
    SpelledOnOneLine(n);
    var part := (Spelled(PublicKey) + ['=']) + (Spelled(n) + ['=']);
    assert part[|Spelled(PublicKey)| + 1..] == Spelled(n) + ['='];
  }

  /** Anything but the key itself after a peer's opening spoils it too. */
  lemma RefusedOpening(base: string, d: Device, n: Name, more: string)
    requires Reads(base, d)
    ensures Bad(base + (Spelled(PublicKey) + ['=']) + ((Spelled(n) + ['=']) + more))
  {
    hide Reads, Spelled, Misnamed, Bad;
    DoubleIsMisnamed(n);
    var part := (Spelled(PublicKey) + ['=']) + (Spelled(n) + ['=']);
    MisnamedSpoils(base, d, part, more);
    assert base + part + more == base + (Spelled(PublicKey) + ['=']) + ((Spelled(n) + ['=']) + more);
  }

  /** What a setting writes begins with a line of its own kind. */
  lemma WritesLine(o: Out, o': Out, e: string, resolve: Resolver) returns (n: Name, val: string, more: string)
    requires Statement(e) && EffectOf(e) in {ForDevice, ForPeer} && OneLine(resolve) && Emit(o, e, resolve) == Ok(o')
    ensures o'.text == o.text + (Line(n, val) + ['\n']) + more && '\n' !in val && o'.inPeer == o.inPeer
    ensures EffectOf(e) == ForDevice ==> n in {PrivateKey, ListenPort}
    ensures EffectOf(e) == ForPeer ==> n in {PresharedKey, Endpoint, AllowedIp, Keepalive}
  {
    hide Statement, IsPeer, ClassOf, Emit, KeyToHex, IsAtoi, Line, ValueOf, IsKey, Items, AllowedLines, Unlines;
    EmitByClass(o, e, resolve);
    ValueOnOneLine(e);
    var v := ValueOf(e);
    match ClassOf(e)
    case Means(PrivateKey) => HexIsKey(v); n, val, more := PrivateKey, HexOf(e), "";
    case Means(ListenPort) => n, val, more := ListenPort, v, "";
    case Means(PresharedKey) => HexIsKey(v); n, val, more := PresharedKey, HexOf(e), "";
    case Means(Endpoint) => n, val, more := Endpoint, resolve(v).value, "";
    case Means(Keepalive) => n, val, more := Keepalive, v, "";
    case Means(AllowedIp) =>
      ItemsOnOneLine(v);
      AllowedFirst(Items(v));
      assert Items(v)[0] in Items(v);
      n, val, more := AllowedIp, Items(v)[0], Unlines(AllowedLines(Items(v)[1..]));
      assert o'.text == o.text + (Line(n, val) + ['\n']) + more;
  }

  lemma WritesKey(o: Out, o': Out, e: string, resolve: Resolver)
    requires EffectOf(e) == Names && Emit(o, e, resolve) == Ok(o')
    ensures o'.text == o.text + (HexOf(e) + ['\n']) && IsKey(HexOf(e)) && '\n' !in HexOf(e) && o'.inPeer == o.inPeer
  {
    hide IsPeer, ClassOf, Emit, KeyToHex, IsAtoi, ValueOf, IsKey, Items;
    EmitByClass(o, e, resolve);
    HexIsKey(ValueOf(e));
  }

  lemma WritesOpening(o: Out, o': Out, e: string, resolve: Resolver)
    requires EffectOf(e) == Opens && Emit(o, e, resolve) == Ok(o')
    ensures IsPeer(e) && o'.text == o.text + (Spelled(PublicKey) + ['=']) && o'.inPeer
  {
    hide ClassOf, IsAtoi, ValueOf, Items, Spelled, IsPeer;
  }

  lemma KeyIsNoLine(d: Device, key: string)
    requires IsKey(key)
    ensures ReadLine(d, key) == None
  {
    EqualsIsNoDigit();
    CutParts(key, '=');
  }

  lemma WrongPlace(d: Device, n: Name, val: string)
    requires if d.peers == [] then n in {PresharedKey, Endpoint, AllowedIp, Keepalive} else n in {PrivateKey, ListenPort}
    ensures ReadLine(d, Line(n, val)) == None
  {
    hide Line, ReadLine;
    ReadSpelled(d, n, val);
  }

  // Whole files

  /** What the text so far is, phase by phase. */
  ghost predicate Stands(text: string, p: Phase, d: Device)
  {
    match p
    case Before => Reads(text, d) && d.peers == []
    case Unnamed => exists base :: Reads(base, d) && text == base + (Spelled(PublicKey) + ['='])
    case Inside => Reads(text, d) && d.peers != []
    case Wrong => Bad(text)
  }

  lemma StepNames(o: Out, o': Out, p: Phase, d: Device, e: string, resolve: Resolver)
    requires EffectOf(e) == Names && Stands(o.text, p, d) && Emit(o, e, resolve) == Ok(o')
    ensures Stands(o'.text, Advance(p, Names), MoreOf(d, e, resolve)) && o'.inPeer == o.inPeer
  {
    WritesKey(o, o', e, resolve);
    NamesMeans(d, e, resolve);
    hide *;
    NameStands(o.text, p, d, HexOf(e));
  }

  lemma NameStands(text: string, p: Phase, d: Device, h: string)
    requires Stands(text, p, d) && IsKey(h) && '\n' !in h
    ensures Stands(text + (h + ['\n']), Advance(p, Names), d.(peers := d.peers + [NewPeer(h)]))
  {
    hide IsKey, Reads, Bad, Spelled, NewPeer;
    match p
    case Wrong => BadGrows(text, h + ['\n']);
    case Unnamed =>
      var base :| Reads(base, d) && text == base + (Spelled(PublicKey) + ['=']);
      NameArrives(base, d, h);
    case _ => NameAstray(text, d, h);
  }

  lemma NameArrives(base: string, d: Device, h: string)
    requires Reads(base, d) && IsKey(h) && '\n' !in h
    ensures Reads(base + (Spelled(PublicKey) + ['=']) + (h + ['\n']), d.(peers := d.peers + [NewPeer(h)]))
  {
    hide Reads, Spelled, IsKey;
    LineReads(base, d, PublicKey, h, d.(peers := d.peers + [NewPeer(h)]));
    assert base + (Spelled(PublicKey) + ['=']) + (h + ['\n']) == base + (Line(PublicKey, h) + ['\n']);
  }

  lemma NameAstray(text: string, d: Device, h: string)
    requires Reads(text, d) && IsKey(h) && '\n' !in h
    ensures Bad(text + (h + ['\n']))
  {
    KeyIsNoLine(d, h);
    hide Reads, Bad, IsKey;
    RefusedLine(text, d, h, "");
    assert text + (h + ['\n']) + "" == text + (h + ['\n']);
  }

  lemma NamesMeans(d: Device, e: string, resolve: Resolver)
    requires EffectOf(e) == Names
    ensures MoreOf(d, e, resolve) == d.(peers := d.peers + [NewPeer(HexOf(e))])
  {
    hide IsPeer, ClassOf, IsAtoi, ValueOf, Items;
  }

  lemma StepOpens(o: Out, o': Out, p: Phase, d: Device, e: string, resolve: Resolver)
    requires EffectOf(e) == Opens && Stands(o.text, p, d) && Emit(o, e, resolve) == Ok(o')
    ensures Stands(o'.text, Advance(p, Opens), MoreOf(d, e, resolve)) && o'.inPeer
  {
    WritesOpening(o, o', e, resolve);
    hide Emit, EffectOf, IsPeer, ClassOf, Reads, Bad, Spelled;
    var opening := Spelled(PublicKey) + ['='];
    match p
    case Wrong => BadGrows(o.text, opening);
    case Unnamed =>
      var base :| Reads(base, d) && o.text == base + opening;
      RefusedOpening(base, d, PublicKey, "");
      assert o'.text == base + opening + (opening + "");
    case _ =>
      assert Reads(o.text, d) && o'.text == o.text + opening;
  }

  lemma StepSets(o: Out, o': Out, p: Phase, d: Device, e: string, resolve: Resolver)
    requires Statement(e) && EffectOf(e) in {ForDevice, ForPeer} && OneLine(resolve)
    requires Stands(o.text, p, d) && Emit(o, e, resolve) == Ok(o')
    ensures Stands(o'.text, if WellValued(e, resolve) then Advance(p, EffectOf(e)) else Wrong, MoreOf(d, e, resolve))
    ensures o'.inPeer == o.inPeer
  {
    hide Statement, Emit, EffectOf, IsPeer, ClassOf, Reads, Bad, Spelled, OneLine, ReadLine, MoreOf, WellValued;
    var n, val, more := WritesLine(o, o', e, resolve);
    if p == Wrong {
      BadGrows(o.text, (Line(n, val) + ['\n']) + more);
      assert o'.text == o.text + ((Line(n, val) + ['\n']) + more);
    } else if p == Unnamed {
      var base :| Reads(base, d) && o.text == base + (Spelled(PublicKey) + ['=']);
      RefusedOpening(base, d, n, val + ['\n'] + more);
      assert (Spelled(n) + ['=']) + (val + ['\n'] + more) == (Line(n, val) + ['\n']) + more;
      assert o'.text == base + (Spelled(PublicKey) + ['=']) + ((Line(n, val) + ['\n']) + more);
    } else if EffectOf(e) == (if p == Before then ForDevice else ForPeer) {
      if !WellValued(e, resolve) {
        SpoilingStep(o, o', d, e, resolve);
      } else if p == Before {
        DeviceStep(o, o', d, e, resolve);
      } else {
        PeerStep(o, o', d, e, resolve);
      }
    } else {
      SpelledOnOneLine(n);
      WrongPlace(d, n, val);
      RefusedLine(o.text, d, Line(n, val), more);
    }
  }

  lemma Step(o: Out, o': Out, p: Phase, d: Device, e: string, resolve: Resolver)
    requires Statement(e) && OneLine(resolve) && Stands(o.text, p, d) && Emit(o, e, resolve) == Ok(o')
    ensures Stands(o'.text, if WellValued(e, resolve) then Advance(p, EffectOf(e)) else Wrong, MoreOf(d, e, resolve))
    ensures o'.inPeer <==> o.inPeer || EffectOf(e) == Opens
  {
    LoudIsSetting(e, resolve);
    hide Statement, Emit, EffectOf, Stands, OneLine, MoreOf, WellValued;
    match EffectOf(e)
    case Quiet => QuietStep(o, o', d, e, resolve);
    case Opens => StepOpens(o, o', p, d, e, resolve);
    case Names => StepNames(o, o', p, d, e, resolve);
    case _ => StepSets(o, o', p, d, e, resolve);
  }

  /** Headers and public keys hold no value that could be ill formed. */
  lemma LoudIsSetting(e: string, resolve: Resolver)
    ensures EffectOf(e) in {Opens, Names} ==> WellValued(e, resolve)
  {
    hide IsPeer, ClassOf, IsAtoi, ValueOf, Items;
  }

  lemma EmitSnoc(o: Out, es: seq<string>, resolve: Resolver)
    requires es != []
    ensures EmitAll(o, es, resolve)
      == match EmitAll(o, es[..|es| - 1], resolve) case Err(x) => Err(x) case Ok(o') => Emit(o', es[|es| - 1], resolve)
  {
    hide Emit, EmitAll;
    assert es == es[..|es| - 1] + [es[|es| - 1]];
    EmitConcat(o, es[..|es| - 1], [es[|es| - 1]], resolve);
    match EmitAll(o, es[..|es| - 1], resolve)
    case Err(_) =>
    case Ok(o') => EmitOne(o', es[|es| - 1], resolve);
  }

  lemma {:induction false} FileStands(es: seq<string>, o: Out, resolve: Resolver)
    requires (forall e :: e in es ==> Statement(e)) && OneLine(resolve) && EmitAll(Start, es, resolve) == Ok(o)
    ensures Stands(o.text, Standing(es, resolve), FileDevice(es, resolve))
    ensures Standing(es, resolve) == Before ==> !o.inPeer
  {
    hide Statement, Emit, Stands, EffectOf, MoreOf, OneLine, WellValued;
    if es == [] {
      NothingStands();
    } else {
      var before, e := es[..|es| - 1], es[|es| - 1];
      assert e in es && forall x :: x in before ==> x in es;
      EmitSnoc(Start, es, resolve);
      var mid := EmitAll(Start, before, resolve).value;
      hide EmitAll;
      FileStands(before, mid, resolve);
      Step(mid, o, Standing(before, resolve), FileDevice(before, resolve), e, resolve);
      StandingSnoc(es, resolve);
    }
  }

  lemma StandingSnoc(es: seq<string>, resolve: Resolver)
    requires es != []
    ensures var e := es[|es| - 1];
      Standing(es, resolve) == if WellValued(e, resolve) then Advance(Standing(es[..|es| - 1], resolve), EffectOf(e)) else Wrong
  {
    hide EffectOf, WellValued;
    assert es == es[..|es| - 1] + [es[|es| - 1]];
  }

  lemma NothingStands()
    ensures Stands("", Before, NoDevice)
  {
    NothingReads();
  }

  // Addresses and errors

  function AddressItems(e: string): seq<string>
  {
    if !IsPeer(e) && ClassOf(e) == Address then Items(ValueOf(e)) else []
  }

  lemma AddressStep(o: Out, o': Out, e: string, resolve: Resolver)
    requires Emit(o, e, resolve) == Ok(o')
    ensures o'.addrs == o.addrs + AddressItems(e)
  {
    hide IsPeer, ClassOf, KeyToHex, IsAtoi, Line, Items, AllowedLines, ValueOf;
    hide Cut, Trim, Classify, Lower, Unlines, Spelled;
    assert o.addrs + [] == o.addrs;
    if !IsPeer(e) {
      EmitByClass(o, e, resolve);
      hide Emit;
    }
  }

  lemma {:induction false} AddressesEmitted(o: Out, o': Out, es: seq<string>, resolve: Resolver)
    requires EmitAll(o, es, resolve) == Ok(o')
    ensures o'.addrs == o.addrs + FlatMap(es, AddressItems)
    decreases |es|
  {
    hide Emit, AddressItems;
    if es != [] {
      var mid := Emit(o, es[0], resolve).value;
      AddressStep(o, mid, es[0], resolve);
      AddressesEmitted(mid, o', es[1..], resolve);
    } else {
      assert o.addrs + [] == o.addrs;
    }
  }

  /** The protocol text reads back, exactly: wireguard-go understands what it is
      told if and only if the file's settings come in order, the device's before
      the first peer and each peer's public key first in its section, and every
      value written is one the protocol takes; and what it understands is then the
      file's private key and port and its peers in order, each key as the hex of
      its base64. Everything else translates without an error into text the
      protocol refuses. The interface gets the file's addresses either way. */
  lemma ReadsBack(es: seq<string>, resolve: Resolver, text: string, addrs: seq<string>)
    requires (forall e :: e in es ==> Statement(e)) && OneLine(resolve) && Translated(es, resolve) == Ok((text, addrs))
    ensures ReadText(text)
         == if PhaseAfter(es) == Inside && AllWellValued(es, resolve) then Some(FileDevice(es, resolve)) else None
    ensures Standing(es, resolve) != Before && Stands(text, Standing(es, resolve), FileDevice(es, resolve))
    ensures addrs == FlatMap(es, AddressItems)
  {
    hide Statement, OneLine, EmitAll, FileDevice, AddressItems, Reads, Bad, ReadText, AllWellValued, PhaseAfter;
    var o := EmitAll(Start, es, resolve).value;
    FileStands(es, o, resolve);
    AddressesEmitted(Start, o, es, resolve);
    var d := FileDevice(es, resolve);
    match Standing(es, resolve)
    case Unnamed =>
      var base :| Reads(base, d) && text == base + (Spelled(PublicKey) + ['=']);
      UnnamedIsRefused(base, d);
    case Inside => ReadsAs(text, d);
    case Wrong => BadIsRefused(text);
  }

  /** The statement holds nothing translation would refuse. */
  predicate Usable(e: string, resolve: Resolver)
  {
    IsPeer(e) ||
    match ClassOf(e)
    case Means(PrivateKey) => KeyToHex(ValueOf(e)).Ok?
    case Means(PublicKey) => KeyToHex(ValueOf(e)).Ok?
    case Means(PresharedKey) => KeyToHex(ValueOf(e)).Ok?
    case Means(Endpoint) => resolve(ValueOf(e)).Ok?
    case _ => true
  }

  lemma UsableStep(o: Out, e: string, resolve: Resolver)
    ensures Emit(o, e, resolve).Ok? <==> Usable(e, resolve)
    ensures Emit(o, e, resolve).Ok? ==> (Emit(o, e, resolve).value.inPeer <==> o.inPeer || IsPeer(e))
  {
    hide IsPeer, ClassOf, KeyToHex, IsAtoi, Line, Items, AllowedLines, ValueOf;
    if !IsPeer(e) {
      EmitByClass(o, e, resolve);
      hide Emit;
    }
  }

  lemma {:induction false} UsableAll(o: Out, es: seq<string>, resolve: Resolver)
    ensures EmitAll(o, es, resolve).Ok? <==> forall e :: e in es ==> Usable(e, resolve)
    ensures EmitAll(o, es, resolve).Ok? ==>
        (EmitAll(o, es, resolve).value.inPeer <==> o.inPeer || exists e :: e in es && IsPeer(e))
    decreases |es|
  {
    hide Emit, Usable, IsPeer;
    if es != [] {
      assert es == [es[0]] + es[1..];
      UsableStep(o, es[0], resolve);
      if Emit(o, es[0], resolve).Ok? {
        UsableAll(Emit(o, es[0], resolve).value, es[1..], resolve);
      }
    }
  }

  /** Translation fails for a bad key, an endpoint that does not resolve, or a
      file without a peer, and for nothing else. */
  lemma TranslatesExactly(es: seq<string>, resolve: Resolver)
    ensures Translated(es, resolve).Ok? <==> (forall e :: e in es ==> Usable(e, resolve)) && exists e :: e in es && IsPeer(e)
  {
    hide EmitAll, Usable, IsPeer;
    UsableAll(Start, es, resolve);
  }

  // What being in order means

  /** The effects of the statements that write something, in order. */
  function Loud(es: seq<string>): seq<Effect>
  {
    if es == [] then []
    else Loud(es[..|es| - 1]) + if EffectOf(es[|es| - 1]) == Quiet then [] else [EffectOf(es[|es| - 1])]
  }

  /** Every header but one at the end is followed at once by a public key. */
  predicate HeadersNamed(xs: seq<Effect>)
  {
    forall i :: 0 <= i < |xs| - 1 && xs[i] == Opens ==> xs[i + 1] == Names
  }

  /** A public key comes right after a header. */
  predicate NamesHeaded(xs: seq<Effect>)
  {
    forall i :: 0 <= i < |xs| && xs[i] == Names ==> i > 0 && xs[i - 1] == Opens
  }

  /** Device settings come before every header. */
  predicate DeviceFirst(xs: seq<Effect>)
  {
    forall i, j :: 0 <= i < j < |xs| && xs[i] == Opens ==> xs[j] != ForDevice
  }

  /** Peer settings come after one. */
  predicate PeersLater(xs: seq<Effect>)
  {
    forall i :: 0 <= i < |xs| && xs[i] == ForPeer ==> Opens in xs[..i]
  }

  predicate InOrder(xs: seq<Effect>)
  {
    HeadersNamed(xs) && NamesHeaded(xs) && DeviceFirst(xs) && PeersLater(xs)
  }

  predicate EndsOpen(xs: seq<Effect>)
  {
    xs != [] && xs[|xs| - 1] == Opens
  }

  lemma HeadersSnoc(xs: seq<Effect>, x: Effect)
    ensures HeadersNamed(xs + [x]) <==> HeadersNamed(xs) && (EndsOpen(xs) ==> x == Names)
  {
    var all := xs + [x];
    assert forall i :: 0 <= i < |xs| ==> all[i] == xs[i];
    assert all[|xs|] == x;
    if HeadersNamed(all) && EndsOpen(xs) {
      assert all[|xs| - 1 + 1] == Names;
    }
    if HeadersNamed(all) {
      forall i | 0 <= i < |xs| - 1 && xs[i] == Opens
        ensures xs[i + 1] == Names
      {
        assert all[i + 1] == Names;
      }
    }
  }

  lemma NamesSnoc(xs: seq<Effect>, x: Effect)
    ensures NamesHeaded(xs + [x]) <==> NamesHeaded(xs) && (x == Names ==> EndsOpen(xs))
  {
    var all := xs + [x];
    assert forall i :: 0 <= i < |xs| ==> all[i] == xs[i];
    assert all[|xs|] == x;
    if NamesHeaded(all) {
      forall i | 0 <= i < |xs| && xs[i] == Names
        ensures i > 0 && xs[i - 1] == Opens
      {
        assert all[i] == Names;
      }
    }
  }

  lemma DeviceSnoc(xs: seq<Effect>, x: Effect)
    ensures DeviceFirst(xs + [x]) <==> DeviceFirst(xs) && (x == ForDevice ==> Opens !in xs)
  {
    var all := xs + [x];
    assert forall i :: 0 <= i < |xs| ==> all[i] == xs[i];
    assert all[|xs|] == x;
    if DeviceFirst(all) {
      forall i, j | 0 <= i < j < |xs| && xs[i] == Opens
        ensures xs[j] != ForDevice
      {
        assert all[i] == Opens && all[j] == xs[j];
      }
    }
  }

  lemma PeersSnoc(xs: seq<Effect>, x: Effect)
    ensures PeersLater(xs + [x]) <==> PeersLater(xs) && (x == ForPeer ==> Opens in xs)
  {
    var all := xs + [x];
    assert forall i :: 0 <= i < |xs| ==> all[i] == xs[i] && all[..i] == xs[..i];
    assert all[..|xs|] == xs && all[|xs|] == x;
    if PeersLater(all) {
      forall i | 0 <= i < |xs| && xs[i] == ForPeer
        ensures Opens in xs[..i]
      {
        assert all[i] == ForPeer && Opens in all[..i];
      }
    }
  }

  lemma InOrderSnoc(xs: seq<Effect>, x: Effect)
    ensures InOrder(xs + [x]) <==>
      && InOrder(xs) && (EndsOpen(xs) <==> x == Names)
      && (x == ForDevice ==> Opens !in xs) && (x == ForPeer ==> Opens in xs)
  {
    hide HeadersNamed, NamesHeaded, DeviceFirst, PeersLater, EndsOpen;
    HeadersSnoc(xs, x);
    NamesSnoc(xs, x);
    DeviceSnoc(xs, x);
    PeersSnoc(xs, x);
  }

  /** The phase says whether the loud statements are in order, and how far they are. */
  lemma {:induction false} PhaseMeansOrder(es: seq<string>)
    ensures PhaseAfter(es) != Wrong <==> InOrder(Loud(es))
    ensures PhaseAfter(es) != Wrong ==> (PhaseAfter(es) == Before <==> Opens !in Loud(es))
    ensures PhaseAfter(es) != Wrong ==> (PhaseAfter(es) == Unnamed <==> EndsOpen(Loud(es)))
  {
    hide EffectOf, InOrder;
    if es == [] {
      NothingInOrder();
    } else {
      var before, x := es[..|es| - 1], EffectOf(es[|es| - 1]);
      PhaseMeansOrder(before);
      if x == Quiet {
        assert Loud(es) == Loud(before) + [];
        assert Loud(es) == Loud(before);
      } else {
        InOrderSnoc(Loud(before), x);
      }
    }
  }

  lemma NothingInOrder()
    ensures InOrder([])
  {
  }

  /** A translated file is understood if and only if its loud statements are in
      order, do not end with a header, and hold only values the protocol takes. */
  lemma UnderstoodExactly(es: seq<string>, resolve: Resolver, text: string, addrs: seq<string>)
    requires (forall e :: e in es ==> Statement(e)) && OneLine(resolve) && Translated(es, resolve) == Ok((text, addrs))
    ensures ReadText(text).Some? <==> InOrder(Loud(es)) && !EndsOpen(Loud(es)) && AllWellValued(es, resolve)
  {
    hide Statement, OneLine, Translated, ReadText, InOrder, PhaseAfter, Loud, FileDevice, AddressItems, Stands, AllWellValued;
    ReadsBack(es, resolve, text, addrs);
    PhaseMeansOrder(es);
  }

  /** The integers translation writes and the protocol does not take: those with a
      sign, and those that need more than 16 bits. */
  lemma NumbersLetThrough(s: string)
    requires IsAtoi(s)
    ensures !IsUint16(s) <==> s[0] == '+' || s[0] == '-' || Value(s) >= 0x1_0000
  {
    var digits := if s[0] == '+' || s[0] == '-' then s[1..] else s;
    assert !IsDigit('+') && !IsDigit('-');
  }

  /** Once out of order, out of order for good. */
  lemma {:induction false} WrongStays(a: seq<string>, b: seq<string>)
    requires PhaseAfter(a) == Wrong
    ensures PhaseAfter(a + b) == Wrong
  {
    hide EffectOf;
    if b == [] {
      assert a + b == a;
    } else {
      WrongStays(a, b[..|b| - 1]);
      assert (a + b)[..|a + b| - 1] == a + b[..|b| - 1];
    }
  }

  /** A peer whose first loud statement is not its public key is out of order, and
      so is everything after it, keyless peers and second headers included. */
  lemma PublicKeyMustComeFirst(before: seq<string>, header: string, quiet: seq<string>, e: string, rest: seq<string>)
    requires EffectOf(header) == Opens && EffectOf(e) !in {Quiet, Names}
    requires forall q :: q in quiet ==> EffectOf(q) == Quiet
    ensures PhaseAfter(before + [header] + quiet + [e] + rest) == Wrong
  {
    hide EffectOf;
    var upTo := before + [header];
    assert upTo[..|upTo| - 1] == before;
    QuietStays(upTo, quiet);
    var all := upTo + quiet + [e];
    assert all[..|all| - 1] == upTo + quiet;
    assert PhaseAfter(upTo) in {Unnamed, Wrong};
    WrongStays(all, rest);
  }

  lemma {:induction false} QuietStays(a: seq<string>, quiet: seq<string>)
    requires forall q :: q in quiet ==> EffectOf(q) == Quiet
    ensures PhaseAfter(a + quiet) == PhaseAfter(a)
  {
    hide EffectOf;
    if quiet == [] {
      assert a + quiet == a;
    } else {
      var n := |quiet| - 1;
      assert quiet[n] in quiet && forall q :: q in quiet[..n] ==> q in quiet;
      QuietStays(a, quiet[..n]);
      assert (a + quiet)[..|a + quiet| - 1] == a + quiet[..n];
    }
  }
}
