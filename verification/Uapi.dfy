/** Turning a wg-quick style file into configuration protocol text. */
module Uapi {
  import opened Prelude
  import opened Decimal
  import opened Text
  import opened Keys
  import opened Protocol

  datatype UapiError = BadKey(name: Name, error: KeyError) | BadEndpoint(why: string) | NoPeerSection

  /** Name resolution: whatever the network answers at the time. */
  type Resolver = string -> Result<string, string>

  /** What the file's keys mean here. */
  datatype Known = Means(name: Name) | Address | Other

  function Classify(key: string): Known
  {
    if key == "privatekey" then Means(PrivateKey)
    else if key == "listenport" then Means(ListenPort)
    else if key == "address" then Address
    else if key == "publickey" then Means(PublicKey)
    else if key == "presharedkey" then Means(PresharedKey)
    else if key == "endpoint" then Means(Endpoint)
    else if key == "allowedips" then Means(AllowedIp)
    else if key == "persistentkeepalive" then Means(Keepalive)
    else Other
  }

  /** strconv.Atoi succeeds: decimal digits after an optional sign, in 64 bits. */
  predicate IsAtoi(s: string)
  {
    var digits := if s != [] && (s[0] == '+' || s[0] == '-') then s[1..] else s;
    && digits != [] && (forall c :: c in digits ==> IsDigit(c))
    && Value(digits) < 0x8000_0000_0000_0000 + if s[0] == '-' then 1 else 0
  }

  /** Exactly the decimals of a 64-bit integer are one, with or without a sign. */
  lemma AtoiTakes(n: nat)
    ensures IsAtoi(Digits(n)) <==> n < 0x8000_0000_0000_0000
    ensures IsAtoi(['+'] + Digits(n)) <==> n < 0x8000_0000_0000_0000
    ensures IsAtoi(['-'] + Digits(n)) <==> n <= 0x8000_0000_0000_0000
  {
    ValueOfDigits(n);
    var s := Digits(n);
    assert s[0] in s && !IsDigit('+') && !IsDigit('-');
    assert (['+'] + s)[1..] == s && (['-'] + s)[1..] == s;
  }

  /** And nothing else is: it is not empty, and all digits but for one sign in front. */
  lemma AtoiIsDigits(s: string)
    requires IsAtoi(s)
    ensures s != [] && forall i :: 0 <= i < |s| ==> IsDigit(s[i]) || (i == 0 && |s| > 1 && (s[0] == '+' || s[0] == '-'))
  {
    var digits := if s[0] == '+' || s[0] == '-' then s[1..] else s;
    assert forall i :: 1 <= i < |s| ==> s[i] == s[1..][i - 1] && s[i] in s[1..];
    assert s[0] in s;
  }

  /** One entry of a comma-separated list, unless it is blank. */
  function Item(a: string): seq<string>
  {
    if Trim(a) != "" then [Trim(a)] else []
  }

  function Items(val: string): seq<string>
  {
    FlatMap(Split(val, ','), Item)
  }

  /** A list of entries, each with or without blanks around it, comes apart into just
      those entries; blank ones are passed over. */
  lemma {:induction false} ItemsOfList(parts: seq<string>, entries: seq<string>)
    requires parts != [] && |entries| == |parts| && forall p :: p in parts ==> ',' !in p
    requires forall i :: 0 <= i < |parts| ==> Trim(parts[i]) == entries[i]
    ensures Items(Joined(parts, ',')) == Filter(entries, (a: string) => a != "")
  {
    hide Trim, Item, Split;
    SplitJoined(parts, ',');
    EntriesInOrder(parts, entries);
  }

  lemma {:induction false} EntriesInOrder(parts: seq<string>, entries: seq<string>)
    requires |entries| == |parts| && forall i :: 0 <= i < |parts| ==> Trim(parts[i]) == entries[i]
    ensures FlatMap(parts, Item) == Filter(entries, (a: string) => a != "")
  {
    hide Trim;
    if parts != [] {
      assert forall i :: 0 <= i < |parts| - 1 ==> parts[1..][i] == parts[i + 1] && entries[1..][i] == entries[i + 1];
      EntriesInOrder(parts[1..], entries[1..]);
    }
  }

  function AllowedLine(a: string): seq<string>
  {
    [Line(AllowedIp, a)]
  }

  function AllowedLines(items: seq<string>): seq<string>
  {
    FlatMap(items, AllowedLine)
  }

  /** The line is exactly [Peer], in any case. */
  predicate IsPeer(t: string)
  {
    && |t| == 6 && t[0] == '[' && Folds(t[1], 'p') && Folds(t[2], 'e') && Folds(t[3], 'e') && Folds(t[4], 'r') && t[5] == ']'
  }

  /** What has been translated so far. */
  datatype Out = Out(text: string, addrs: seq<string>, inPeer: bool)

  function Write(o: Out, text: string): Out
  {
    o.(text := o.text + text)
  }

  /** A key setting: the line is opened by the peer's header where it is the public key. */
  function WriteKey(o: Out, n: Name, val: string): Result<Out, UapiError>
  {
    match KeyToHex(val)
    case Err(e) => Err(BadKey(n, e))
    case Ok(h) => Ok(Write(o, (if n == PublicKey then h else Line(n, h)) + ['\n']))
  }

  function WriteNumber(o: Out, n: Name, val: string): Out
  {
    if IsAtoi(val) then Write(o, Line(n, val) + ['\n']) else o
  }

  function EmitSetting(o: Out, k: Known, val: string, resolve: Resolver): Result<Out, UapiError>
  {
    match k
    case Means(PrivateKey) => WriteKey(o, PrivateKey, val)
    case Means(ListenPort) => Ok(WriteNumber(o, ListenPort, val))
    case Address => Ok(o.(addrs := o.addrs + Items(val)))
    case Means(PublicKey) => WriteKey(o, PublicKey, val)
    case Means(PresharedKey) => WriteKey(o, PresharedKey, val)
    case Means(Endpoint) =>
      (match resolve(val)
       case Err(why) => Err(BadEndpoint(why))
       case Ok(ep) => Ok(Write(o, Line(Endpoint, ep) + ['\n'])))
    case Means(AllowedIp) => Ok(Write(o, Unlines(AllowedLines(Items(val)))))
    case Means(Keepalive) => Ok(WriteNumber(o, Keepalive, val))
    case Other => Ok(o)
  }

  /** One statement. */
  function Emit(o: Out, e: string, resolve: Resolver): Result<Out, UapiError>
  {
    if IsPeer(e) then Ok(Write(o, Spelled(PublicKey) + ['=']).(inPeer := true))
    else if "[" <= e then Ok(o)
    else
      match Cut(e, '=')
      case None => Ok(o)
      case Some((k, v)) => EmitSetting(o, Classify(Lower(Trim(k))), Trim(v), resolve)
  }

  /** The first error ends it. */
  function EmitAll(o: Out, es: seq<string>, resolve: Resolver): Result<Out, UapiError>
    decreases |es|
  {
    if es == [] then Ok(o)
    else
      match Emit(o, es[0], resolve)
      case Err(x) => Err(x)
      case Ok(o') => EmitAll(o', es[1..], resolve)
  }

  const Start := Out("", [], false)

  /** The protocol text and the interface addresses of a file that says es. */
  function Translated(es: seq<string>, resolve: Resolver): Result<(string, seq<string>), UapiError>
  {
    match EmitAll(Start, es, resolve)
    case Err(x) => Err(x)
    case Ok(o) => if o.inPeer then Ok((o.text, o.addrs)) else Err(NoPeerSection)
  }

  lemma {:induction false} EmitConcat(o: Out, a: seq<string>, b: seq<string>, resolve: Resolver)
    ensures EmitAll(o, a + b, resolve) == match EmitAll(o, a, resolve) case Err(x) => Err(x) case Ok(o') => EmitAll(o', b, resolve)
    decreases |a|
  {
    hide Emit;
    if a == [] {
      assert a + b == b;
    } else {
      assert (a + b)[1..] == a[1..] + b;
      match Emit(o, a[0], resolve)
      case Err(_) =>
      case Ok(o') => EmitConcat(o', a[1..], b, resolve);
    }
  }

  lemma EmitOne(o: Out, e: string, resolve: Resolver)
    ensures EmitAll(o, [e], resolve) == Emit(o, e, resolve)
  {
    hide Emit;
    assert [e][1..] == [];
  }

  // The loops

  method ListItems(val: string) returns (items: seq<string>)
    ensures items == Items(val)
  {
    hide Item;
    items := [];
    var parts := Split(val, ',');
    for i := 0 to |parts|
      invariant items == FlatMap(parts[..i], Item)
    {
      assert parts[..i + 1] == parts[..i] + [parts[i]];
      FlatMapConcat(parts[..i], [parts[i]], Item);
      FlatMapOne(parts[i], Item);
      var a := Trim(parts[i]);
      ItemIs(parts[i]);
      if a != "" {
        items := items + [a];
      }
    }
    assert parts[..|parts|] == parts;
  }

  lemma ItemIs(a: string)
    ensures Item(a) == if Trim(a) != "" then [Trim(a)] else []
  {
  }

  method AllowedText(items: seq<string>) returns (text: string)
    ensures text == Unlines(AllowedLines(items))
  {
    hide Line;
    text := "";
    for i := 0 to |items|
      invariant text == Unlines(AllowedLines(items[..i]))
    {
      assert items[..i + 1] == items[..i] + [items[i]];
      UnlinesFlatMapSnoc(items[..i], items[i], AllowedLine);
      UnlinesOne(Line(AllowedIp, items[i]));
      text := text + (Line(AllowedIp, items[i]) + ['\n']);
    }
    assert items[..|items|] == items;
  }

  method EmitLine(o: Out, raw: string, resolve: Resolver) returns (r: Result<Out, UapiError>)
    ensures r == EmitAll(o, Saying(raw), resolve)
  {
    hide Trim, Cut, Lower, IsPeer, Classify, WriteKey, WriteNumber, Line, Items, AllowedLines;
    var line := Trim(raw);
    if line == "" || line[0] == '#' {
      return Ok(o);
    }
    EmitOne(o, line, resolve);
    if IsPeer(line) {
      return Ok(Write(o, Spelled(PublicKey) + ['=']).(inPeer := true));
    }
    if "[" <= line {
      return Ok(o);
    }
    match Cut(line, '=') {
      case None => return Ok(o);
      case Some((key, val)) =>
        match Classify(Lower(Trim(key))) {
          case Address =>
            var items := ListItems(Trim(val));
            return Ok(o.(addrs := o.addrs + items));
          case Means(AllowedIp) =>
            var items := ListItems(Trim(val));
            var text := AllowedText(items);
            return Ok(Write(o, text));
          case k => return EmitSetting(o, k, Trim(val), resolve);
        }
    }
  }

  method UapiFromConfig(conf: string, resolve: Resolver) returns (r: Result<(string, seq<string>), UapiError>)
    ensures r == Translated(Statements(conf), resolve)
  {
    hide EmitAll, Saying, Split;
    EmitNothing(Start, resolve);
    var o := Start;
    var lines := Split(conf, '\n');
    for i := 0 to |lines|
      invariant EmitAll(Start, Effective(lines[..i]), resolve) == Ok(o)
    {
      EmitUpTo(lines, i, resolve);
      var next := EmitLine(o, lines[i], resolve);
      if next.Err? {
        EmitRest(lines, i + 1, resolve);
        return Err(next.error);
      }
      o := next.value;
    }
    assert lines[..|lines|] == lines;
    if !o.inPeer {
      return Err(NoPeerSection);
    }
    return Ok((o.text, o.addrs));
  }

  lemma EmitNothing(o: Out, resolve: Resolver)
    ensures EmitAll(o, [], resolve) == Ok(o)
  {
  }

  lemma EmitUpTo(lines: seq<string>, i: nat, resolve: Resolver)
    requires i < |lines|
    ensures EmitAll(Start, Effective(lines[..i + 1]), resolve)
      == match EmitAll(Start, Effective(lines[..i]), resolve) case Err(x) => Err(x) case Ok(o) => EmitAll(o, Saying(lines[i]), resolve)
  {
    hide EmitAll, Saying;
    assert lines[..i + 1] == lines[..i] + [lines[i]];
    FlatMapConcat(lines[..i], [lines[i]], Saying);
    FlatMapOne(lines[i], Saying);
    EmitConcat(Start, Effective(lines[..i]), Saying(lines[i]), resolve);
  }

  lemma EmitRest(lines: seq<string>, i: nat, resolve: Resolver)
    requires i <= |lines| && EmitAll(Start, Effective(lines[..i]), resolve).Err?
    ensures EmitAll(Start, Effective(lines), resolve) == EmitAll(Start, Effective(lines[..i]), resolve)
  {
    hide EmitAll, Saying;
    assert lines == lines[..i] + lines[i..];
    FlatMapConcat(lines[..i], lines[i..], Saying);
    EmitConcat(Start, Effective(lines[..i]), Effective(lines[i..]), resolve);
  }
}
