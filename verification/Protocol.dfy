/** The text wireguard-go is configured with: the "Configuration Protocol" of the
    WireGuard cross-platform interface. One key=value a line; interface keys come
    first, and each public_key opens a peer. */
module Protocol {
  import opened Prelude
  import opened Text
  import opened Keys
  import opened Values

  datatype Name = PrivateKey | ListenPort | PublicKey | PresharedKey | Endpoint | AllowedIp | Keepalive

  function Spelled(n: Name): string
  {
    match n
    case PrivateKey => "private_key"
    case ListenPort => "listen_port"
    case PublicKey => "public_key"
    case PresharedKey => "preshared_key"
    case Endpoint => "endpoint"
    case AllowedIp => "allowed_ip"
    case Keepalive => "persistent_keepalive_interval"
  }

  function Named(s: string): Option<Name>
  {
    if s == "private_key" then Some(PrivateKey)
    else if s == "listen_port" then Some(ListenPort)
    else if s == "public_key" then Some(PublicKey)
    else if s == "preshared_key" then Some(PresharedKey)
    else if s == "endpoint" then Some(Endpoint)
    else if s == "allowed_ip" then Some(AllowedIp)
    else if s == "persistent_keepalive_interval" then Some(Keepalive)
    else None
  }

  function Line(n: Name, val: string): string
  {
    Spelled(n) + ['='] + val
  }

  lemma SpelledWithoutEquals(n: Name)
    ensures '=' !in Spelled(n)
  {
  }

  lemma SpelledOnOneLine(n: Name)
    ensures '\n' !in Spelled(n)
  {
  }

  lemma SpelledName(n: Name)
    ensures Named(Spelled(n)) == Some(n)
  {
    assert "private_key"[0] == 'p' && "listen_port"[0] == 'l' && "public_key"[0] == 'p' && "allowed_ip"[0] == 'a';
  }

  datatype Peer = Peer(
    publicKey: string, presharedKey: Option<string>, endpoint: Option<string>, allowed: seq<string>, keepalive: Option<string>)

  /** A device with its peer blocks, in order. */
  datatype Device = Device(privateKey: Option<string>, port: Option<string>, peers: seq<Peer>)

  const NoDevice := Device(None, None, [])

  predicate IsKey(val: string)
  {
    |val| == 64 && forall c :: c in val ==> IsHexDigit(c)
  }

  function NewPeer(key: string): Peer
  {
    Peer(key, None, None, [], None)
  }

  /** The values a name takes: keys in hex, decimal numbers of 16 bits, an address
      with its port, a prefix. */
  predicate Takes(n: Name, val: string)
  {
    match n
    case PrivateKey => IsKey(val)
    case PublicKey => IsKey(val)
    case PresharedKey => IsKey(val)
    case ListenPort => IsUint16(val)
    case Keepalive => IsUint16(val)
    case Endpoint => IsAddrPort(val)
    case AllowedIp => IsPrefix(val)
  }

  /** A setting of the peer that is open. */
  function SetPeer(p: Peer, n: Name, val: string): Option<Peer>
  {
    if !Takes(n, val) then None
    else
      match n
      case PresharedKey => Some(p.(presharedKey := Some(val)))
      case Endpoint => Some(p.(endpoint := Some(val)))
      case AllowedIp => Some(p.(allowed := p.allowed + [val]))
      case Keepalive => Some(p.(keepalive := Some(val)))
      case _ => None
  }

  function SetDevice(d: Device, n: Name, val: string): Option<Device>
  {
    if !Takes(n, val) then None
    else if n == PublicKey then Some(d.(peers := d.peers + [NewPeer(val)]))
    else if d.peers != [] then
      match SetPeer(d.peers[|d.peers| - 1], n, val)
      case None => None
      case Some(p) => Some(d.(peers := d.peers[..|d.peers| - 1] + [p]))
    else
      match n
      case PrivateKey => Some(d.(privateKey := Some(val)))
      case ListenPort => Some(d.(port := Some(val)))
      case _ => None
  }

  function ReadLine(d: Device, line: string): Option<Device>
  {
    match Cut(line, '=')
    case None => None
    case Some((key, val)) => if Named(key) == None then None else SetDevice(d, Named(key).value, val)
  }

  function ReadLines(d: Device, ls: seq<string>): Option<Device>
    decreases |ls|
  {
    if ls == [] then Some(d)
    else
      match ReadLine(d, ls[0])
      case None => None
      case Some(d') => ReadLines(d', ls[1..])
  }

  /** Every line ends with a newline. */
  function ReadText(text: string): Option<Device>
  {
    var ls := Split(text, '\n');
    if ls == [] || ls[|ls| - 1] != "" then None else ReadLines(NoDevice, ls[..|ls| - 1])
  }

  lemma ReadSpelled(d: Device, n: Name, val: string)
    ensures ReadLine(d, Line(n, val)) == SetDevice(d, n, val)
  {
    hide Spelled, Named, SetDevice;
    SpelledName(n);
    SpelledWithoutEquals(n);
    CutAt(Spelled(n), '=', val);
  }

  lemma {:induction false} ReadLinesConcat(d: Device, a: seq<string>, b: seq<string>)
    ensures ReadLines(d, a + b) == match ReadLines(d, a) case None => None case Some(d') => ReadLines(d', b)
    decreases |a|
  {
    hide ReadLine;
    if a == [] {
      assert a + b == b;
    } else {
      assert (a + b)[1..] == a[1..] + b;
      match ReadLine(d, a[0])
      case None =>
      case Some(d') => ReadLinesConcat(d', a[1..], b);
    }
  }

  lemma ReadUnlines(ls: seq<string>)
    requires forall l :: l in ls ==> '\n' !in l
    ensures ReadText(Unlines(ls)) == ReadLines(NoDevice, ls)
  {
    SplitUnlines(ls);
    assert (ls + [""])[..|ls|] == ls;
  }

  lemma ReadOne(d: Device, l: string)
    ensures ReadLines(d, [l]) == ReadLine(d, l)
  {
    hide ReadLine;
    assert [l][1..] == [];
  }
}
