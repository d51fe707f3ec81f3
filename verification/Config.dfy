/** The checks a configuration passes before it may touch the kernel. */
module Config {
  import opened Prelude
  import opened Net

  const MaxTunnels := 5

  datatype Mode = Pin | Bond | OtherMode(text: string)

  /** A setting after its text was parsed. */
  datatype Entry<+T> = Absent | Malformed | Given(value: T)

  /** What net.ParseIP makes of a listed client. */
  datatype Listed = NotAnAddress(text: string) | Six(text: string) | Four(addr: Addr)

  datatype LanSetting = Auto | Lan(entry: Entry<Cidr>)

  /** A mount the panel reports on. */
  datatype Disk = Disk(name: string, path: string)

  datatype Raw = Raw(
    tunnels: seq<string>, tunnelDir: string, clients: Entry<Cidr>,
    default: Mode, pinned: seq<Listed>, bonded: seq<Listed>, lan: LanSetting,
    dns: Entry<string>, listen: Entry<string>, disks: seq<Disk>)

  datatype Problem =
    | NoTunnels | TooManyTunnels | ClientsRequired | ClientsMalformed | UnknownMode
    | BadClient(client: Listed) | OutsideClients(client: Listed) | LanMalformed
    | DnsRequired | DnsMalformed | ListenMalformed | BadDisk(disk: Disk)

  /** The settings the data plane runs on, once "auto" is resolved. The client
      subnet keeps its host bits, as the configuration file does. */
  datatype Settings = Settings(
    clients: Cidr, lan: Cidr, default: Mode, pinned: seq<Addr>, bonded: seq<Addr>, staleAfter: int)

  predicate InClients(c: Raw, l: Listed)
  {
    c.clients.Given? && l.Four? && Contains(c.clients.value, l.addr)
  }

  /** A configuration the daemon may act on. */
  predicate WellFormed(c: Raw)
  {
    && (c.tunnels != [] || c.tunnelDir != "")
    && |c.tunnels| <= MaxTunnels
    && c.clients.Given?
    && !c.default.OtherMode?
    && (forall l :: l in c.pinned ==> InClients(c, l))
    && (forall l :: l in c.bonded ==> InClients(c, l))
    && (c.lan.Lan? ==> c.lan.entry.Given?)
    && c.dns.Given?
    && !c.listen.Malformed?
    && (forall d :: d in c.disks ==> IsWhole(d))
  }

  predicate IsWhole(d: Disk)
  {
    d.name != "" && d.path != ""
  }

  /** The complaint about one listed client, if there is one. */
  function ClientProblem(c: Raw, l: Listed): Option<Problem>
  {
    if l.NotAnAddress? then Some(BadClient(l))
    else if c.clients.Given? && !InClients(c, l) then Some(OutsideClients(l))
    else None
  }

  method ClientProblems(c: Raw) returns (p: seq<Problem>)
    ensures forall x :: x in p <==> exists l :: l in c.pinned + c.bonded && ClientProblem(c, l) == Some(x)
  {
    hide ClientProblem;
    p := [];
    var all := c.pinned + c.bonded;
    for i := 0 to |all|
      invariant forall x :: x in p <==> exists j :: 0 <= j < i && ClientProblem(c, all[j]) == Some(x)
    {
      var one := ClientProblem(c, all[i]);
      if one.Some? {
        p := p + [one.value];
      }
    }
  }

  method DiskProblems(c: Raw) returns (p: seq<Problem>)
    ensures forall x :: x in p <==> x.BadDisk? && x.disk in c.disks && !IsWhole(x.disk)
  {
    p := [];
    for i := 0 to |c.disks|
      invariant forall x :: x in p <==> x.BadDisk? && x.disk in c.disks[..i] && !IsWhole(x.disk)
    {
      assert c.disks[..i + 1] == c.disks[..i] + [c.disks[i]];
      if c.disks[i].name == "" || c.disks[i].path == "" {
        p := p + [BadDisk(c.disks[i])];
      }
    }
    assert c.disks[..|c.disks|] == c.disks;
  }

  /** The complaint is in place. */
  predicate Deserved(c: Raw, x: Problem)
  {
    match x
    case NoTunnels => c.tunnels == [] && c.tunnelDir == ""
    case TooManyTunnels => |c.tunnels| > MaxTunnels
    case ClientsRequired => c.clients.Absent?
    case ClientsMalformed => c.clients.Malformed?
    case UnknownMode => c.default.OtherMode?
    case BadClient(l) => l in c.pinned + c.bonded && l.NotAnAddress?
    case OutsideClients(l) => l in c.pinned + c.bonded && !l.NotAnAddress? && c.clients.Given? && !InClients(c, l)
    case LanMalformed => c.lan.Lan? && !c.lan.entry.Given?
    case DnsRequired => c.dns.Absent?
    case DnsMalformed => c.dns.Malformed?
    case ListenMalformed => c.listen.Malformed?
    case BadDisk(d) => d in c.disks && !IsWhole(d)
  }

  predicate BeforeClients(x: Problem)
  {
    x.NoTunnels? || x.TooManyTunnels? || x.ClientsRequired? || x.ClientsMalformed? || x.UnknownMode?
  }

  predicate AfterClients(x: Problem)
  {
    x.LanMalformed? || x.DnsRequired? || x.DnsMalformed? || x.ListenMalformed?
  }

  method EarlyProblems(c: Raw) returns (p: seq<Problem>)
    ensures forall x :: x in p <==> BeforeClients(x) && Deserved(c, x)
  {
    p := [];
    if c.tunnels == [] && c.tunnelDir == "" {
      p := p + [NoTunnels];
    }
    if |c.tunnels| > MaxTunnels {
      p := p + [TooManyTunnels];
    }
    match c.clients {
      case Absent => p := p + [ClientsRequired];
      case Malformed => p := p + [ClientsMalformed];
      case Given(_) =>
    }
    if c.default.OtherMode? {
      p := p + [UnknownMode];
    }
  }

  method LateProblems(c: Raw) returns (p: seq<Problem>)
    ensures forall x :: x in p <==> AfterClients(x) && Deserved(c, x)
  {
    p := [];
    if c.lan.Lan? && !c.lan.entry.Given? {
      p := p + [LanMalformed];
    }
    match c.dns {
      case Absent => p := p + [DnsRequired];
      case Malformed => p := p + [DnsMalformed];
      case Given(_) =>
    }
    if c.listen.Malformed? {
      p := p + [ListenMalformed];
    }
  }

  /** Everything wrong at once: each complaint exactly when it is in place, and
      none exactly for a well-formed configuration. */
  method Problems(c: Raw) returns (p: seq<Problem>)
    ensures forall x :: x in p <==> Deserved(c, x)
    ensures p == [] <==> WellFormed(c)
  {
    var early := EarlyProblems(c);
    var listed := ClientProblems(c);
    var late := LateProblems(c);
    var disks := DiskProblems(c);
    ListedProblems(c, listed);
    DiskIsDeserved(c);
    p := early + listed + late + disks;
    hide Deserved, WellFormed, IsWhole, ClientProblem;
    EmptyIsWellFormed(c, p);
  }

  lemma DiskIsDeserved(c: Raw)
    ensures forall d :: Deserved(c, BadDisk(d)) <==> d in c.disks && !IsWhole(d)
  {
  }

  lemma EmptyIsWellFormed(c: Raw, p: seq<Problem>)
    requires forall x :: x in p <==> Deserved(c, x)
    ensures p == [] <==> WellFormed(c)
  {
    NoneDeserved(c);
    hide Deserved, WellFormed;
    if p != [] {
      assert p[0] in p;
    }
  }

  lemma ListedProblems(c: Raw, listed: seq<Problem>)
    requires forall x :: x in listed <==> exists l :: l in c.pinned + c.bonded && ClientProblem(c, l) == Some(x)
    ensures forall x :: x in listed <==> (x.BadClient? || x.OutsideClients?) && Deserved(c, x)
  {
    hide InClients;
    forall x: Problem | (x.BadClient? || x.OutsideClients?) && Deserved(c, x)
      ensures x in listed
    {
      assert ClientProblem(c, x.client) == Some(x);
    }
  }

  lemma NoneDeserved(c: Raw)
    ensures (forall x :: !Deserved(c, x)) <==> WellFormed(c)
  {
    hide IsWhole;
    if forall x :: !Deserved(c, x) {
      assert !Deserved(c, NoTunnels) && !Deserved(c, TooManyTunnels) && !Deserved(c, ClientsRequired);
      assert !Deserved(c, ClientsMalformed) && !Deserved(c, UnknownMode) && !Deserved(c, LanMalformed);
      assert !Deserved(c, DnsRequired) && !Deserved(c, DnsMalformed) && !Deserved(c, ListenMalformed);
      forall l | l in c.pinned || l in c.bonded
        ensures InClients(c, l)
      {
        assert !Deserved(c, BadClient(l)) && !Deserved(c, OutsideClients(l));
      }
      forall d | d in c.disks
        ensures IsWhole(d)
      {
        assert !Deserved(c, BadDisk(d));
      }
    }
    if WellFormed(c) {
      forall x
        ensures !Deserved(c, x)
      {
      }
    }
  }

  /** The client subnet is readable, holds no management address, and shares no
      address with a configured LAN. */
  ghost predicate KeepsClear(c: Raw, mgmt: seq<Addr>)
  {
    && c.clients.Given?
    && (forall a :: a in mgmt ==> !Contains(c.clients.value, a))
    && (c.lan.Lan? && c.lan.entry.Given? ==> !Overlap(c.clients.value, c.lan.entry.value))
  }

  datatype Guard = Pass | ClientsUnreadable | OwnAddress(addr: Addr) | OverlapsLan

  /** Refuses a client subnet that holds one of the host's management addresses
      or shares any address with the LAN. Passing is exact: nothing that shares no
      address is refused. */
  method GuardAgainstSelf(c: Raw, mgmt: seq<Addr>) returns (g: Guard)
    ensures g == Pass <==> KeepsClear(c, mgmt)
    ensures g.OwnAddress? ==> c.clients.Given? && g.addr in mgmt && Contains(c.clients.value, g.addr)
  {
    if !c.clients.Given? {
      return ClientsUnreadable;
    }
    var clientNet := Network(c.clients.value);
    NetworkAgrees(c.clients.value);
    for i := 0 to |mgmt|
      invariant forall j :: 0 <= j < i ==> !Contains(c.clients.value, mgmt[j])
    {
      if Contains(clientNet, mgmt[i]) {
        return OwnAddress(mgmt[i]);
      }
    }
    if c.lan.Lan? && c.lan.entry.Given? {
      var lanNet := Network(c.lan.entry.value);
      NetworkAgrees(c.lan.entry.value);
      OverlapTestExact(c.clients.value, c.lan.entry.value);
      if Contains(clientNet, lanNet.base) || Contains(lanNet, clientNet.base) {
        return OverlapsLan;
      }
    }
    return Pass;
  }

  function Addresses(ls: seq<Listed>): (r: seq<Addr>)
    requires forall l :: l in ls ==> l.Four?
    ensures |r| == |ls| && forall i :: 0 <= i < |ls| ==> r[i] == ls[i].addr
    ensures forall a :: a in r ==> Four(a) in ls
  {
    if ls == [] then [] else
      assert ls[0] in ls;
      [ls[0].addr] + Addresses(ls[1..])
  }

  /** The run-time settings of a well-formed configuration; lan is the configured
      network, or the one found on the WAN interface for "auto". */
  function Resolve(c: Raw, lan: Cidr, staleAfter: int): (s: Settings)
    requires WellFormed(c)
    ensures Sound(s)
  {
    Settings(c.clients.value, lan, c.default, Addresses(c.pinned), Addresses(c.bonded), staleAfter)
  }

  /** Every pinned address lies in the client subnet. */
  predicate Sound(s: Settings)
  {
    && (forall a :: a in s.pinned ==> Contains(s.clients, a))
    && (forall a :: a in s.bonded ==> Contains(s.clients, a))
  }

  /** What the file lists decides a client's mode: its pinned list, then its bonded
      list, then its default. */
  lemma ListedDecides(c: Raw, lan: Cidr, staleAfter: int, ip: Addr)
    requires WellFormed(c)
    ensures var s := Resolve(c, lan, staleAfter);
      && WantedMode(s, ip) == (if Four(ip) in c.pinned then Pin else if Four(ip) in c.bonded then Bond else c.default)
      && s.clients == c.clients.value && s.lan == lan && s.staleAfter == staleAfter
      && |s.pinned| == |c.pinned| && forall i :: 0 <= i < |s.pinned| ==> c.pinned[i] == Four(s.pinned[i])
  {
    hide Contains, Sound, Addresses, IsWhole;
    assert forall l :: l in c.pinned ==> InClients(c, l);
    assert forall l :: l in c.bonded ==> InClients(c, l);
    AddressListed(c.pinned, ip);
    AddressListed(c.bonded, ip);
  }

  lemma AddressListed(ls: seq<Listed>, ip: Addr)
    requires forall l :: l in ls ==> l.Four?
    ensures ip in Addresses(ls) <==> Four(ip) in ls
  {
    if Four(ip) in ls {
      var i :| 0 <= i < |ls| && ls[i] == Four(ip);
      assert Addresses(ls)[i] == ip;
    }
  }

  /** How a client should be routed: a pin wins over a bond, and an address in
      neither list takes the default. */
  method ModeFor(s: Settings, ip: Addr) returns (m: Mode)
    ensures m == WantedMode(s, ip)
    ensures ip in s.pinned ==> m == Pin
    ensures ip !in s.pinned ==> m == if ip in s.bonded then Bond else s.default
  {
    for i := 0 to |s.pinned|
      invariant ip !in s.pinned[..i]
    {
      if s.pinned[i] == ip {
        return Pin;
      }
    }
    assert s.pinned[..|s.pinned|] == s.pinned;
    for i := 0 to |s.bonded|
      invariant ip !in s.bonded[..i]
    {
      if s.bonded[i] == ip {
        return Bond;
      }
    }
    assert s.bonded[..|s.bonded|] == s.bonded;
    return s.default;
  }

  function WantedMode(s: Settings, ip: Addr): Mode
  {
    if ip in s.pinned then Pin else if ip in s.bonded then Bond else s.default
  }
}
