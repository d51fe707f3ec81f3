/** The forwarding firewall as the kernel holds it, one command at a time, and
    what it does to a packet. */
module Firewall {
  import opened Prelude
  import opened Net
  import opened Decimal
  import opened Text

  datatype Proto = Udp | Tcp | OtherProto(number: nat)

  /** established stands for conntrack's RELATED or ESTABLISHED. */
  datatype Packet = Packet(src: Addr, dst: Addr, proto: Proto, dport: nat, established: bool)

  datatype Target = Accept | Reject | Drop

  /** A rule of ours, the jump from FORWARD into DOCKER-USER, or anybody else's
      rule: an identity and the text `iptables -L -n` shows for it. */
  datatype Rule =
    | Match(src: Option<Cidr>, dst: Option<Cidr>, out: Option<string>, port: Option<(Proto, nat)>,
            established: bool, target: Target)
    | Jump
    | Foreign(id: nat, line: string)

  datatype Verdict = Accepted | Blocked | Passed

  /** What foreign rules do is unknown: any function of the rule, packet and
      outgoing interface. */
  type Others = (nat, Packet, string) -> Verdict

  predicate Under(p: Option<Cidr>, a: Addr)
  {
    p.Some? ==> Contains(p.value, a)
  }

  /** iptables' interface match: a trailing + stands for any continuation. */
  predicate IfaceMatches(pattern: string, dev: string)
  {
    if pattern != [] && pattern[|pattern| - 1] == '+' then pattern[..|pattern| - 1] <= dev else pattern == dev
  }

  predicate Matches(r: Rule, p: Packet, dev: string)
    requires r.Match?
  {
    && Under(r.src, p.src) && Under(r.dst, p.dst)
    && (r.out.Some? ==> IfaceMatches(r.out.value, dev))
    && (r.port.Some? ==> r.port.value == (p.proto, p.dport))
    && (r.established ==> p.established)
  }

  /** First match wins; Passed when nothing in the chain decides. */
  function ChainVerdict(chain: seq<Rule>, p: Packet, dev: string, others: Others): Verdict
  {
    if chain == [] then Passed
    else match chain[0]
      case Match(_, _, _, _, _, target) =>
        if Matches(chain[0], p, dev) then (if target == Accept then Accepted else Blocked)
        else ChainVerdict(chain[1..], p, dev, others)
      case Jump => ChainVerdict(chain[1..], p, dev, others)
      case Foreign(id, _) =>
        var v := others(id, p, dev);
        if v == Passed then ChainVerdict(chain[1..], p, dev, others) else v
  }

  /** What this machine's iptables builds can do, and whether its kernel forwards IPv6. */
  datatype Caps = Caps(reject4: bool, reject6: bool, drop6: bool, forwards6: bool)

  /** forward and user are the FORWARD and DOCKER-USER chains; the sixes are
      their IPv6 twins. */
  datatype Firewall = Firewall(
    forward: seq<Rule>, user: Option<seq<Rule>>, forward6: seq<Rule>, user6: Option<seq<Rule>>, caps: Caps)

  /** The fate of a forwarded packet about to leave by dev. */
  function ForwardVerdict(fw: Firewall, p: Packet, dev: string, others: Others): Verdict
  {
    TopVerdict(fw.forward, if fw.user.Some? then fw.user.value else [], p, dev, others)
  }

  function TopVerdict(top: seq<Rule>, user: seq<Rule>, p: Packet, dev: string, others: Others): Verdict
  {
    if top == [] then Passed
    else
      var v := ChainVerdict(if top[0].Jump? then user else [top[0]], p, dev, others);
      if v == Passed then TopVerdict(top[1..], user, p, dev, others) else v
  }

  datatype Command =
    | ListUser | NewUser | CheckForward | InsertForward
    | Insert(rule: Rule) | Delete(num: nat) | Check(rule: Rule)
    | NewProbe | TryProbe(target: Target)
    | ListUser6 | NewUser6 | Check6(target: Target) | Append6(target: Target) | CheckForward6 | InsertForward6

  /** The command only asks, and changes nothing. */
  predicate IsQuestion(c: Command)
  {
    c.ListUser? || c.CheckForward? || c.Check? || c.ListUser6? || c.Check6? || c.CheckForward6?
  }

  /** The kernel keeps prefixes with their host bits cleared. */
  function Stored(r: Rule): Rule
  {
    match r
    case Match(src, dst, out, port, est, target) =>
      Match(Cleared(src), Cleared(dst), out, port, est, target)
    case _ => r
  }

  function Cleared(p: Option<Cidr>): Option<Cidr>
  {
    if p.Some? then Some(Network(p.value)) else None
  }

  function All(target: Target): Rule
  {
    Match(None, None, None, None, false, target)
  }

  predicate CanTarget4(caps: Caps, t: Target)
  {
    t == Reject ==> caps.reject4
  }

  predicate CanTarget6(caps: Caps, t: Target)
  {
    (t == Reject ==> caps.reject6) && (t == Drop ==> caps.drop6)
  }

  /** One command: the firewall it leaves, and whether it succeeds. A command that fails changes nothing. */
  function Exec(fw: Firewall, c: Command): (r: (Firewall, bool))
    ensures r.0.caps == fw.caps
    ensures !r.1 ==> r.0 == fw
  {
    match c
    case ListUser => (fw, fw.user.Some?)
    case NewUser => if fw.user.Some? then (fw, false) else (fw.(user := Some([])), true)
    case CheckForward => (fw, Jump in fw.forward)
    case InsertForward => if fw.user.None? then (fw, false) else (fw.(forward := [Jump] + fw.forward), true)
    case Insert(rule) =>
      if fw.user.None? || (rule.Match? && !CanTarget4(fw.caps, rule.target)) then (fw, false)
      else (fw.(user := Some([Stored(rule)] + fw.user.value)), true)
    case Delete(num) =>
      if fw.user.None? || num == 0 || num > |fw.user.value| then (fw, false)
      else (fw.(user := Some(fw.user.value[..num - 1] + fw.user.value[num..])), true)
    case Check(rule) => (fw, fw.user.Some? && Stored(rule) in fw.user.value)
    case NewProbe => (fw, true)
    case TryProbe(target) => (fw, CanTarget4(fw.caps, target))
    case ListUser6 => (fw, fw.user6.Some?)
    case NewUser6 => if fw.user6.Some? then (fw, false) else (fw.(user6 := Some([])), true)
    case Check6(target) => (fw, fw.user6.Some? && All(target) in fw.user6.value)
    case Append6(target) =>
      if fw.user6.None? || !CanTarget6(fw.caps, target) then (fw, false)
      else (fw.(user6 := Some(fw.user6.value + [All(target)])), true)
    case CheckForward6 => (fw, Jump in fw.forward6)
    case InsertForward6 => if fw.user6.None? then (fw, false) else (fw.(forward6 := [Jump] + fw.forward6), true)
  }

  // What `iptables -L --line-numbers -n` shows

  function AddressColumn(p: Option<Cidr>): string
  {
    if p.None? then "0.0.0.0/0" else if p.value.len == 32 then AddrText(p.value.base) else CidrText(p.value)
  }

  function LineHead(r: Rule): string
    requires r.Match?
  {
    (match r.target case Accept => "ACCEPT" case Reject => "REJECT" case Drop => "DROP")
    + "  " + (if r.port.None? then "all" else if r.port.value.0 == Udp then "udp" else "tcp") + "  --  "
  }

  function LineTail(r: Rule): string
    requires r.Match?
  {
    "  " + AddressColumn(r.dst)
    + (if r.port.None? then "" else "  dpt:" + Digits(r.port.value.1))
    + (if r.established then "  ctstate RELATED,ESTABLISHED" else "")
    + (if r.target == Reject then "  reject-with icmp-port-unreachable" else "")
  }

  function Line(r: Rule): string
  {
    match r
    case Match(src, _, _, _, _, _) => LineHead(r) + AddressColumn(src) + LineTail(r)
    case Jump => "DOCKER-USER  all  --  0.0.0.0/0  0.0.0.0/0"
    case Foreign(_, line) => line
  }

  predicate Mentions(r: Rule, text: string)
  {
    Holds(Line(r), text)
  }
}
