/** What the kill switch's rules mean: which chains let nothing escape, and what
    deleting and re-inserting rules does to them. */
module Chain {
  import opened Prelude
  import opened Net
  import opened Decimal
  import opened Text
  import opened Firewall

  function CatchAll(clients: Cidr, block: Target): Rule
  {
    Match(Some(clients), None, None, None, false, block)
  }

  function OutByTunnel(clients: Cidr): Rule
  {
    Match(Some(clients), None, Some("wg+"), None, false, Accept)
  }

  function To(clients: Cidr, dst: Cidr): Rule
  {
    Match(Some(clients), Some(dst), None, None, false, Accept)
  }

  function Replies(clients: Cidr): Rule
  {
    Match(Some(clients), None, None, None, true, Accept)
  }

  function NoDns(clients: Cidr, lan: Cidr, proto: Proto, block: Target): Rule
  {
    Match(Some(clients), Some(lan), None, Some((proto, 53)), false, block)
  }

  /** The seven rules, top to bottom, as the kernel stores them. */
  function OurRules(clients: Cidr, lan: Cidr, block: Target): (r: seq<Rule>)
    ensures |r| == 7
  {
    var c, l := Network(clients), Network(lan);
    [NoDns(c, l, Tcp, block), NoDns(c, l, Udp, block), Replies(c), To(c, c), To(c, l), OutByTunnel(c), CatchAll(c, block)]
  }

  /** A new connection from a client to somewhere else than the clients or the LAN. */
  predicate Outbound(p: Packet, clients: Cidr, lan: Cidr)
  {
    Contains(clients, p.src) && !Contains(clients, p.dst) && !Contains(lan, p.dst) && !p.established
  }

  predicate IsTunnel(dev: string)
  {
    "wg" <= dev
  }

  /** No outbound client packet is accepted on anything but a tunnel, whatever
      the foreign rules do. */
  ghost predicate FailClosed(fw: Firewall, clients: Cidr, lan: Cidr)
  {
    forall p, dev, others: Others ::
      Outbound(p, clients, lan) && !IsTunnel(dev) ==> ForwardVerdict(fw, p, dev, others) == Blocked
  }

  /** A blocking catch-all with nothing but our own rules above it. */
  ghost predicate Guarded(chain: seq<Rule>, clients: Cidr, lan: Cidr)
  {
    exists k :: 0 <= k < |chain| && GuardedAt(chain, clients, lan, k)
  }

  ghost predicate GuardedAt(chain: seq<Rule>, clients: Cidr, lan: Cidr, k: nat)
    requires k < |chain|
  {
    && IsCatchAll(chain[k], clients)
    && forall j :: 0 <= j < k ==> IsOurs(chain[j], clients, lan)
  }

  predicate IsCatchAll(r: Rule, clients: Cidr)
  {
    r == CatchAll(Network(clients), Reject) || r == CatchAll(Network(clients), Drop)
  }

  predicate IsOurs(r: Rule, clients: Cidr, lan: Cidr)
  {
    r in OurRules(clients, lan, Reject) || r in OurRules(clients, lan, Drop)
  }

  /** The jump comes first in FORWARD, so DOCKER-USER sees every forwarded packet. */
  predicate Hooked(fw: Firewall)
  {
    fw.forward != [] && fw.forward[0] == Jump && fw.user.Some?
  }

  lemma OursLetNothingOut(r: Rule, clients: Cidr, lan: Cidr, p: Packet, dev: string)
    requires IsOurs(r, clients, lan) && Outbound(p, clients, lan) && !IsTunnel(dev)
    ensures r.Match? && (Matches(r, p, dev) ==> r.target != Accept)
  {
    TunnelPattern(dev);
    NetworkAgrees(clients);
    NetworkAgrees(lan);
    if Matches(r, p, dev) {
      assert r != OutByTunnel(Network(clients)) && r != Replies(Network(clients));
    }
  }

  lemma CatchAllBlocks(r: Rule, clients: Cidr, p: Packet, dev: string)
    requires IsCatchAll(r, clients) && Contains(clients, p.src)
    ensures r.Match? && r.target != Accept && Matches(r, p, dev)
  {
    NetworkAgrees(clients);
  }

  lemma GuardedBelow(chain: seq<Rule>, clients: Cidr, lan: Cidr, k: nat)
    requires 0 < k < |chain| && GuardedAt(chain, clients, lan, k)
    ensures IsOurs(chain[0], clients, lan) && GuardedAt(chain[1..], clients, lan, k - 1)
  {
    hide IsOurs, IsCatchAll;
    assert chain[1..][k - 1] == chain[k];
    assert forall j :: 0 <= j < k - 1 ==> chain[1..][j] == chain[j + 1];
  }

  lemma {:induction false} GuardedBlocks(
    chain: seq<Rule>, clients: Cidr, lan: Cidr, k: nat, p: Packet, dev: string, others: Others)
    requires k < |chain| && GuardedAt(chain, clients, lan, k)
    requires Outbound(p, clients, lan) && !IsTunnel(dev)
    ensures ChainVerdict(chain, p, dev, others) == Blocked
    decreases k
  {
    hide IsOurs, IsCatchAll, Matches;
    if k == 0 {
      CatchAllBlocks(chain[0], clients, p, dev);
    } else {
      GuardedBelow(chain, clients, lan, k);
      OursLetNothingOut(chain[0], clients, lan, p, dev);
      GuardedBlocks(chain[1..], clients, lan, k - 1, p, dev, others);
    }
  }

  lemma GuardedFailsClosed(fw: Firewall, clients: Cidr, lan: Cidr)
    requires Hooked(fw) && Guarded(fw.user.value, clients, lan)
    ensures FailClosed(fw, clients, lan)
  {
    var k :| 0 <= k < |fw.user.value| && GuardedAt(fw.user.value, clients, lan, k);
    forall p, dev, others: Others | Outbound(p, clients, lan) && !IsTunnel(dev)
      ensures ForwardVerdict(fw, p, dev, others) == Blocked
    {
      GuardedBlocks(fw.user.value, clients, lan, k, p, dev, others);
    }
  }

  /** What the seven rules decide, exactly: DNS to the LAN is refused before
      anything else, replies and local traffic pass, everything else leaves by a
      tunnel or not at all, and packets that are not from clients see only what lies below. */
  lemma ArmedVerdict(clients: Cidr, lan: Cidr, block: Target, rest: seq<Rule>, p: Packet, dev: string, others: Others)
    requires block != Accept
    ensures ChainVerdict(OurRules(clients, lan, block) + rest, p, dev, others) ==
      if !Contains(clients, p.src) then ChainVerdict(rest, p, dev, others)
      else if Contains(lan, p.dst) && p.dport == 53 && (p.proto == Udp || p.proto == Tcp) then Blocked
      else if p.established || Contains(clients, p.dst) || Contains(lan, p.dst) || IsTunnel(dev) then Accepted
      else Blocked
  {
    var ours := OurRules(clients, lan, block);
    TunnelPattern(dev);
    NetworkAgrees(clients);
    NetworkAgrees(lan);
    Peel(ours, rest, p, dev, others, 0);
    assert (ours + rest)[0..] == ours + rest;
    var f1, f2 := FirstOf(ours, rest, p, dev, others, 1), FirstOf(ours, rest, p, dev, others, 2);
    var f3, f4 := FirstOf(ours, rest, p, dev, others, 3), FirstOf(ours, rest, p, dev, others, 4);
    var f5, f6 := FirstOf(ours, rest, p, dev, others, 5), FirstOf(ours, rest, p, dev, others, 6);
    assert FirstOf(ours, rest, p, dev, others, 7) == ChainVerdict(rest, p, dev, others);
  }

  lemma TunnelPattern(dev: string)
    ensures IfaceMatches("wg+", dev) <==> IsTunnel(dev)
  {
    assert "wg+"[..2] == "wg";
  }

  /** A chain of matching rules followed by others: the first of ours that matches decides. */
  lemma {:induction false} Peel(ours: seq<Rule>, rest: seq<Rule>, p: Packet, dev: string, others: Others, k: nat)
    requires k <= |ours| && forall r :: r in ours ==> r.Match?
    ensures ChainVerdict((ours + rest)[k..], p, dev, others) == FirstOf(ours, rest, p, dev, others, k)
    decreases |ours| - k
  {
    if k < |ours| {
      assert (ours + rest)[k..][0] == ours[k] && ours[k] in ours;
      assert (ours + rest)[k..][1..] == (ours + rest)[k + 1..];
      Peel(ours, rest, p, dev, others, k + 1);
    } else {
      assert (ours + rest)[k..] == rest;
    }
  }

  function FirstOf(ours: seq<Rule>, rest: seq<Rule>, p: Packet, dev: string, others: Others, k: nat): Verdict
    requires k <= |ours| && forall r :: r in ours ==> r.Match?
    decreases |ours| - k
  {
    if k == |ours| then ChainVerdict(rest, p, dev, others)
    else
      assert ours[k] in ours;
      if Matches(ours[k], p, dev) then (if ours[k].target == Accept then Accepted else Blocked)
      else FirstOf(ours, rest, p, dev, others, k + 1)
  }

  /** The armed check is a sound witness: delete any rules at all from an armed
      chain, and as long as the check still finds the catch-all nothing escapes. */
  lemma ArmedCheckIsSound(fw: Firewall, armed: seq<Rule>, tail: seq<Rule>, clients: Cidr, lan: Cidr, block: Target)
    requires block != Accept && Hooked(fw)
    requires armed == OurRules(clients, lan, block) + tail
    requires forall r :: r in tail ==> !IsCatchAll(r, clients)
    requires Subsequence(fw.user.value, armed)
    requires Exec(fw, Check(CatchAll(clients, block))).1
    ensures Guarded(fw.user.value, clients, lan)
    ensures FailClosed(fw, clients, lan)
  {
    var chain := fw.user.value;
    var n := SubsequenceSplit(chain, OurRules(clients, lan, block), tail);
    SubsequenceMember(chain[..n], OurRules(clients, lan, block));
    SubsequenceMember(chain[n..], tail);
    var found := Stored(CatchAll(clients, block));
    assert IsCatchAll(found, clients);
    var k :| 0 <= k < |chain| && chain[k] == found;
    assert forall i :: n <= i < |chain| ==> chain[i] == chain[n..][i - n];
    assert k < n;
    forall j | 0 <= j < k
      ensures IsOurs(chain[j], clients, lan)
    {
      assert chain[j] == chain[..n][j];
    }
    assert GuardedAt(chain, clients, lan, k);
    GuardedFailsClosed(fw, clients, lan);
  }

  // Purging

  /** The rules whose listing does not mention the text, in their order. */
  function Unmentioned(chain: seq<Rule>, text: string): seq<Rule>
  {
    Filter(chain, (r: Rule) => !Mentions(r, text))
  }

  /** How many rules mention it. */
  function Mentioning(chain: seq<Rule>, text: string): nat
  {
    |Filter(chain, (r: Rule) => Mentions(r, text))|
  }

  /** Deleting a rule that mentions the text costs one mention and nothing else. */
  lemma DeleteMention(chain: seq<Rule>, text: string, k: nat)
    requires k < |chain| && Mentions(chain[k], text)
    ensures Unmentioned(chain[..k] + chain[k + 1..], text) == Unmentioned(chain, text)
    ensures Mentioning(chain[..k] + chain[k + 1..], text) + 1 == Mentioning(chain, text)
  {
    FilterWithout(chain, k, (r: Rule) => !Mentions(r, text));
    FilterWithout(chain, k, (r: Rule) => Mentions(r, text));
  }

  lemma NoMention(chain: seq<Rule>, text: string)
    ensures Mentioning(chain, text) == 0 <==> forall r :: r in chain ==> !Mentions(r, text)
    ensures Mentioning(chain, text) == 0 ==> Unmentioned(chain, text) == chain
  {
    if forall r :: r in chain ==> !Mentions(r, text) {
      FilterNone(chain, (r: Rule) => Mentions(r, text));
      FilterAll(chain, (r: Rule) => !Mentions(r, text));
    } else {
      var r :| r in chain && Mentions(r, text);
      assert r in Filter(chain, (r: Rule) => Mentions(r, text));
    }
  }

  /** Each of our own rules mentions the subnet, when the configured text is
      canonical and not a single address. */
  lemma OursMention(clients: Cidr, lan: Cidr, block: Target, r: Rule)
    requires Canonical(clients) && clients.len < 32
    requires r in OurRules(clients, lan, block)
    ensures Mentions(r, CidrText(clients))
  {
    CanonicalIsNetwork(clients);
    var text := CidrText(clients);
    assert r.Match? && AddressColumn(r.src) == text;
    HoldsMiddle(LineHead(r), text, LineTail(r));
  }

  lemma HoldsMiddle(head: string, part: string, tail: string)
    ensures Holds(head + part + tail, part)
  {
    var text := head + part + tail;
    assert part <= text[|head|..];
  }

  lemma CanonicalIsNetwork(p: Cidr)
    requires Canonical(p)
    ensures Network(p) == p
  {
  }
}
