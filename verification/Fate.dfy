/** What becomes of a packet: where policy routing sends it, and whether the
    firewall lets it go there. */
module Fate {
  import opened Prelude
  import opened Net
  import opened Config
  import opened Tunnels
  import opened Plan
  import opened Firewall
  import opened Chain
  import opened Hosts
  import opened Control
  import R = Routing
  import Purge

  function FlowOf(p: Packet, mark: nat): R.Flow
  {
    R.Flow(p.src, p.dst, mark)
  }

  /** The packet may leave by dev: the routing sends it there, alone or as one of
      several next hops, and the firewall does not block it. */
  predicate MayLeave(s: Snapshot, p: Packet, mark: nat, others: Others, dev: string)
  {
    var hit := R.Lookup(s.rt.rules, s.rt.tables, FlowOf(p, mark));
    hit.Some? && dev in hit.value.devs && ForwardVerdict(s.fw, p, dev, others) != Blocked
  }

  /** Behind a shut chain a new outbound packet of a client leaves by a tunnel or
      not at all, whatever the routing is and whatever other rules exist. */
  lemma NothingEscapes(s: Snapshot, clients: Cidr, lan: Cidr, p: Packet, mark: nat, others: Others, dev: string)
    requires Purge.Shut(s.fw, clients, lan) && Outbound(p, clients, lan)
    ensures MayLeave(s, p, mark, others, dev) ==> IsTunnel(dev)
  {
    GuardedFailsClosed(s.fw, clients, lan);
  }

  /** Nobody else's rules decide for this flow before the pins do. */
  predicate Unclaimed(rt: R.Routing, f: R.Flow)
  {
    && R.Lookup(R.Band(rt.rules, 0, PrioSelf), rt.tables, f) == None
    && R.Lookup(R.Band(rt.rules, PrioLan + 1, PrioPin), rt.tables, f) == None
  }

  /** A pinned client's outbound packet is routed to its own tunnel only, and the
      firewall lets it through exactly when that tunnel's name starts with wg. */
  lemma PinnedDelivery(
    s: Snapshot, c: Settings, plan: Plan, block: Target, rest: seq<Rule>, p: Packet, mark: nat, others: Others, dev: string)
    requires InForce(s.rt, plan, c) && plan.pins.Keys == plan.pinTable.Keys && block != Accept
    requires Hooked(s.fw) && s.fw.user == Some(OurRules(c.clients, c.lan, block) + rest)
    requires Outbound(p, c.clients, c.lan) && p.src in plan.pins && Unclaimed(s.rt, FlowOf(p, mark))
    ensures R.Lookup(s.rt.rules, s.rt.tables, FlowOf(p, mark)) == Some(R.Route(R.Default, [plan.pins[p.src]]))
    ensures MayLeave(s, p, mark, others, dev) <==> dev == plan.pins[p.src] && IsTunnel(dev)
  {
    hide OurRules, InForce, R.Lookup, R.Band, R.TableLookup, IsTunnel;
    LookupInForce(s.rt, plan, c, FlowOf(p, mark));
    ArmedVerdict(c.clients, c.lan, block, rest, p, dev, others);
  }

  /** A client that is not pinned shares the bond: its outbound packet is routed to
      the live tunnels, or to the first of them on a kernel without multipath,
      and the firewall lets it through on exactly those whose name starts with wg. */
  lemma BondedDelivery(
    s: Snapshot, c: Settings, plan: Plan, block: Target, rest: seq<Rule>, p: Packet, mark: nat, others: Others, dev: string)
    requires InForce(s.rt, plan, c) && plan.pins.Keys == plan.pinTable.Keys && block != Accept && plan.bond != []
    requires Hooked(s.fw) && s.fw.user == Some(OurRules(c.clients, c.lan, block) + rest)
    requires Outbound(p, c.clients, c.lan) && p.src !in plan.pins && Unclaimed(s.rt, FlowOf(p, mark))
    requires R.Lookup(R.Band(s.rt.rules, PrioPin + 1, PrioBond), s.rt.tables, FlowOf(p, mark)) == None
    ensures R.Lookup(s.rt.rules, s.rt.tables, FlowOf(p, mark))
         == Some(R.Route(R.Default, BondDevs(plan.bond, s.rt.multipath)))
    ensures MayLeave(s, p, mark, others, dev) <==> dev in BondDevs(plan.bond, s.rt.multipath) && IsTunnel(dev)
  {
    hide OurRules, InForce, R.Lookup, R.Band, R.TableLookup, IsTunnel, BondDevs;
    LookupInForce(s.rt, plan, c, FlowOf(p, mark));
    ArmedVerdict(c.clients, c.lan, block, rest, p, dev, others);
  }

  /** No packet sent from a management address is caught by a pin or by the bond,
      whatever its destination: the host stays reachable. */
  lemma GuardProtectsHost(
    raw: Raw, mgmt: seq<Addr>, lan: Cidr, staleAfter: int, tunnels: seq<Tunnel>, plan: Plan, rt: R.Routing,
    a: Addr, dst: Addr, mark: nat, r: R.PolicyRule)
    requires WellFormed(raw) && KeepsClear(raw, mgmt) && a in mgmt
    requires var c := Resolve(raw, lan, staleAfter); IsPlan(plan, c, tunnels) && InForce(rt, plan, c)
    requires r in R.At(rt.rules, PrioPin) + R.At(rt.rules, PrioBond)
    ensures !R.Selects(r, R.Flow(a, dst, mark))
  {
    var c := Resolve(raw, lan, staleAfter);
    var order :| Walk(order, plan.pinTable) && R.At(rt.rules, PrioPin) == PinRules(order, plan.pinTable);
    if r in R.At(rt.rules, PrioPin) {
      var ip := PinRuleIsFor(order, plan.pinTable, r);
      SingleIsOne(ip, a);
      assert ip in c.pinned;
    } else {
      assert r == BondRule(c);
    }
  }

  lemma {:induction false} PinRuleIsFor(order: seq<Addr>, pinTable: map<Addr, nat>, r: R.PolicyRule) returns (ip: Addr)
    requires (forall x :: x in order ==> x in pinTable) && r in PinRules(order, pinTable)
    ensures ip in pinTable && r == PinRule(ip, pinTable[ip])
  {
    assert order[0] in order;
    if r == PinRule(order[0], pinTable[order[0]]) {
      ip := order[0];
    } else {
      ip := PinRuleIsFor(order[1..], pinTable, r);
    }
  }
}
