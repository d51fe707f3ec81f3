/** Writing a plan into the kernel, and telling whether it is still there. */
module Control {
  import opened Prelude
  import opened Net
  import opened Config
  import opened Tunnels
  import opened Plan
  import opened Routing
  import opened Hosts

  const FlushLimit: nat := 32

  /** The priorities the product owns, in flushing order. */
  const Owned: seq<nat> := [PrioSelf, PrioLan, PrioPin, PrioBond]

  // The rules of a plan

  function SelfRule(c: Settings): PolicyRule
  {
    PolicyRule(PrioSelf, None, Some(c.clients), None, MainTable)
  }

  function LanRule(c: Settings): PolicyRule
  {
    PolicyRule(PrioLan, None, Some(c.lan), None, MainTable)
  }

  function PinRule(ip: Addr, table: nat): PolicyRule
  {
    PolicyRule(PrioPin, Some(Single(ip)), None, None, table)
  }

  function BondRule(c: Settings): PolicyRule
  {
    PolicyRule(PrioBond, Some(c.clients), None, None, BondTable)
  }

  /** The pin rules, in the order a map happened to be walked. */
  function PinRules(order: seq<Addr>, pinTable: map<Addr, nat>): seq<PolicyRule>
    requires forall ip :: ip in order ==> ip in pinTable
  {
    if order == [] then []
    else
      assert order[0] in order;
      [PinRule(order[0], pinTable[order[0]])] + PinRules(order[1..], pinTable)
  }

  /** A walk over a map visits every key once. */
  ghost predicate Walk(order: seq<Addr>, pinTable: map<Addr, nat>)
  {
    Distinct(order) && forall ip :: ip in order <==> ip in pinTable
  }

  /** Without multipath routing the whole bond is its first tunnel. */
  function BondDevs(bond: seq<string>, multipath: bool): (r: seq<string>)
    ensures multipath || bond == [] ==> r == bond
    ensures !multipath && bond != [] ==> r == [bond[0]]
  {
    if multipath || bond == [] then bond else bond[..1]
  }

  /** The plan's rules and routes are in the kernel, and nothing else is at the
      priorities the product owns. */
  ghost predicate InForce(rt: Routing, p: Plan, c: Settings)
  {
    Sorted(rt.rules) && RulesInForce(rt.rules, p, c) && RoutesInForce(rt, p)
  }

  ghost predicate RulesInForce(rules: seq<PolicyRule>, p: Plan, c: Settings)
  {
    && At(rules, PrioSelf) == [SelfRule(c)]
    && At(rules, PrioLan) == [LanRule(c)]
    && (exists order :: Walk(order, p.pinTable) && At(rules, PrioPin) == PinRules(order, p.pinTable))
    && At(rules, PrioBond) == (if p.bond == [] then [] else [BondRule(c)])
  }

  ghost predicate RoutesInForce(rt: Routing, p: Plan)
  {
    && (p.bond != [] ==> TableOf(rt.tables, BondTable) == [Route(Default, BondDevs(p.bond, rt.multipath))])
    && (forall ip :: ip in p.pinTable ==>
         ip in p.pins && TableOf(rt.tables, p.pinTable[ip]) == [Route(Default, [p.pins[ip]])])
  }

  // What the kernel then does

  /** Where a flow should go: foreign rules keep their places around ours; local
      destinations use the main table, a pinned client its own tunnel, any other
      client the bond. */
  function WantedRoute(rt: Routing, p: Plan, c: Settings, f: Flow): Option<Route>
  {
    OrElse(Lookup(Band(rt.rules, 0, PrioSelf), rt.tables, f),
    OrElse(if Contains(c.clients, f.dst) || Contains(c.lan, f.dst) then TableLookup(TableOf(rt.tables, MainTable), f.dst) else None,
    OrElse(Lookup(Band(rt.rules, PrioLan + 1, PrioPin), rt.tables, f),
    OrElse(if f.src in p.pins then Some(Route(Default, [p.pins[f.src]])) else None,
    OrElse(Lookup(Band(rt.rules, PrioPin + 1, PrioBond), rt.tables, f),
    OrElse(if Contains(c.clients, f.src) && p.bond != [] then Some(Route(Default, BondDevs(p.bond, rt.multipath))) else None,
           Lookup(Band(rt.rules, PrioBond + 1, Top), rt.tables, f)))))))
  }

  lemma DefaultCovers(a: Addr)
    ensures Contains(Default, a)
  {
    assert Pow2(32) == 0x1_0000_0000 by {
      assert Pow2(8) == 256;
      Pow2Sum(8, 8);
      Pow2Sum(16, 16);
    }
  }

  lemma OneDefault(devs: seq<string>, dst: Addr)
    ensures TableLookup([Route(Default, devs)], dst) == Some(Route(Default, devs))
  {
    DefaultCovers(dst);
    assert [Route(Default, devs)][1..] == [];
  }

  lemma {:induction false} PinLookup(order: seq<Addr>, rt: Routing, p: Plan, f: Flow)
    requires forall ip :: ip in order ==> ip in p.pinTable
    requires RoutesInForce(rt, p)
    ensures Lookup(PinRules(order, p.pinTable), rt.tables, f)
         == if f.src in order then Some(Route(Default, [p.pins[f.src]])) else None
  {
    if order != [] {
      assert order[0] in order;
      PinLookup(order[1..], rt, p, f);
      SingleIsOne(order[0], f.src);
      OneDefault([p.pins[order[0]]], f.dst);
      assert PinRules(order, p.pinTable)[1..] == PinRules(order[1..], p.pinTable);
    }
  }

  lemma LookupOne(r: PolicyRule, tables: map<nat, seq<Route>>, f: Flow)
    ensures Lookup([r], tables, f) == if Selects(r, f) then TableLookup(TableOf(tables, r.table), f.dst) else None
  {
    assert [r][1..] == [];
  }

  /** Sorted rules, cut at a priority, are tried part by part. */
  lemma LookupCut(rt: Routing, lo: nat, mid: nat, f: Flow)
    requires Sorted(rt.rules) && lo <= mid <= Top
    ensures Lookup(Band(rt.rules, lo, Top), rt.tables, f)
         == OrElse(Lookup(Band(rt.rules, lo, mid), rt.tables, f), Lookup(Band(rt.rules, mid, Top), rt.tables, f))
  {
    BandSplit(rt.rules, lo, mid, Top);
    LookupConcat(Band(rt.rules, lo, mid), Band(rt.rules, mid, Top), rt.tables, f);
  }

  lemma LookupLocal(rt: Routing, p: Plan, c: Settings, f: Flow)
    requires InForce(rt, p, c)
    ensures OrElse(Lookup(At(rt.rules, PrioSelf), rt.tables, f), Lookup(At(rt.rules, PrioLan), rt.tables, f))
         == if Contains(c.clients, f.dst) || Contains(c.lan, f.dst) then TableLookup(TableOf(rt.tables, MainTable), f.dst) else None
  {
    LookupOne(SelfRule(c), rt.tables, f);
    LookupOne(LanRule(c), rt.tables, f);
  }

  lemma LookupPins(rt: Routing, p: Plan, c: Settings, f: Flow)
    requires InForce(rt, p, c) && p.pins.Keys == p.pinTable.Keys
    ensures Lookup(At(rt.rules, PrioPin), rt.tables, f)
         == if f.src in p.pins then Some(Route(Default, [p.pins[f.src]])) else None
  {
    var order :| Walk(order, p.pinTable) && At(rt.rules, PrioPin) == PinRules(order, p.pinTable);
    PinLookup(order, rt, p, f);
    assert f.src in p.pins <==> f.src in p.pins.Keys;
  }

  lemma LookupBond(rt: Routing, p: Plan, c: Settings, f: Flow)
    requires InForce(rt, p, c)
    ensures Lookup(At(rt.rules, PrioBond), rt.tables, f)
         == if Contains(c.clients, f.src) && p.bond != [] then Some(Route(Default, BondDevs(p.bond, rt.multipath))) else None
  {
    if p.bond != [] {
      LookupOne(BondRule(c), rt.tables, f);
      OneDefault(BondDevs(p.bond, rt.multipath), f.dst);
    }
  }

  /** With a plan in force the kernel routes every flow as wanted. */
  lemma LookupInForce(rt: Routing, p: Plan, c: Settings, f: Flow)
    requires InForce(rt, p, c) && p.pins.Keys == p.pinTable.Keys
    ensures Lookup(rt.rules, rt.tables, f) == WantedRoute(rt, p, c, f)
  {
    FilterAll(rt.rules, (r: PolicyRule) => 0 <= r.prio < Top);
    LookupCut(rt, 0, PrioSelf, f);
    LookupCut(rt, PrioSelf, PrioLan, f);
    LookupCut(rt, PrioLan, PrioLan + 1, f);
    LookupCut(rt, PrioLan + 1, PrioPin, f);
    LookupCut(rt, PrioPin, PrioPin + 1, f);
    LookupCut(rt, PrioPin + 1, PrioBond, f);
    LookupCut(rt, PrioBond, PrioBond + 1, f);
    LookupLocal(rt, p, c, f);
    LookupPins(rt, p, c, f);
    LookupBond(rt, p, c, f);
  }

  // Writing it

  function DropUpTo<T>(s: seq<T>, n: nat): seq<T>
  {
    if |s| <= n then [] else s[n..]
  }

  /** Bands that do not hold the priority are the same. */
  ghost predicate SameAround(now: seq<PolicyRule>, was: seq<PolicyRule>, prio: nat)
  {
    forall lo: nat, hi: nat {:trigger Band(now, lo, hi)} :: hi <= prio || prio < lo ==> Band(now, lo, hi) == Band(was, lo, hi)
  }

  predicate Foreign(lo: nat, hi: nat)
  {
    && (hi <= PrioSelf || PrioSelf < lo) && (hi <= PrioLan || PrioLan < lo)
    && (hi <= PrioPin || PrioPin < lo) && (hi <= PrioBond || PrioBond < lo)
  }

  /** Other people's rules are where they were. */
  ghost predicate ForeignKept(now: seq<PolicyRule>, was: seq<PolicyRule>)
  {
    forall lo: nat, hi: nat {:trigger Band(now, lo, hi)} :: Foreign(lo, hi) ==> Band(now, lo, hi) == Band(was, lo, hi)
  }

  /** The first n owned priorities have lost their first rules, at most 32 each. */
  ghost predicate FlushedUpTo(now: seq<PolicyRule>, was: seq<PolicyRule>, n: nat)
  {
    && Sorted(now) && ForeignKept(now, was)
    && forall k :: 0 <= k < |Owned| ==>
         At(now, Owned[k]) == if k < n then DropUpTo(At(was, Owned[k]), FlushLimit) else At(was, Owned[k])
  }

  lemma FlushNext(next: seq<PolicyRule>, now: seq<PolicyRule>, was: seq<PolicyRule>, n: nat)
    requires n < |Owned| && FlushedUpTo(now, was, n)
    requires Sorted(next) && SameAround(next, now, Owned[n]) && At(next, Owned[n]) == DropUpTo(At(now, Owned[n]), FlushLimit)
    ensures FlushedUpTo(next, was, n + 1)
  {
    forall lo: nat, hi: nat | Foreign(lo, hi)
      ensures Band(next, lo, hi) == Band(was, lo, hi)
    {
      assert Owned[n] in Owned;
      assert Band(now, lo, hi) == Band(was, lo, hi);
    }
    forall k | 0 <= k < |Owned|
      ensures At(next, Owned[k]) == if k < n + 1 then DropUpTo(At(was, Owned[k]), FlushLimit) else At(was, Owned[k])
    {
      if k != n {
        assert Owned[k] + 1 <= Owned[n] || Owned[n] < Owned[k];
      }
    }
  }

  lemma DelOne(rules: seq<PolicyRule>, prio: nat)
    requires Sorted(rules) && HasPrio(rules, prio)
    ensures Sorted(DelRule(rules, prio)) && SameAround(DelRule(rules, prio), rules, prio)
    ensures |At(rules, prio)| > 0 && At(DelRule(rules, prio), prio) == At(rules, prio)[1..]
  {
    DelKeepsSorted(rules, prio);
    DelInBand(rules, prio, prio, prio + 1);
    forall lo: nat, hi: nat | hi <= prio || prio < lo
      ensures Band(DelRule(rules, prio), lo, hi) == Band(rules, lo, hi)
    {
      DelInBand(rules, prio, lo, hi);
    }
  }

  lemma NoneAt(rules: seq<PolicyRule>, prio: nat)
    requires !HasPrio(rules, prio)
    ensures At(rules, prio) == []
  {
    FilterNone(rules, (r: PolicyRule) => prio <= r.prio < prio + 1);
  }

  method FlushPriority(h: Hosts.Host, prio: nat)
    requires h.Valid()
    modifies h
    ensures h.FwKept()
    ensures LinksOf(h.issued) == LinksOf(old(h.issued))
    ensures h.rtSteady && old(Sorted(h.rt.rules)) ==>
        && h.rt == old(h.rt).(rules := h.rt.rules)
        && Sorted(h.rt.rules) && SameAround(h.rt.rules, old(h.rt.rules), prio)
        && At(h.rt.rules, prio) == DropUpTo(At(old(h.rt.rules), prio), FlushLimit)
  {
    hide LinksOf, At, HasPrio;
    ghost var was := h.rt;
    for i := 0 to FlushLimit
      invariant h.FwKept() && LinksOf(h.issued) == LinksOf(old(h.issued))
      invariant h.rtSteady && Sorted(was.rules) ==>
          && h.rt == was.(rules := h.rt.rules)
          && Sorted(h.rt.rules) && SameAround(h.rt.rules, was.rules, prio)
          && i <= |At(was.rules, prio)| && At(h.rt.rules, prio) == At(was.rules, prio)[i..]
    {
      ghost var rules := h.rt.rules;
      if h.rtSteady && Sorted(was.rules) {
        if HasPrio(rules, prio) {
          DelOne(rules, prio);
        } else {
          NoneAt(rules, prio);
        }
      }
      var deleted := h.Ip(RuleDel(prio));
      if !deleted {
        break;
      }
    }
  }

  /** Each owned priority loses its rules, up to 32; nobody else loses any. */
  method FlushOurRules(h: Hosts.Host)
    requires h.Valid()
    modifies h
    ensures h.FwKept()
    ensures LinksOf(h.issued) == LinksOf(old(h.issued))
    ensures h.rtSteady && old(Sorted(h.rt.rules)) ==>
        h.rt == old(h.rt).(rules := h.rt.rules) && FlushedUpTo(h.rt.rules, old(h.rt.rules), |Owned|)
  {
    hide LinksOf;
    ghost var was := h.rt;
    for n := 0 to |Owned|
      invariant h.FwKept() && LinksOf(h.issued) == LinksOf(old(h.issued))
      invariant h.rtSteady && Sorted(was.rules) ==>
          h.rt == was.(rules := h.rt.rules) && FlushedUpTo(h.rt.rules, was.rules, n)
    {
      ghost var now := h.rt.rules;
      FlushPriority(h, Owned[n]);
      if h.rtSteady && Sorted(was.rules) {
        FlushNext(h.rt.rules, now, was.rules, n);
      }
    }
  }

  /** One table holds exactly one default route, the other tables, the rules and
      the interfaces are as before. */
  predicate OnlyTable(rt: Routing, was: Routing, t: nat, routes: seq<Route>)
  {
    rt == was.(tables := was.tables[t := routes])
  }

  /** Flushing a table and replacing its default leaves that default alone. */
  lemma FlushThenReplace(rt: Routing, t: nat, devs: seq<string>)
    requires devs != [] && (forall d :: d in devs ==> d in rt.links) && (|devs| > 1 ==> rt.multipath)
    ensures var (after, ok) := Exec(Exec(rt, RouteFlush(t)).0, RouteReplace(t, devs));
      ok && OnlyTable(after, rt, t, [Route(Default, devs)])
  {
    var flushed := Exec(rt, RouteFlush(t)).0;
    assert TableOf(flushed.tables, t) == [];
    assert [Route(Default, devs)] + WithoutDefault([]) == [Route(Default, devs)];
    assert flushed.tables[t := [Route(Default, devs)]] == rt.tables[t := [Route(Default, devs)]];
  }

  /** The bond gets its default route; where the kernel refuses several next hops,
      all of it takes the first tunnel and the caller is told. */
  method ApplyBondTable(h: Hosts.Host, p: Plan) returns (ok: bool, multipathMissing: bool)
    requires h.Valid()
    modifies h
    ensures h.FwKept()
    ensures LinksOf(h.issued) == LinksOf(old(h.issued))
    ensures h.rtSteady && (forall d :: d in p.bond ==> d in old(h.rt.links)) ==>
        && ok && multipathMissing == (|p.bond| > 1 && !h.rt.multipath)
        && OnlyTable(h.rt, old(h.rt), BondTable,
             if p.bond == [] then [] else [Route(Default, BondDevs(p.bond, h.rt.multipath))])
    ensures h.rtSteady ==> h.rt.links == old(h.rt.links)
  {
    hide LinksOf, WithoutDefault, TableOf;
    assert |p.bond| == 1 ==> p.bond[..1] == p.bond;
    if h.rtSteady && p.bond != [] && forall d :: d in p.bond ==> d in h.rt.links {
      FlushThenReplace(h.rt, BondTable, BondDevs(p.bond, h.rt.multipath));
    }
    var _ := h.Ip(RouteFlush(BondTable));
    if p.bond == [] {
      return true, false;
    }
    ok := h.Ip(RouteReplace(BondTable, p.bond));
    if ok {
      return true, false;
    }
    if |p.bond| == 1 {
      return false, false;
    }
    ok := h.Ip(RouteReplace(BondTable, p.bond[..1]));
    return ok, ok;
  }

  /** Table i of the five holds the default route of live tunnel i, or nothing. */
  function PinTableRoutes(p: Plan, i: nat): seq<Route>
  {
    if i < |p.live| then [Route(Default, [p.live[i].name])] else []
  }

  /** The first n pin tables are written; nothing else changed. */
  ghost predicate PinTablesUpTo(rt: Routing, was: Routing, p: Plan, n: nat)
  {
    && rt == was.(tables := rt.tables)
    && (forall i :: 0 <= i < n ==> TableOf(rt.tables, PinTableBase + i) == PinTableRoutes(p, i))
    && (forall t: nat {:trigger TableOf(rt.tables, t)} ::
          !(PinTableBase <= t < PinTableBase + n) ==> TableOf(rt.tables, t) == TableOf(was.tables, t))
  }

  lemma PinTableNext(next: Routing, now: Routing, was: Routing, p: Plan, n: nat)
    requires PinTablesUpTo(now, was, p, n) && OnlyTable(next, now, PinTableBase + n, PinTableRoutes(p, n))
    ensures PinTablesUpTo(next, was, p, n + 1)
  {
    forall t: nat | t != PinTableBase + n
      ensures TableOf(next.tables, t) == TableOf(now.tables, t)
    {
    }
  }

  /** Pin table i: emptied, and given its tunnel where there is one. */
  method ApplyPinTable(h: Hosts.Host, p: Plan, i: nat) returns (ok: bool)
    requires h.Valid()
    modifies h
    ensures h.FwKept()
    ensures LinksOf(h.issued) == LinksOf(old(h.issued))
    ensures h.rtSteady && (i < |p.live| ==> p.live[i].name in old(h.rt.links)) ==>
        ok && OnlyTable(h.rt, old(h.rt), PinTableBase + i, PinTableRoutes(p, i))
    ensures h.rtSteady ==> h.rt.links == old(h.rt.links)
    ensures h.rtSteady && ok && i < |p.live| ==> p.live[i].name in old(h.rt.links)
  {
    hide LinksOf;
    if h.rtSteady && i < |p.live| && p.live[i].name in h.rt.links {
      FlushThenReplace(h.rt, PinTableBase + i, [p.live[i].name]);
    }
    var _ := h.Ip(RouteFlush(PinTableBase + i));
    if i >= |p.live| {
      return true;
    }
    ok := h.Ip(RouteReplace(PinTableBase + i, [p.live[i].name]));
  }

  method ApplyPinTables(h: Hosts.Host, p: Plan) returns (ok: bool)
    requires h.Valid()
    modifies h
    ensures h.FwKept()
    ensures LinksOf(h.issued) == LinksOf(old(h.issued))
    ensures h.rtSteady && (forall t :: t in p.live ==> t.name in old(h.rt.links)) ==>
        ok && PinTablesUpTo(h.rt, old(h.rt), p, MaxTunnels)
    ensures h.rtSteady && ok ==> forall i :: 0 <= i < |p.live| && i < MaxTunnels ==> p.live[i].name in old(h.rt.links)
  {
    hide LinksOf;
    ghost var was := h.rt;
    ghost var linked := forall t :: t in p.live ==> t.name in was.links;
    for i := 0 to MaxTunnels
      invariant h.FwKept() && LinksOf(h.issued) == LinksOf(old(h.issued))
      invariant h.rtSteady && linked ==> PinTablesUpTo(h.rt, was, p, i)
      invariant h.rtSteady ==> h.rt.links == was.links
      invariant h.rtSteady ==> forall j :: 0 <= j < |p.live| && j < i ==> p.live[j].name in was.links
    {
      ghost var before := h.rt;
      if i < |p.live| {
        assert p.live[i] in p.live;
      }
      var routed := ApplyPinTable(h, p, i);
      if !routed {
        return false;
      }
      if h.rtSteady && linked {
        PinTableNext(h.rt, before, was, p, i);
      }
    }
    return true;
  }

  // The rules

  /** New rules, by the priority they are for. */
  datatype Slots = Slots(self: seq<PolicyRule>, lan: seq<PolicyRule>, pin: seq<PolicyRule>, bond: seq<PolicyRule>)

  const NoSlots := Slots([], [], [], [])

  /** What a flush leaves at a priority. */
  function Left(was: seq<PolicyRule>, prio: nat): seq<PolicyRule>
  {
    DropUpTo(At(was, prio), FlushLimit)
  }

  /** Every owned priority holds what flushing left of it, then the new rules. */
  ghost predicate Stacked(now: seq<PolicyRule>, was: seq<PolicyRule>, added: Slots)
  {
    && At(now, PrioSelf) == Left(was, PrioSelf) + added.self
    && At(now, PrioLan) == Left(was, PrioLan) + added.lan
    && At(now, PrioPin) == Left(was, PrioPin) + added.pin
    && At(now, PrioBond) == Left(was, PrioBond) + added.bond
  }

  ghost predicate Built(now: seq<PolicyRule>, was: seq<PolicyRule>, added: Slots)
  {
    Sorted(now) && ForeignKept(now, was) && Stacked(now, was, added)
  }

  function Put(s: Slots, r: PolicyRule): Slots
  {
    if r.prio == PrioSelf then s.(self := s.self + [r])
    else if r.prio == PrioLan then s.(lan := s.lan + [r])
    else if r.prio == PrioPin then s.(pin := s.pin + [r])
    else s.(bond := s.bond + [r])
  }

  lemma AddKeepsForeign(now: seq<PolicyRule>, was: seq<PolicyRule>, r: PolicyRule)
    requires Sorted(now) && ForeignKept(now, was) && r.prio in Owned
    ensures ForeignKept(AddRule(now, r), was)
  {
    forall lo: nat, hi: nat | Foreign(lo, hi)
      ensures Band(AddRule(now, r), lo, hi) == Band(was, lo, hi)
    {
      AddInBand(now, r, lo, hi);
      assert Band(now, lo, hi) == Band(was, lo, hi);
    }
  }

  lemma AddStacks(now: seq<PolicyRule>, was: seq<PolicyRule>, added: Slots, r: PolicyRule)
    requires Sorted(now) && Stacked(now, was, added) && r.prio in Owned
    ensures Stacked(AddRule(now, r), was, Put(added, r))
  {
    hide At, AddRule, Sorted, Left;
    AddAt(now, r, PrioSelf);
    AddAt(now, r, PrioLan);
    AddAt(now, r, PrioPin);
    AddAt(now, r, PrioBond);
  }

  lemma AddNext(now: seq<PolicyRule>, was: seq<PolicyRule>, added: Slots, r: PolicyRule)
    requires Built(now, was, added) && r.prio in Owned
    ensures Built(AddRule(now, r), was, Put(added, r))
  {
    AddKeepsSorted(now, r);
    AddKeepsForeign(now, was, r);
    AddStacks(now, was, added, r);
  }

  lemma AddAt(now: seq<PolicyRule>, r: PolicyRule, prio: nat)
    requires Sorted(now)
    ensures At(AddRule(now, r), prio) == if r.prio == prio then At(now, prio) + [r] else At(now, prio)
  {
    hide Band, AddRule, Sorted;
    AddInBand(now, r, prio, prio + 1);
  }

  /** The new rules, priority by priority. */
  function PlanRules(p: Plan, c: Settings, order: seq<Addr>): Slots
    requires forall ip :: ip in order ==> ip in p.pinTable
  {
    Slots([SelfRule(c)], [LanRule(c)], PinRules(order, p.pinTable), BondRules(p, c))
  }

  /** The bond, when anything is live. */
  function BondRules(p: Plan, c: Settings): seq<PolicyRule>
  {
    if p.bond == [] then [] else [BondRule(c)]
  }

  /** The same rules as they are added: destination exceptions first, to be above
      the pins, then the pins in the order the map is walked, then the bond. */
  function PlanList(p: Plan, c: Settings, order: seq<Addr>): seq<PolicyRule>
    requires forall ip :: ip in order ==> ip in p.pinTable
  {
    [SelfRule(c), LanRule(c)] + PinRules(order, p.pinTable) + BondRules(p, c)
  }

  function Stack(rs: seq<PolicyRule>): Slots
  {
    if rs == [] then NoSlots else Put(Stack(rs[..|rs| - 1]), rs[|rs| - 1])
  }

  function SlotOf(s: Slots, prio: nat): seq<PolicyRule>
  {
    if prio == PrioSelf then s.self else if prio == PrioLan then s.lan else if prio == PrioPin then s.pin else s.bond
  }

  lemma StackSnoc(rs: seq<PolicyRule>, r: PolicyRule)
    ensures Stack(rs + [r]) == Put(Stack(rs), r)
  {
    assert (rs + [r])[..|rs|] == rs;
  }

  lemma {:induction false} StackMembers(rs: seq<PolicyRule>, r: PolicyRule, prio: nat)
    requires r in SlotOf(Stack(rs), prio)
    ensures r in rs
  {
    hide Put;
    if rs != [] {
      var last := rs[|rs| - 1];
      PutMembers(Stack(rs[..|rs| - 1]), last, prio);
      if r in SlotOf(Stack(rs[..|rs| - 1]), prio) {
        StackMembers(rs[..|rs| - 1], r, prio);
      }
    }
  }

  lemma PutMembers(s: Slots, r: PolicyRule, prio: nat)
    ensures forall x :: x in SlotOf(Put(s, r), prio) ==> x in SlotOf(s, prio) || x == r
  {
  }

  lemma {:induction false} StackPins(rs: seq<PolicyRule>, pins: seq<PolicyRule>)
    requires forall r :: r in pins ==> r.prio == PrioPin
    ensures Stack(rs + pins) == Stack(rs).(pin := Stack(rs).pin + pins)
    decreases |pins|
  {
    hide Stack;
    if pins == [] {
      assert rs + pins == rs;
      assert Stack(rs).pin + [] == Stack(rs).pin;
    } else {
      var n := |pins| - 1;
      assert pins == pins[..n] + [pins[n]] && pins[n] in pins;
      assert rs + pins == rs + pins[..n] + [pins[n]];
      StackPins(rs, pins[..n]);
      StackSnoc(rs + pins[..n], pins[n]);
    }
  }

  lemma {:induction false} PinRulesAre(order: seq<Addr>, pinTable: map<Addr, nat>)
    requires forall ip :: ip in order ==> ip in pinTable
    ensures |PinRules(order, pinTable)| == |order|
    ensures forall i :: 0 <= i < |order| ==> order[i] in pinTable && PinRules(order, pinTable)[i] == PinRule(order[i], pinTable[order[i]])
  {
    if order != [] {
      assert order[0] in order;
      PinRulesAre(order[1..], pinTable);
      forall i | 0 <= i < |order|
        ensures order[i] in pinTable && PinRules(order, pinTable)[i] == PinRule(order[i], pinTable[order[i]])
      {
        assert order[i] in order;
        if i > 0 {
          assert order[1..][i - 1] == order[i];
        }
      }
    }
  }

  /** The list, place by place. */
  lemma PlanListAt(p: Plan, c: Settings, order: seq<Addr>)
    requires forall ip :: ip in order ==> ip in p.pinTable
    ensures var list := PlanList(p, c, order);
      && |list| == |order| + 2 + |BondRules(p, c)| && list[0] == SelfRule(c) && list[1] == LanRule(c)
      && (forall i :: 0 <= i < |order| ==> order[i] in p.pinTable && list[i + 2] == PinRule(order[i], p.pinTable[order[i]]))
      && (p.bond != [] ==> list[|order| + 2] == BondRule(c))
  {
    PinRulesAre(order, p.pinTable);
    hide PinRules, SelfRule, LanRule, BondRule, PinRule;
    var list, pins := PlanList(p, c, order), PinRules(order, p.pinTable);
    assert forall i :: 0 <= i < |order| ==> list[i + 2] == pins[i];
  }

  /** Added in that order, the rules stack up as the plan wants them. */
  lemma PlanStacks(p: Plan, c: Settings, order: seq<Addr>)
    requires forall ip :: ip in order ==> ip in p.pinTable
    ensures Stack(PlanList(p, c, order)) == PlanRules(p, c, order)
  {
    StackUpTo(p, c, order, |order|);
    var first := [SelfRule(c), LanRule(c)] + PinRules(order, p.pinTable);
    PlanListUpTo(p, c, order, |order|);
    hide PinRules, Stack, SelfRule, LanRule, BondRule;
    assert PinRules(order, p.pinTable)[..|order|] == PinRules(order, p.pinTable);
    StackSnoc(first, BondRule(c));
    assert p.bond == [] ==> PlanList(p, c, order) == first;
    BondGoesLast(c);
  }

  lemma BondGoesLast(c: Settings)
    ensures forall s: Slots {:trigger Put(s, BondRule(c))} :: Put(s, BondRule(c)) == s.(bond := s.bond + [BondRule(c)])
  {
  }

  lemma StackExceptions(c: Settings)
    ensures Stack([SelfRule(c), LanRule(c)]) == Slots([SelfRule(c)], [LanRule(c)], [], [])
  {
    StackSnoc([], SelfRule(c));
    StackSnoc([SelfRule(c)], LanRule(c));
    assert [] + [SelfRule(c)] == [SelfRule(c)] && [SelfRule(c)] + [LanRule(c)] == [SelfRule(c), LanRule(c)];
  }

  lemma PlanListUpTo(p: Plan, c: Settings, order: seq<Addr>, k: nat)
    requires k <= |order| && forall ip :: ip in order ==> ip in p.pinTable
    ensures |PinRules(order, p.pinTable)| == |order| && k + 2 <= |PlanList(p, c, order)|
    ensures PlanList(p, c, order)[..k + 2] == [SelfRule(c), LanRule(c)] + PinRules(order, p.pinTable)[..k]
  {
    PinRulesAre(order, p.pinTable);
    hide PinRules, SelfRule, LanRule, BondRule;
  }

  lemma PinRulesArePins(order: seq<Addr>, pinTable: map<Addr, nat>)
    requires forall ip :: ip in order ==> ip in pinTable
    ensures forall r :: r in PinRules(order, pinTable) ==> r.prio == PrioPin
  {
    PinRulesAre(order, pinTable);
    hide PinRules;
  }

  /** The rules up to the kth pin. */
  lemma StackUpTo(p: Plan, c: Settings, order: seq<Addr>, k: nat)
    requires k <= |order| && forall ip :: ip in order ==> ip in p.pinTable
    ensures |PinRules(order, p.pinTable)| == |order| && k + 2 <= |PlanList(p, c, order)|
    ensures Stack(PlanList(p, c, order)[..k + 2]) == Slots([SelfRule(c)], [LanRule(c)], PinRules(order, p.pinTable)[..k], [])
  {
    PinRulesArePins(order, p.pinTable);
    PlanListUpTo(p, c, order, k);
    hide PinRules, Stack, PlanList, SelfRule, LanRule;
    var pins := PinRules(order, p.pinTable)[..k];
    assert forall r :: r in pins ==> r in PinRules(order, p.pinTable);
    StackExceptions(c);
    StackPins([SelfRule(c), LanRule(c)], pins);
    assert [] + pins == pins;
  }

  lemma StackNone()
    ensures Stack([]) == NoSlots
  {
  }

  /** No rule is in the list twice, and all are at owned priorities. */
  lemma PlanListIsDistinct(p: Plan, c: Settings, order: seq<Addr>)
    requires Walk(order, p.pinTable)
    ensures Distinct(PlanList(p, c, order)) && forall r :: r in PlanList(p, c, order) ==> r.prio in Owned
  {
    PlanListAt(p, c, order);
    var list := PlanList(p, c, order);
    assert |BondRules(p, c)| == if p.bond == [] then 0 else 1;
    hide PlanList, BondRules;
    assert PrioSelf == Owned[0] && PrioLan == Owned[1] && PrioPin == Owned[2] && PrioBond == Owned[3];
    forall i | 0 <= i < |list|
      ensures list[i].prio == if i == 0 then PrioSelf else if i == 1 then PrioLan else if i < |order| + 2 then PrioPin else PrioBond
    {
      if 2 <= i < |order| + 2 {
        var a := i - 2;
        assert list[a + 2] == PinRule(order[a], p.pinTable[order[a]]);
      }
    }
    forall i, j | 0 <= i < j < |list|
      ensures list[i] != list[j]
    {
      if 2 <= i && j < |order| + 2 {
        var a, b := i - 2, j - 2;
        assert order[a] != order[b];
        assert list[a + 2] == PinRule(order[a], p.pinTable[order[a]]) && list[b + 2] == PinRule(order[b], p.pinTable[order[b]]);
      }
    }
    forall r | r in list
      ensures r.prio in Owned
    {
      var i :| 0 <= i < |list| && list[i] == r;
    }
  }

  /** A plan keeps to itself: its rules are at priorities 90, 91, 95 and 100, the
      exceptions for destinations in the main table, a pin for a client in one of
      five tables, the bond for all clients in another. */
  lemma PlanKeepsToItself(p: Plan, c: Settings, order: seq<Addr>, r: PolicyRule)
    requires Walk(order, p.pinTable) && Routable(p) && r in PlanList(p, c, order)
    ensures
      || r == PolicyRule(90, None, Some(c.clients), None, 254)
      || r == PolicyRule(91, None, Some(c.lan), None, 254)
      || (p.bond != [] && r == PolicyRule(100, Some(c.clients), None, None, 51820))
      || (r.prio == 95 && r.to == None && r.mark == None && 51821 <= r.table <= 51825
          && exists ip: Addr :: ip in p.pinTable && r.from == Some(Prefix(ip, 32)) && r.table == p.pinTable[ip])
  {
    PlanListAt(p, c, order);
    assert |BondRules(p, c)| == if p.bond == [] then 0 else 1;
    hide PlanList, BondRules;
    var list := PlanList(p, c, order);
    var i :| 0 <= i < |list| && list[i] == r;
    if 2 <= i < |order| + 2 {
      var a := i - 2;
      assert list[a + 2] == PinRule(order[a], p.pinTable[order[a]]) && order[a] in p.pinTable;
    }
  }

  /** The kernel refuses the rule, which the flush left where it is. */
  predicate Stuck(rt: Routing, r: PolicyRule)
  {
    !rt.doubles && r in Left(rt.rules, r.prio)
  }

  lemma BuiltHas(now: seq<PolicyRule>, was: seq<PolicyRule>, added: Slots, r: PolicyRule)
    requires Built(now, was, added) && r.prio in Owned
    ensures r in now <==> r in Left(was, r.prio) || r in SlotOf(added, r.prio)
  {
    assert r in now <==> r in At(now, r.prio);
  }

  /** One rule added at a priority the product owns. */
  method AddOwnRule(h: Hosts.Host, r: PolicyRule, ghost was: Routing, ghost done: seq<PolicyRule>) returns (ok: bool)
    requires h.Valid() && r.prio in Owned && r !in done
    modifies h
    ensures h.FwKept()
    ensures LinksOf(h.issued) == LinksOf(old(h.issued))
    ensures h.rtSteady && old(h.rt) == was.(rules := old(h.rt).rules) && old(Built(h.rt.rules, was.rules, Stack(done))) ==>
        && h.rt == was.(rules := h.rt.rules) && ok == !Stuck(was, r)
        && Built(h.rt.rules, was.rules, Stack(if ok then done + [r] else done))
  {
    hide LinksOf, Built, Left, Stack, Put;
    if h.rtSteady && Built(h.rt.rules, was.rules, Stack(done)) {
      BuiltHas(h.rt.rules, was.rules, Stack(done), r);
      AddNext(h.rt.rules, was.rules, Stack(done), r);
      StackSnoc(done, r);
      if r in SlotOf(Stack(done), r.prio) {
        StackMembers(done, r, r.prio);
      }
    }
    ok := h.Ip(RuleAdd(r));
  }

  /** Adds rule after rule, up to the first the kernel refuses. */
  method AddEach(h: Hosts.Host, rs: seq<PolicyRule>, ghost was: Routing) returns (ok: bool, ghost n: nat)
    requires h.Valid() && Distinct(rs) && forall r :: r in rs ==> r.prio in Owned
    modifies h
    ensures h.FwKept() && n <= |rs|
    ensures LinksOf(h.issued) == LinksOf(old(h.issued))
    ensures h.rtSteady && old(h.rt) == was.(rules := old(h.rt).rules) && old(Built(h.rt.rules, was.rules, NoSlots)) ==>
        && h.rt == was.(rules := h.rt.rules) && Built(h.rt.rules, was.rules, Stack(rs[..n])) && AddedUpTo(was, rs, n)
        && (ok <==> n == |rs|)
  {
    hide LinksOf, Built, Left, Stack, Stuck;
    StackNone();
    ghost var usual := h.rtSteady && h.rt == was.(rules := h.rt.rules) && Built(h.rt.rules, was.rules, NoSlots);
    for i := 0 to |rs|
      invariant h.FwKept() && LinksOf(h.issued) == LinksOf(old(h.issued))
      invariant usual ==> h.rt == was.(rules := h.rt.rules) && Built(h.rt.rules, was.rules, Stack(rs[..i]))
      invariant usual ==> forall j :: 0 <= j < i ==> !Stuck(was, rs[j])
    {
      assert rs[i] in rs && rs[..i + 1] == rs[..i] + [rs[i]];
      ok := AddOwnRule(h, rs[i], was, rs[..i]);
      if !ok {
        return false, i;
      }
    }
    return true, |rs|;
  }

  /** The first n rules were taken, and the next, if there is one, was not. */
  predicate AddedUpTo(was: Routing, rs: seq<PolicyRule>, n: nat)
    requires n <= |rs|
  {
    (forall i :: 0 <= i < n ==> !Stuck(was, rs[i])) && (n < |rs| ==> Stuck(was, rs[n]))
  }

  lemma FlushIsBuilt(now: seq<PolicyRule>, was: seq<PolicyRule>)
    requires FlushedUpTo(now, was, |Owned|)
    ensures Built(now, was, NoSlots)
  {
    assert Owned[0] == PrioSelf && Owned[1] == PrioLan && Owned[2] == PrioPin && Owned[3] == PrioBond;
  }

  /** Rebuilds the rules. When commands work it stops only at a rule that the
      flush left and the kernel does not take again. */
  method ApplyRules(h: Hosts.Host, p: Plan, c: Settings, order: seq<Addr>) returns (ok: bool, ghost n: nat)
    requires h.Valid() && Walk(order, p.pinTable)
    modifies h
    ensures h.FwKept() && n <= |PlanList(p, c, order)|
    ensures LinksOf(h.issued) == LinksOf(old(h.issued))
    ensures h.rtSteady && old(Sorted(h.rt.rules)) ==>
        && h.rt == old(h.rt).(rules := h.rt.rules) && (ok <==> n == |PlanList(p, c, order)|)
        && Built(h.rt.rules, old(h.rt.rules), Stack(PlanList(p, c, order)[..n]))
        && AddedUpTo(old(h.rt), PlanList(p, c, order), n)
  {
    hide LinksOf, Built, PlanList, FlushedUpTo, Stack, AddedUpTo;
    ghost var was := h.rt;
    FlushOurRules(h);
    if h.rtSteady && Sorted(was.rules) {
      FlushIsBuilt(h.rt.rules, was.rules);
    }
    PlanListIsDistinct(p, c, order);
    ok, n := AddEach(h, PlanList(p, c, order), was);
  }

  /** The tables of a plan are written, and no others. */
  ghost predicate TablesWritten(rt: Routing, was: Routing, p: Plan)
  {
    && TableOf(rt.tables, BondTable) == (if p.bond == [] then [] else [Route(Default, BondDevs(p.bond, rt.multipath))])
    && (forall i :: 0 <= i < MaxTunnels ==> TableOf(rt.tables, PinTableBase + i) == PinTableRoutes(p, i))
    && (forall t: nat {:trigger TableOf(rt.tables, t)} ::
          !(BondTable <= t < PinTableBase + MaxTunnels) ==> TableOf(rt.tables, t) == TableOf(was.tables, t))
  }

  /** The routing after a successful Apply, from any routing before it. */
  ghost predicate Applied(rt: Routing, was: Routing, p: Plan, c: Settings, order: seq<Addr>)
    requires Walk(order, p.pinTable)
  {
    && rt.links == was.links && rt.multipath == was.multipath && rt.doubles == was.doubles
    && Built(rt.rules, was.rules, PlanRules(p, c, order))
    && TablesWritten(rt, was, p)
  }

  /** The routing after an Apply that stopped at a rule the kernel does not take
      again: the tables are written, the rules up to there are. */
  ghost predicate Halted(rt: Routing, was: Routing, p: Plan, c: Settings, order: seq<Addr>)
    requires Walk(order, p.pinTable)
  {
    exists n | 0 <= n < |PlanList(p, c, order)| :: HaltedAt(rt, was, p, c, order, n)
  }

  ghost predicate HaltedAt(rt: Routing, was: Routing, p: Plan, c: Settings, order: seq<Addr>, n: nat)
    requires Walk(order, p.pinTable) && n < |PlanList(p, c, order)|
  {
    && rt.links == was.links && rt.multipath == was.multipath && rt.doubles == was.doubles
    && Built(rt.rules, was.rules, Stack(PlanList(p, c, order)[..n])) && AddedUpTo(was, PlanList(p, c, order), n)
    && TablesWritten(rt, was, p)
  }

  /** The kernel takes every rule of the plan, whatever the flush left. */
  predicate Fresh(rt: Routing, p: Plan, c: Settings)
  {
    && !Stuck(rt, SelfRule(c)) && !Stuck(rt, LanRule(c)) && (p.bond != [] ==> !Stuck(rt, BondRule(c)))
    && forall ip :: ip in p.pinTable ==> !Stuck(rt, PinRule(ip, p.pinTable[ip]))
  }

  /** Whatever order the pins are walked in, the rules are all taken or not. */
  lemma FreshExactly(rt: Routing, p: Plan, c: Settings, order: seq<Addr>, n: nat)
    requires Walk(order, p.pinTable) && n <= |PlanList(p, c, order)| && AddedUpTo(rt, PlanList(p, c, order), n)
    ensures n == |PlanList(p, c, order)| <==> Fresh(rt, p, c)
  {
    PlanListAt(p, c, order);
    var list := PlanList(p, c, order);
    assert |BondRules(p, c)| == if p.bond == [] then 0 else 1;
    hide PlanList, BondRules, Stuck, SelfRule, LanRule, PinRule, BondRule;
    if n == |list| {
      forall ip | ip in p.pinTable
        ensures !Stuck(rt, PinRule(ip, p.pinTable[ip]))
      {
        var i :| 0 <= i < |order| && order[i] == ip;
        assert !Stuck(rt, list[i + 2]);
      }
      assert p.bond != [] ==> !Stuck(rt, list[|order| + 2]);
    } else if 2 <= n < |order| + 2 {
      assert order[n - 2] in order;
    }
  }

  /** Every tunnel of the plan has its interface. */
  predicate Linked(rt: Routing, p: Plan)
  {
    forall t :: t in p.live ==> t.name in rt.links
  }

  lemma TablesCompose(rt: Routing, mid: Routing, was: Routing, p: Plan)
    requires OnlyTable(mid, was, BondTable, if p.bond == [] then [] else [Route(Default, BondDevs(p.bond, mid.multipath))])
    requires PinTablesUpTo(rt, mid, p, MaxTunnels)
    ensures TablesWritten(rt, was, p)
  {
    forall t: nat | !(BondTable <= t < PinTableBase + MaxTunnels)
      ensures TableOf(rt.tables, t) == TableOf(was.tables, t)
    {
      assert TableOf(rt.tables, t) == TableOf(mid.tables, t);
    }
    assert TableOf(rt.tables, BondTable) == TableOf(mid.tables, BondTable);
  }

  /** The six tables of a plan. */
  method ApplyTables(h: Hosts.Host, p: Plan) returns (ok: bool, multipathMissing: bool)
    requires h.Valid() && p.bond == Names(p.live)
    modifies h
    ensures h.FwKept()
    ensures LinksOf(h.issued) == LinksOf(old(h.issued))
    ensures h.rtSteady && old(Linked(h.rt, p)) ==>
        ok && h.rt == old(h.rt).(tables := h.rt.tables) && TablesWritten(h.rt, old(h.rt), p)
    ensures h.rtSteady && ok && |p.live| <= MaxTunnels ==> old(Linked(h.rt, p))
  {
    hide LinksOf;
    ghost var was := h.rt;
    assert Linked(was, p) ==> forall d :: d in p.bond ==> d in was.links by {
      assert forall i :: 0 <= i < |p.bond| ==> p.bond[i] == p.live[i].name && p.live[i] in p.live;
    }
    ok, multipathMissing := ApplyBondTable(h, p);
    if !ok {
      return;
    }
    ghost var mid := h.rt;
    ok := ApplyPinTables(h, p);
    if h.rtSteady && Linked(was, p) {
      TablesCompose(h.rt, mid, was, p);
    }
  }

  /** Writes the plan. The firewall is never touched; when commands work and the
      interfaces exist, the write succeeds exactly when the kernel takes every
      rule, and it is exact. */
  method Apply(h: Hosts.Host, p: Plan, c: Settings, order: seq<Addr>) returns (ok: bool, multipathMissing: bool)
    requires h.Valid() && Walk(order, p.pinTable) && p.bond == Names(p.live)
    modifies h
    ensures h.FwKept()
    ensures LinksOf(h.issued) == LinksOf(old(h.issued))
    ensures h.rtSteady && ok && |p.live| <= MaxTunnels ==> old(Linked(h.rt, p))
    ensures h.rtSteady && old(Sorted(h.rt.rules) && Linked(h.rt, p)) ==> (ok <==> old(Fresh(h.rt, p, c)))
    ensures h.rtSteady && old(Sorted(h.rt.rules) && Linked(h.rt, p)) ==>
        if ok then Applied(h.rt, old(h.rt), p, c, order) else Halted(h.rt, old(h.rt), p, c, order)
  {
    hide LinksOf, Built, Stack, AddedUpTo, TablesWritten, Fresh, PlanList, Sorted, Linked, Applied, Halted;
    ghost var was := h.rt;
    ok, multipathMissing := ApplyTables(h, p);
    if !ok {
      return;
    }
    ghost var mid := h.rt;
    ghost var n;
    ok, n := ApplyRules(h, p, c, order);
    if h.rtSteady && Sorted(was.rules) && Linked(was, p) {
      WriteEnds(h.rt, mid, was, p, c, order, n);
    }
  }

  /** Tables first, then rules up to the nth: that is a whole write, or a halted one. */
  lemma WriteEnds(rt: Routing, mid: Routing, was: Routing, p: Plan, c: Settings, order: seq<Addr>, n: nat)
    requires Walk(order, p.pinTable) && n <= |PlanList(p, c, order)|
    requires mid == was.(tables := mid.tables) && TablesWritten(mid, was, p) && rt == mid.(rules := rt.rules)
    requires Built(rt.rules, mid.rules, Stack(PlanList(p, c, order)[..n])) && AddedUpTo(mid, PlanList(p, c, order), n)
    ensures n == |PlanList(p, c, order)| <==> Fresh(was, p, c)
    ensures if n == |PlanList(p, c, order)| then Applied(rt, was, p, c, order) else Halted(rt, was, p, c, order)
  {
    RulesAloneDecide(mid, was, p, c, order, n);
    FreshExactly(was, p, c, order, n);
    PlanStacks(p, c, order);
    TablesStay(rt, mid, was, p);
    hide Built, Stack, AddedUpTo, TablesWritten, Fresh, PlanRules, PlanList;
    if n == |PlanList(p, c, order)| {
      assert PlanList(p, c, order)[..n] == PlanList(p, c, order);
    } else {
      assert HaltedAt(rt, was, p, c, order, n);
    }
  }

  lemma RulesAloneDecide(mid: Routing, was: Routing, p: Plan, c: Settings, order: seq<Addr>, n: nat)
    requires mid == was.(tables := mid.tables) && Walk(order, p.pinTable) && n <= |PlanList(p, c, order)|
    ensures AddedUpTo(mid, PlanList(p, c, order), n) <==> AddedUpTo(was, PlanList(p, c, order), n)
  {
  }

  lemma TablesStay(rt: Routing, mid: Routing, was: Routing, p: Plan)
    requires TablesWritten(mid, was, p) && rt.tables == mid.tables && rt.multipath == mid.multipath
    ensures TablesWritten(rt, was, p)
  {
  }

  // What an applied plan means

  /** No owned priority holds more rules than one flush removes. */
  ghost predicate Flushable(rules: seq<PolicyRule>)
  {
    && |At(rules, PrioSelf)| <= 32 && |At(rules, PrioLan)| <= 32
    && |At(rules, PrioPin)| <= 32 && |At(rules, PrioBond)| <= 32
  }

  /** A plan whose pins all lead to a table the plan fills. */
  ghost predicate Routable(p: Plan)
  {
    && p.bond == Names(p.live) && |p.live| <= MaxTunnels
    && p.pins.Keys == p.pinTable.Keys
    && forall ip :: ip in p.pinTable ==>
         PinTableBase <= p.pinTable[ip] < PinTableBase + |p.live| && p.live[p.pinTable[ip] - PinTableBase].name == p.pins[ip]
  }

  lemma BuildPlanIsRoutable(c: Settings, tunnels: seq<Tunnel>, p: Plan)
    requires IsPlan(p, c, tunnels) && |tunnels| <= MaxTunnels
    ensures Routable(p)
  {
    forall ip | ip in p.pinTable
      ensures PinTableBase <= p.pinTable[ip] < PinTableBase + |p.live| && p.live[p.pinTable[ip] - PinTableBase].name == p.pins[ip]
    {
      PinsAreRoutable(c, tunnels, p, ip);
    }
    assert p.pins.Keys == p.pinTable.Keys;
  }

  lemma AppliedRoutes(rt: Routing, was: Routing, p: Plan, c: Settings, order: seq<Addr>)
    requires Walk(order, p.pinTable) && Applied(rt, was, p, c, order) && Routable(p)
    ensures RoutesInForce(rt, p)
  {
    forall ip | ip in p.pinTable
      ensures ip in p.pins && TableOf(rt.tables, p.pinTable[ip]) == [Route(Default, [p.pins[ip]])]
    {
      var i := p.pinTable[ip] - PinTableBase;
      assert ip in p.pins.Keys;
      assert TableOf(rt.tables, PinTableBase + i) == PinTableRoutes(p, i);
    }
  }

  lemma {:induction false} WalkLength(order: seq<Addr>, keys: set<Addr>)
    requires Distinct(order) && forall ip :: ip in order <==> ip in keys
    ensures |order| == |keys|
  {
    if order == [] {
      assert keys == {};
    } else {
      assert forall ip :: ip in order[1..] <==> ip in keys - {order[0]};
      WalkLength(order[1..], keys - {order[0]});
    }
  }

  lemma PinCount(order: seq<Addr>, pinTable: map<Addr, nat>)
    requires Walk(order, pinTable)
    ensures |PinRules(order, pinTable)| == |pinTable|
  {
    PinRulesAre(order, pinTable);
    WalkLength(order, pinTable.Keys);
  }

  lemma CleanBuildIsInForce(now: seq<PolicyRule>, was: seq<PolicyRule>, p: Plan, c: Settings, order: seq<Addr>)
    requires Walk(order, p.pinTable) && Built(now, was, PlanRules(p, c, order)) && Flushable(was)
    ensures RulesInForce(now, p, c)
  {
    assert At(now, PrioPin) == PinRules(order, p.pinTable);
  }

  lemma InForceBuildWasClean(now: seq<PolicyRule>, was: seq<PolicyRule>, p: Plan, c: Settings, order: seq<Addr>)
    requires Walk(order, p.pinTable) && Built(now, was, PlanRules(p, c, order)) && RulesInForce(now, p, c)
    ensures Flushable(was)
  {
    PinCount(order, p.pinTable);
    var order' :| Walk(order', p.pinTable) && At(now, PrioPin) == PinRules(order', p.pinTable);
    PinCount(order', p.pinTable);
  }

  /** Apply is exact from any starting point exactly when no owned priority held
      more than 32 rules: otherwise stale rules survive the flush in front of the new ones. */
  lemma ApplyIsExact(rt: Routing, was: Routing, p: Plan, c: Settings, order: seq<Addr>)
    requires Walk(order, p.pinTable) && Applied(rt, was, p, c, order) && Routable(p)
    ensures InForce(rt, p, c) <==> Flushable(was.rules)
  {
    AppliedRoutes(rt, was, p, c, order);
    if Flushable(was.rules) {
      CleanBuildIsInForce(rt.rules, was.rules, p, c, order);
    }
    if InForce(rt, p, c) {
      InForceBuildWasClean(rt.rules, was.rules, p, c, order);
    }
  }

  /** What is in force can be flushed again, for up to 32 pins. */
  lemma InForceIsFlushable(rules: seq<PolicyRule>, p: Plan, c: Settings)
    requires RulesInForce(rules, p, c)
    ensures Flushable(rules) <==> |p.pinTable| <= FlushLimit
  {
    var order :| Walk(order, p.pinTable) && At(rules, PrioPin) == PinRules(order, p.pinTable);
    PinCount(order, p.pinTable);
  }

  /** From a flushable state Apply leads to a flushable state, for up to 32 pins;
      and the kernel then routes every flow as wanted, with everybody else's rules
      where they were, whatever order the pins were added in. */
  lemma ApplyRoutesAsWanted(rt: Routing, was: Routing, p: Plan, c: Settings, order: seq<Addr>, f: Flow)
    requires Walk(order, p.pinTable) && Applied(rt, was, p, c, order) && Routable(p) && Flushable(was.rules)
    ensures Lookup(rt.rules, rt.tables, f) == WantedRoute(rt, p, c, f)
    ensures Flushable(rt.rules) <==> |p.pinTable| <= FlushLimit
    ensures ForeignKept(rt.rules, was.rules)
  {
    ApplyIsExact(rt, was, p, c, order);
    LookupInForce(rt, p, c, f);
    InForceIsFlushable(rt.rules, p, c);
  }
}
