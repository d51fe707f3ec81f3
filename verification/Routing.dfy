/** Policy routing as the kernel holds it, one command at a time, and where it
    sends a packet. */
module Routing {
  import opened Prelude
  import opened Net

  const MainTable: nat := 254

  /** A route sends a destination prefix to one interface, or to any of several. */
  datatype Route = Route(dst: Cidr, devs: seq<string>)

  /** Priorities are 32-bit. */
  type Prio = p: nat | p < 0x1_0000_0000
  const Top: nat := 0x1_0000_0000

  /** A policy rule: selectors that are absent match everything. */
  datatype PolicyRule = PolicyRule(prio: Prio, from: Option<Cidr>, to: Option<Cidr>, mark: Option<nat>, table: nat)

  /** multipath says that the kernel takes a route over several interfaces, doubles
      that it takes a policy rule identical to one it has: Linux did until 4.8,
      and since then `ip rule add` is answered with "File exists". */
  datatype Routing = Routing(
    rules: seq<PolicyRule>, tables: map<nat, seq<Route>>, links: set<string>, multipath: bool, doubles: bool)

  datatype Flow = Flow(src: Addr, dst: Addr, mark: nat)

  const Default: Cidr := Prefix(0, 0)

  predicate Selects(r: PolicyRule, f: Flow)
  {
    && (r.from.Some? ==> Contains(r.from.value, f.src))
    && (r.to.Some? ==> Contains(r.to.value, f.dst))
    && (r.mark.Some? ==> r.mark.value == f.mark)
  }

  function TableOf(tables: map<nat, seq<Route>>, t: nat): seq<Route>
  {
    if t in tables then tables[t] else []
  }

  /** The longest matching prefix of one table. */
  function TableLookup(table: seq<Route>, dst: Addr): Option<Route>
  {
    if table == [] then None
    else
      var rest := TableLookup(table[1..], dst);
      if !Contains(table[0].dst, dst) then rest
      else if rest.Some? && rest.value.dst.len > table[0].dst.len then rest
      else Some(table[0])
  }

  /** Rules are tried in order; one whose table has no route for the destination
      is passed over. */
  function Lookup(rules: seq<PolicyRule>, tables: map<nat, seq<Route>>, f: Flow): Option<Route>
  {
    if rules == [] then None
    else
      var hit := if Selects(rules[0], f) then TableLookup(TableOf(tables, rules[0].table), f.dst) else None;
      if hit.Some? then hit else Lookup(rules[1..], tables, f)
  }

  datatype Command =
    | RuleAdd(rule: PolicyRule)
    | RuleDel(prio: nat)
    | RouteFlush(table: nat)
    | RouteReplace(table: nat, devs: seq<string>)
    | LinkUp(name: string)
    | LinkDown(name: string)

  predicate IsLink(c: Command)
  {
    c.LinkUp? || c.LinkDown?
  }

  /** The interface commands of a log. */
  function LinksOf(log: seq<Command>): seq<Command>
  {
    Filter(log, (c: Command) => IsLink(c))
  }

  lemma LinksOfConcat(a: seq<Command>, b: seq<Command>)
    ensures LinksOf(a + b) == LinksOf(a) + LinksOf(b)
  {
    FilterConcat(a, b, (c: Command) => IsLink(c));
  }

  lemma LinksOfSnoc(log: seq<Command>, c: Command)
    ensures LinksOf(log + [c]) == if IsLink(c) then LinksOf(log) + [c] else LinksOf(log)
  {
    LinksOfConcat(log, [c]);
    assert [c][1..] == [];
  }

  /** A new rule goes after every rule of the same or a lower priority number. */
  function AddRule(rules: seq<PolicyRule>, r: PolicyRule): seq<PolicyRule>
  {
    if rules == [] then [r]
    else if rules[0].prio <= r.prio then [rules[0]] + AddRule(rules[1..], r)
    else [r] + rules
  }

  /** Deleting by priority removes the first rule there. */
  function DelRule(rules: seq<PolicyRule>, prio: nat): seq<PolicyRule>
  {
    if rules == [] then []
    else if rules[0].prio == prio then rules[1..]
    else [rules[0]] + DelRule(rules[1..], prio)
  }

  predicate HasPrio(rules: seq<PolicyRule>, prio: nat)
  {
    exists r | r in rules :: r.prio == prio
  }

  function WithoutDefault(table: seq<Route>): seq<Route>
  {
    Filter(table, (r: Route) => r.dst.len != 0)
  }

  function Unplugged(table: seq<Route>, name: string): seq<Route>
  {
    Filter(table, (r: Route) => name !in r.devs)
  }

  /** One command: the routing it leaves, and whether it succeeds. A command that fails changes nothing. */
  function Exec(rt: Routing, c: Command): (r: (Routing, bool))
    ensures !r.1 ==> r.0 == rt
    ensures r.0.multipath == rt.multipath && r.0.doubles == rt.doubles
  {
    match c
    case RuleAdd(rule) =>
      if rule in rt.rules && !rt.doubles then (rt, false) else (rt.(rules := AddRule(rt.rules, rule)), true)
    case RuleDel(prio) => if HasPrio(rt.rules, prio) then (rt.(rules := DelRule(rt.rules, prio)), true) else (rt, false)
    case RouteFlush(t) => (rt.(tables := rt.tables[t := []]), true)
    case RouteReplace(t, devs) =>
      if devs == [] || (exists d | d in devs :: d !in rt.links) || (|devs| > 1 && !rt.multipath) then (rt, false)
      else (rt.(tables := rt.tables[t := [Route(Default, devs)] + WithoutDefault(TableOf(rt.tables, t))]), true)
    case LinkUp(name) => if name in rt.links then (rt, false) else (rt.(links := rt.links + {name}), true)
    case LinkDown(name) =>
      if name !in rt.links then (rt, false)
      else (rt.(links := rt.links - {name}, tables := map t | t in rt.tables :: Unplugged(rt.tables[t], name)), true)
  }

  // Rules by priority

  ghost predicate Sorted(rules: seq<PolicyRule>)
  {
    forall i, j :: 0 <= i < j < |rules| ==> rules[i].prio <= rules[j].prio
  }

  /** The rules whose priority lies in lo..hi, hi excluded. */
  function Band(rules: seq<PolicyRule>, lo: nat, hi: nat): seq<PolicyRule>
  {
    Filter(rules, (r: PolicyRule) => lo <= r.prio < hi)
  }

  function At(rules: seq<PolicyRule>, prio: nat): seq<PolicyRule>
  {
    Band(rules, prio, prio + 1)
  }

  lemma BandCons(r: PolicyRule, rest: seq<PolicyRule>, lo: nat, hi: nat)
    ensures Band([r] + rest, lo, hi) == if lo <= r.prio < hi then [r] + Band(rest, lo, hi) else Band(rest, lo, hi)
  {
    assert ([r] + rest)[1..] == rest;
  }

  lemma BandAbove(rules: seq<PolicyRule>, lo: nat, hi: nat)
    requires forall r :: r in rules ==> r.prio >= hi
    ensures Band(rules, lo, hi) == []
  {
    FilterNone(rules, (r: PolicyRule) => lo <= r.prio < hi);
  }

  lemma SortedTail(rules: seq<PolicyRule>)
    requires Sorted(rules) && rules != []
    ensures Sorted(rules[1..]) && rules == [rules[0]] + rules[1..]
    ensures forall r :: r in rules[1..] ==> rules[0].prio <= r.prio
  {
    assert forall i :: 0 <= i < |rules[1..]| ==> rules[1..][i] == rules[i + 1];
  }

  lemma BandEmpty(lo: nat, hi: nat)
    ensures Band([], lo, hi) == []
  {
  }

  /** One rule more, in either part or in neither. */
  lemma BandSplitCons(r: PolicyRule, rest: seq<PolicyRule>, lo: nat, mid: nat, hi: nat)
    requires Band(rest, lo, hi) == Band(rest, lo, mid) + Band(rest, mid, hi) && lo <= mid <= hi
    requires r.prio >= mid ==> Band(rest, lo, mid) == []
    ensures Band([r] + rest, lo, hi) == Band([r] + rest, lo, mid) + Band([r] + rest, mid, hi)
  {
    BandCons(r, rest, lo, hi);
    BandCons(r, rest, lo, mid);
    BandCons(r, rest, mid, hi);
    hide Band;
  }

  lemma {:induction false} BandSplit(rules: seq<PolicyRule>, lo: nat, mid: nat, hi: nat)
    requires Sorted(rules) && lo <= mid <= hi
    ensures Band(rules, lo, hi) == Band(rules, lo, mid) + Band(rules, mid, hi)
  {
    hide Band, Sorted;
    if rules == [] {
      BandEmpty(lo, mid);
      BandEmpty(mid, hi);
      BandEmpty(lo, hi);
    } else {
      SortedTail(rules);
      BandSplit(rules[1..], lo, mid, hi);
      if rules[0].prio >= mid {
        BandAbove(rules[1..], lo, mid);
      }
      BandSplitCons(rules[0], rules[1..], lo, mid, hi);
    }
  }

  lemma {:induction false} AddKeepsSorted(rules: seq<PolicyRule>, r: PolicyRule)
    requires Sorted(rules)
    ensures Sorted(AddRule(rules, r))
    ensures forall x :: x in AddRule(rules, r) ==> x == r || x in rules
  {
    if rules != [] && rules[0].prio <= r.prio {
      var rest := rules[1..];
      SortedTail(rules);
      AddKeepsSorted(rest, r);
      var more := AddRule(rest, r);
      forall i | 0 <= i < |more|
        ensures rules[0].prio <= more[i].prio
      {
        assert more[i] in more;
      }
    }
  }

  lemma {:induction false} AddInBand(rules: seq<PolicyRule>, r: PolicyRule, lo: nat, hi: nat)
    requires Sorted(rules) && (hi <= r.prio || r.prio < lo || hi == r.prio as nat + 1)
    ensures Band(AddRule(rules, r), lo, hi) == if lo <= r.prio < hi then Band(rules, lo, hi) + [r] else Band(rules, lo, hi)
  {
    hide Band, Sorted;
    BandEmpty(lo, hi);
    if rules == [] {
      assert [r] + [] == [r];
      BandCons(r, [], lo, hi);
    } else {
      var rest := rules[1..];
      SortedTail(rules);
      if rules[0].prio <= r.prio {
        AddInBand(rest, r, lo, hi);
        BandCons(rules[0], rest, lo, hi);
        BandCons(rules[0], AddRule(rest, r), lo, hi);
      } else {
        BandCons(r, rules, lo, hi);
        if lo <= r.prio < hi {
          BandAbove(rules, lo, hi);
        }
      }
    }
  }

  lemma {:induction false} DelKeepsSorted(rules: seq<PolicyRule>, prio: nat)
    requires Sorted(rules)
    ensures Sorted(DelRule(rules, prio))
    ensures forall x :: x in DelRule(rules, prio) ==> x in rules
  {
    if rules != [] && rules[0].prio != prio {
      var rest := rules[1..];
      SortedTail(rules);
      DelKeepsSorted(rest, prio);
      var more := DelRule(rest, prio);
      forall i | 0 <= i < |more|
        ensures rules[0].prio <= more[i].prio
      {
        assert more[i] in more;
      }
    }
  }

  lemma {:induction false} DelInBand(rules: seq<PolicyRule>, prio: nat, lo: nat, hi: nat)
    requires HasPrio(rules, prio) && (hi <= prio || prio < lo || (lo == prio && hi == prio + 1))
    ensures lo == prio && hi == prio + 1 ==> |Band(rules, lo, hi)| > 0
    ensures Band(DelRule(rules, prio), lo, hi)
         == if lo == prio && hi == prio + 1 then Band(rules, lo, hi)[1..] else Band(rules, lo, hi)
  {
    if rules[0].prio != prio {
      var r :| r in rules && r.prio == prio;
      assert r in rules[1..];
      DelInBand(rules[1..], prio, lo, hi);
      assert ([rules[0]] + DelRule(rules[1..], prio))[1..] == DelRule(rules[1..], prio);
    }
  }

  lemma {:induction false} LookupConcat(a: seq<PolicyRule>, b: seq<PolicyRule>, tables: map<nat, seq<Route>>, f: Flow)
    ensures Lookup(a + b, tables, f) == OrElse(Lookup(a, tables, f), Lookup(b, tables, f))
  {
    if a == [] {
      assert a + b == b;
    } else {
      assert (a + b)[1..] == a[1..] + b;
      LookupConcat(a[1..], b, tables, f);
    }
  }

  function OrElse<T>(a: Option<T>, b: Option<T>): Option<T>
  {
    if a.Some? then a else b
  }
}
