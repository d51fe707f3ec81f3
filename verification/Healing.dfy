/** Telling from the kernel alone whether a plan is still in force. */
module Healing {
  import opened Prelude
  import opened Net
  import opened Config
  import opened Plan
  import opened Routing
  import opened Control

  predicate IsOurs(r: PolicyRule)
  {
    r.prio == PrioSelf || r.prio == PrioLan || r.prio == PrioPin || r.prio == PrioBond
  }

  function Ours(rules: seq<PolicyRule>): seq<PolicyRule>
  {
    Filter(rules, (r: PolicyRule) => IsOurs(r))
  }

  method CountOurRules(rules: seq<PolicyRule>) returns (n: nat)
    ensures n == |Ours(rules)|
  {
    n := 0;
    for i := 0 to |rules|
      invariant n == |Ours(rules[..i])|
    {
      assert rules[..i + 1] == rules[..i] + [rules[i]];
      FilterConcat(rules[..i], [rules[i]], (r: PolicyRule) => IsOurs(r));
      if IsOurs(rules[i]) {
        n := n + 1;
      }
    }
    assert rules[..|rules|] == rules;
  }

  function ExpectedRules(p: Plan): nat
  {
    2 + |p.pinTable| + if p.bond == [] then 0 else 1
  }

  /** The route listing of a pin table names the interface. */
  predicate PinTableOk(table: seq<Route>, iface: string)
  {
    exists r | r in table :: iface in r.devs
  }

  ghost predicate LooksInstalled(rt: Routing, p: Plan)
  {
    && |Ours(rt.rules)| == ExpectedRules(p)
    && (p.bond != [] ==> TableOf(rt.tables, BondTable) != [])
    && forall ip :: ip in p.pinTable && ip in p.pins ==> PinTableOk(TableOf(rt.tables, p.pinTable[ip]), p.pins[ip])
  }

  /** Reads the rules and the tables; a read that fails counts as fine. */
  method Installed(h: Hosts.Host, p: Plan, walk: seq<Addr>) returns (ok: bool)
    requires h.Valid() && Walk(walk, p.pinTable) && p.pins.Keys == p.pinTable.Keys
    modifies h
    ensures h.Untouched()
    ensures h.rtSteady ==> (ok <==> LooksInstalled(h.rt, p))
    ensures !ok ==> exists i | |old(h.trace)| - 1 <= i < |h.trace| :: !LooksInstalled(h.trace[i].rt, p)
  {
    hide Ours, ExpectedRules, PinTableOk, TableOf, Distinct;
    var read, rules := h.ShowRules();
    if !read {
      return true;
    }
    var n := CountOurRules(rules);
    if n != ExpectedRules(p) {
      return false;
    }
    if p.bond != [] {
      var got, table := h.ShowTable(BondTable);
      if got && table == [] {
        return false;
      }
    }
    assert forall ip :: ip in walk ==> ip in p.pins.Keys;
    for i := 0 to |walk|
      invariant h.Untouched()
      invariant h.rtSteady ==> |Ours(h.rt.rules)| == ExpectedRules(p)
      invariant h.rtSteady && p.bond != [] ==> TableOf(h.rt.tables, BondTable) != []
      invariant h.rtSteady ==> forall j :: 0 <= j < i ==>
          walk[j] in p.pins && PinTableOk(TableOf(h.rt.tables, p.pinTable[walk[j]]), p.pins[walk[j]])
    {
      assert walk[i] in walk;
      var got, table := h.ShowTable(p.pinTable[walk[i]]);
      if got && !PinTableOk(table, p.pins[walk[i]]) {
        return false;
      }
    }
    return true;
  }

  // Deletion-only tampering

  /** Somebody deleted rules and whole routes, and nothing else. */
  ghost predicate Deleted(now: Routing, was: Routing)
  {
    && now.multipath == was.multipath && now.doubles == was.doubles
    && Subsequence(now.rules, was.rules)
    && forall t: nat {:trigger TableOf(now.tables, t)} :: Subsequence(TableOf(now.tables, t), TableOf(was.tables, t))
  }

  lemma {:induction false} SubsequenceSorted(t: seq<PolicyRule>, s: seq<PolicyRule>)
    requires Subsequence(t, s) && Sorted(s)
    ensures Sorted(t)
  {
    if t != [] && s != [] {
      var rest := s[1..];
      assert forall i :: 0 <= i < |rest| ==> rest[i] == s[i + 1];
      if t[0] == s[0] && Subsequence(t[1..], rest) {
        SubsequenceSorted(t[1..], rest);
        SubsequenceMember(t[1..], rest);
        forall i | 1 <= i < |t|
          ensures t[0].prio <= t[i].prio
        {
          assert t[i] == t[1..][i - 1] && t[1..][i - 1] in rest;
        }
      } else {
        SubsequenceSorted(t, rest);
      }
    }
  }

  lemma {:induction false} AtWithinOurs(rules: seq<PolicyRule>, prio: nat)
    requires prio == PrioSelf || prio == PrioLan || prio == PrioPin || prio == PrioBond
    ensures At(Ours(rules), prio) == At(rules, prio)
  {
    if rules != [] {
      AtWithinOurs(rules[1..], prio);
      if IsOurs(rules[0]) {
        assert Ours(rules)[1..] == Ours(rules[1..]);
      } else {
        assert Ours(rules) == Ours(rules[1..]);
      }
    }
  }

  lemma {:induction false} OursByPriority(rules: seq<PolicyRule>)
    ensures |Ours(rules)| == |At(rules, PrioSelf)| + |At(rules, PrioLan)| + |At(rules, PrioPin)| + |At(rules, PrioBond)|
  {
    if rules != [] {
      OursByPriority(rules[1..]);
    }
  }

  lemma InForceCount(rules: seq<PolicyRule>, p: Plan, c: Settings)
    requires RulesInForce(rules, p, c)
    ensures |Ours(rules)| == ExpectedRules(p)
  {
    OursByPriority(rules);
    var order :| Walk(order, p.pinTable) && At(rules, PrioPin) == PinRules(order, p.pinTable);
    PinCount(order, p.pinTable);
  }

  lemma RightCountMeansNothingGone(now: seq<PolicyRule>, was: seq<PolicyRule>, p: Plan, c: Settings)
    requires Subsequence(now, was) && RulesInForce(was, p, c) && |Ours(now)| == ExpectedRules(p)
    ensures RulesInForce(now, p, c)
  {
    InForceCount(was, p, c);
    SubsequenceFilter(now, was, (r: PolicyRule) => IsOurs(r));
    SubsequenceSameLength(Ours(now), Ours(was));
    AtWithinOurs(now, PrioSelf);
    AtWithinOurs(was, PrioSelf);
    AtWithinOurs(now, PrioLan);
    AtWithinOurs(was, PrioLan);
    AtWithinOurs(now, PrioPin);
    AtWithinOurs(was, PrioPin);
    AtWithinOurs(now, PrioBond);
    AtWithinOurs(was, PrioBond);
  }

  lemma SubsequenceOfOne<T(!new)>(t: seq<T>, x: T)
    requires Subsequence(t, [x]) && t != []
    ensures t == [x]
  {
    SubsequenceMember(t, [x]);
    assert |t| == 1 && t[0] in t;
  }

  lemma WrittenRoutesPass(rt: Routing, p: Plan)
    requires RoutesInForce(rt, p)
    ensures p.bond != [] ==> TableOf(rt.tables, BondTable) != []
    ensures forall ip :: ip in p.pinTable && ip in p.pins ==> PinTableOk(TableOf(rt.tables, p.pinTable[ip]), p.pins[ip])
  {
    forall ip | ip in p.pinTable && ip in p.pins
      ensures PinTableOk(TableOf(rt.tables, p.pinTable[ip]), p.pins[ip])
    {
      assert TableOf(rt.tables, p.pinTable[ip])[0] == Route(Default, [p.pins[ip]]);
      assert p.pins[ip] in [p.pins[ip]];
    }
  }

  /** A pin table that leads anywhere but to its client's tunnel does not pass. */
  lemma WrongTableIsSeen(rt: Routing, p: Plan, ip: Addr)
    requires ip in p.pinTable && ip in p.pins
    requires forall r :: r in TableOf(rt.tables, p.pinTable[ip]) ==> p.pins[ip] !in r.devs
    ensures !LooksInstalled(rt, p)
  {
  }

  /** After deletions alone, the check is exact: it passes if and only if the
      plan is still in force. Counting rules is enough only because nothing was added. */
  lemma CheckIsExact(now: Routing, was: Routing, p: Plan, c: Settings)
    requires InForce(was, p, c) && Deleted(now, was) && p.pins.Keys == p.pinTable.Keys
    ensures LooksInstalled(now, p) <==> InForce(now, p, c)
  {
    hide RulesInForce, Ours, Sorted, ExpectedRules;
    if LooksInstalled(now, p) {
      RightCountMeansNothingGone(now.rules, was.rules, p, c);
      SubsequenceSorted(now.rules, was.rules);
      if p.bond != [] {
        assert Subsequence(TableOf(now.tables, BondTable), TableOf(was.tables, BondTable));
        SubsequenceOfOne(TableOf(now.tables, BondTable), Route(Default, BondDevs(p.bond, was.multipath)));
      }
      forall ip | ip in p.pinTable
        ensures ip in p.pins && TableOf(now.tables, p.pinTable[ip]) == [Route(Default, [p.pins[ip]])]
      {
        assert ip in p.pins.Keys;
        var table := TableOf(now.tables, p.pinTable[ip]);
        assert PinTableOk(table, p.pins[ip]) && Subsequence(table, TableOf(was.tables, p.pinTable[ip]));
        SubsequenceOfOne(table, Route(Default, [p.pins[ip]]));
      }
    }
    if InForce(now, p, c) {
      InForceCount(now.rules, p, c);
      WrittenRoutesPass(now, p);
    }
  }

  lemma WrittenCount(rt: Routing, was: Routing, p: Plan, c: Settings, order: seq<Addr>)
    requires Walk(order, p.pinTable) && Applied(rt, was, p, c, order)
    ensures |Ours(rt.rules)| >= ExpectedRules(p)
    ensures |Ours(rt.rules)| == ExpectedRules(p) <==> Flushable(was.rules)
    ensures |At(rt.rules, PrioPin)| >= |p.pinTable|
    ensures |At(was.rules, PrioPin)| > FlushLimit ==>
        |At(rt.rules, PrioPin)| == |At(was.rules, PrioPin)| - FlushLimit + |p.pinTable|
  {
    hide Ours, At;
    OursByPriority(rt.rules);
    PinCount(order, p.pinTable);
  }

  /** A plan just written passes its own check exactly when what it replaced could
      be flushed. */
  lemma WriteSettlesExactly(rt: Routing, was: Routing, p: Plan, c: Settings, order: seq<Addr>)
    requires Walk(order, p.pinTable) && Applied(rt, was, p, c, order) && Routable(p)
    ensures LooksInstalled(rt, p) <==> Flushable(was.rules)
  {
    hide Ours, Flushable, ExpectedRules, TablesWritten, Built;
    WrittenCount(rt, was, p, c, order);
    AppliedRoutes(rt, was, p, c, order);
    WrittenRoutesPass(rt, p);
  }

  /** The first write of a plan, over a kernel that can be flushed, is taken whole
      and settles, however many pins there are. */
  lemma TooManyPinsSettleOnce(rt: Routing, was: Routing, p: Plan, c: Settings, order: seq<Addr>)
    requires Walk(order, p.pinTable) && Applied(rt, was, p, c, order) && Routable(p) && Flushable(was.rules)
    ensures Fresh(was, p, c)
    ensures LooksInstalled(rt, p) && InForce(rt, p, c) && |At(rt.rules, PrioPin)| == |p.pinTable|
  {
    FlushableIsFresh(was, p, c);
    WriteSettlesExactly(rt, was, p, c, order);
    ApplyIsExact(rt, was, p, c, order);
    PinCount(order, p.pinTable);
  }

  lemma FlushableIsFresh(rt: Routing, p: Plan, c: Settings)
    requires Flushable(rt.rules)
    ensures Fresh(rt, p, c)
  {
  }

  /** Writing a plan again over itself is taken whole exactly on a kernel that
      takes identical rules, or for up to 32 pins. */
  lemma RewriteIsTakenExactly(rt: Routing, p: Plan, c: Settings)
    requires InForce(rt, p, c)
    ensures Fresh(rt, p, c) <==> rt.doubles || |p.pinTable| <= FlushLimit
  {
    InForceIsFlushable(rt.rules, p, c);
    if |p.pinTable| <= FlushLimit {
      FlushableIsFresh(rt, p, c);
    } else if !rt.doubles {
      var order := LastPinsLeft(rt, p, c);
      assert Stuck(rt, PinRule(order[FlushLimit], p.pinTable[order[FlushLimit]]));
    }
  }

  /** What the flush leaves of more than 32 pins: the last of some walk over them. */
  lemma LastPinsLeft(rt: Routing, p: Plan, c: Settings) returns (order: seq<Addr>)
    requires InForce(rt, p, c) && |p.pinTable| > FlushLimit
    ensures Walk(order, p.pinTable) && |order| == |p.pinTable|
    ensures |Left(rt.rules, PrioPin)| == |order| - FlushLimit
    ensures forall i :: FlushLimit <= i < |order| ==>
        order[i] in p.pinTable && PinRule(order[i], p.pinTable[order[i]]) in Left(rt.rules, PrioPin)
  {
    hide At, Sorted, RoutesInForce;
    order :| Walk(order, p.pinTable) && At(rt.rules, PrioPin) == PinRules(order, p.pinTable);
    PinRulesLeft(order, p.pinTable);
  }

  lemma PinRulesLeft(order: seq<Addr>, pinTable: map<Addr, nat>)
    requires Walk(order, pinTable) && |pinTable| > FlushLimit
    ensures |order| == |pinTable| && |DropUpTo(PinRules(order, pinTable), FlushLimit)| == |order| - FlushLimit
    ensures forall i :: FlushLimit <= i < |order| ==>
        order[i] in pinTable && PinRule(order[i], pinTable[order[i]]) in DropUpTo(PinRules(order, pinTable), FlushLimit)
  {
    PinCount(order, pinTable);
    PinRulesAre(order, pinTable);
    DropIndex(PinRules(order, pinTable), FlushLimit);
    hide PinRules, PinRule, DropUpTo;
    forall i | FlushLimit <= i < |order|
      ensures order[i] in pinTable && PinRule(order[i], pinTable[order[i]]) in DropUpTo(PinRules(order, pinTable), FlushLimit)
    {
      assert DropUpTo(PinRules(order, pinTable), FlushLimit)[i - FlushLimit] == PinRules(order, pinTable)[i];
    }
  }

  lemma DropIndex<T>(s: seq<T>, n: nat)
    requires |s| > n
    ensures |DropUpTo(s, n)| == |s| - n
    ensures forall i :: n <= i < |s| ==> DropUpTo(s, n)[i - n] == s[i]
  {
  }

  /** More than 32 pins never settle on a kernel that takes identical rules: every
      later write over them, taken whole, fails its own check and leaves more
      stale rules behind than it found, and so does the write after it. */
  lemma TooManyPinsNeverSettle(rt: Routing, was: Routing, p: Plan, c: Settings, order: seq<Addr>)
    requires Walk(order, p.pinTable) && Applied(rt, was, p, c, order) && Routable(p)
    requires |p.pinTable| > FlushLimit && |At(was.rules, PrioPin)| >= |p.pinTable|
    ensures was.doubles ==> Fresh(was, p, c)
    ensures !LooksInstalled(rt, p)
    ensures |At(rt.rules, PrioPin)| > |At(was.rules, PrioPin)| >= |p.pinTable|
  {
    WriteSettlesExactly(rt, was, p, c, order);
    WrittenCount(rt, was, p, c, order);
  }

  lemma {:induction false} SubsetCount(s: set<Addr>, t: set<Addr>)
    requires s <= t
    ensures |s| <= |t|
  {
    if s != {} {
      var x :| x in s;
      SubsetCount(s - {x}, t - {x});
    }
  }

  lemma DisjointCount(a: seq<Addr>, b: seq<Addr>, keys: set<Addr>)
    requires Distinct(a) && Distinct(b) && (forall x :: x in a ==> x in keys && x !in b) && forall x :: x in b ==> x in keys
    ensures |a| + |b| <= |keys|
  {
    var s := set x | x in a + b;
    assert forall i, j :: 0 <= i < |a| && 0 <= j < |b| ==> a[i] in a && b[j] in b;
    WalkLength(a + b, s);
    SubsetCount(s, keys);
  }

  lemma HaltsInThePins(rt: Routing, was: Routing, p: Plan, c: Settings, order: seq<Addr>, n: nat)
    requires InForce(was, p, c) && Walk(order, p.pinTable)
    requires n < |PlanList(p, c, order)| && HaltedAt(rt, was, p, c, order, n)
    ensures 2 <= n < |order| + 2
  {
    PlanListAt(p, c, order);
    assert |BondRules(p, c)| == if p.bond == [] then 0 else 1;
    NothingLeftBesidePins(was, p, c);
    hide PlanList, BondRules, PinRules, Left, InForce, SelfRule, LanRule, BondRule, Built, TablesWritten;
  }

  lemma NothingLeftBesidePins(was: Routing, p: Plan, c: Settings)
    requires InForce(was, p, c)
    ensures !Stuck(was, SelfRule(c)) && !Stuck(was, LanRule(c)) && !Stuck(was, BondRule(c))
  {
    hide At;
  }

  /** The pins the flush left, which a kernel that refuses identical rules does not take again. */
  lemma StuckPins(was: Routing, p: Plan, c: Settings) returns (left: seq<Addr>)
    requires InForce(was, p, c) && |p.pinTable| > FlushLimit && !was.doubles
    ensures Distinct(left) && |left| == |p.pinTable| - FlushLimit
    ensures forall x :: x in left ==> x in p.pinTable && Stuck(was, PinRule(x, p.pinTable[x]))
  {
    var kept := LastPinsLeft(was, p, c);
    left := kept[FlushLimit..];
    hide InForce, Left;
    forall x | x in left
      ensures x in p.pinTable && Stuck(was, PinRule(x, p.pinTable[x]))
    {
      var j :| FlushLimit <= j < |kept| && kept[j] == x;
    }
  }

  /** How many pins the write got through is bounded by how many the flush took. */
  lemma HaltsEarly(rt: Routing, was: Routing, p: Plan, c: Settings, order: seq<Addr>, k: nat)
    requires InForce(was, p, c) && Walk(order, p.pinTable) && |p.pinTable| > FlushLimit && !was.doubles
    requires k < |order| && forall i :: 0 <= i < k ==> order[i] in p.pinTable && !Stuck(was, PinRule(order[i], p.pinTable[order[i]]))
    ensures k <= FlushLimit
  {
    hide InForce, Left, Stuck, PinRule;
    var left := StuckPins(was, p, c);
    var added := order[..k];
    forall x | x in added
      ensures x in p.pinTable && !Stuck(was, PinRule(x, p.pinTable[x]))
    {
      var i :| 0 <= i < k && order[i] == x;
    }
    assert forall x :: x in added ==> x !in left;
    DisjointCount(added, left, p.pinTable.Keys);
  }

  /** What a halted rewrite over a plan in force leaves: the pins the flush left and
      the k walked before the first of them, and no bond rule. */
  lemma HaltedRules(rt: Routing, was: Routing, p: Plan, c: Settings, order: seq<Addr>, k: nat)
    requires InForce(was, p, c) && Walk(order, p.pinTable) && k < |order|
    requires k + 2 < |PlanList(p, c, order)| && HaltedAt(rt, was, p, c, order, k + 2)
    ensures |At(rt.rules, PrioSelf)| == 1 && |At(rt.rules, PrioLan)| == 1 && At(rt.rules, PrioBond) == []
    ensures |At(rt.rules, PrioPin)| == |Left(was.rules, PrioPin)| + k
  {
    StackUpTo(p, c, order, k);
    hide PinRules, Stack, PlanList, At, AddedUpTo, RoutesInForce, TablesWritten;
    assert Stacked(rt.rules, was.rules, Stack(PlanList(p, c, order)[..k + 2]));
  }

  /** On a kernel that refuses an identical rule, writing a plan of more than 32 pins
      again over itself stops at the first pin the flush left. The plan is then not
      in force and the check says so; there are no more pins than the plan has; and
      the next write settles if those left, with the k walked before, can be flushed. */
  lemma RefusedRewrite(rt: Routing, was: Routing, p: Plan, c: Settings, order: seq<Addr>) returns (k: nat)
    requires InForce(was, p, c) && Routable(p) && Walk(order, p.pinTable) && Halted(rt, was, p, c, order)
    ensures !was.doubles && |p.pinTable| > FlushLimit && k <= FlushLimit && k < |order|
    ensures PinRule(order[k], p.pinTable[order[k]]) in Left(was.rules, PrioPin)
    ensures |At(rt.rules, PrioPin)| == |p.pinTable| - FlushLimit + k <= |p.pinTable|
    ensures !InForce(rt, p, c) && !LooksInstalled(rt, p)
    ensures Flushable(rt.rules) <==> |p.pinTable| - FlushLimit + k <= FlushLimit
  {
    hide InForce, HaltedAt, PlanList, At, Left, LooksInstalled, Flushable, Routable, Fresh;
    var n :| 0 <= n < |PlanList(p, c, order)| && HaltedAt(rt, was, p, c, order, n);
    HaltsInThePins(rt, was, p, c, order, n);
    k := n - 2;
    HaltedAtPin(rt, was, p, c, order, k);
    RewriteIsTakenExactly(was, p, c);
    HaltsEarly(rt, was, p, c, order, k);
    HaltedRules(rt, was, p, c, order, k);
    var _ := LastPinsLeft(was, p, c);
    assert order[k] in order;
    TooFewRules(rt, p, c);
  }

  /** Without the bond's rule, and with no more pins than it has, a plan with pins
      neither is in force nor looks it. */
  lemma TooFewRules(rt: Routing, p: Plan, c: Settings)
    requires |At(rt.rules, PrioSelf)| == 1 && |At(rt.rules, PrioLan)| == 1 && At(rt.rules, PrioBond) == []
    requires |At(rt.rules, PrioPin)| <= |p.pinTable| && Routable(p) && p.pinTable != map[]
    ensures !InForce(rt, p, c) && !LooksInstalled(rt, p)
    ensures Flushable(rt.rules) <==> |At(rt.rules, PrioPin)| <= FlushLimit
  {
    hide At, Ours;
    OursByPriority(rt.rules);
    var ip :| ip in p.pinTable;
    assert p.live != [] && p.bond != [];
  }

  lemma HaltedAtPin(rt: Routing, was: Routing, p: Plan, c: Settings, order: seq<Addr>, k: nat)
    requires Walk(order, p.pinTable) && k < |order|
    requires k + 2 < |PlanList(p, c, order)| && HaltedAt(rt, was, p, c, order, k + 2)
    ensures order[k] in p.pinTable && Stuck(was, PinRule(order[k], p.pinTable[order[k]]))
    ensures forall i :: 0 <= i < k ==> order[i] in p.pinTable && !Stuck(was, PinRule(order[i], p.pinTable[order[i]]))
    ensures !Fresh(was, p, c)
  {
    PlanListAt(p, c, order);
    hide PlanList, BondRules, Stuck, Built, TablesWritten, PinRule;
    assert order[k] in order;
    var list := PlanList(p, c, order);
    forall i | 0 <= i < k
      ensures order[i] in p.pinTable && !Stuck(was, PinRule(order[i], p.pinTable[order[i]]))
    {
      assert !Stuck(was, list[i + 2]);
    }
  }

  /** Deletions only make the rules easier to flush. */
  lemma DeletedStaysFlushable(now: seq<PolicyRule>, was: seq<PolicyRule>)
    requires Subsequence(now, was) && Flushable(was)
    ensures Flushable(now)
  {
    DeletedAt(now, was, PrioSelf);
    DeletedAt(now, was, PrioLan);
    DeletedAt(now, was, PrioPin);
    DeletedAt(now, was, PrioBond);
  }

  lemma DeletedAt(now: seq<PolicyRule>, was: seq<PolicyRule>, prio: nat)
    requires Subsequence(now, was)
    ensures |At(now, prio)| <= |At(was, prio)|
  {
    SubsequenceFilter(now, was, (r: PolicyRule) => prio <= r.prio < prio + 1);
    SubsequenceMember(At(now, prio), At(was, prio));
  }

  lemma {:induction false} SubsequenceTransitive<T(!new)>(a: seq<T>, b: seq<T>, c: seq<T>)
    requires Subsequence(a, b) && Subsequence(b, c)
    ensures Subsequence(a, c)
    decreases |b| + |c|
  {
    if a != [] && b != [] && c != [] {
      if b[0] == c[0] && Subsequence(b[1..], c[1..]) {
        if a[0] == b[0] && Subsequence(a[1..], b[1..]) {
          SubsequenceTransitive(a[1..], b[1..], c[1..]);
        } else {
          SubsequenceTransitive(a, b[1..], c[1..]);
        }
      } else {
        SubsequenceTransitive(a, b, c[1..]);
      }
    }
  }

  lemma {:induction false} SubsequenceReflexive<T(!new)>(a: seq<T>)
    ensures Subsequence(a, a)
  {
    if a != [] {
      SubsequenceReflexive(a[1..]);
    }
  }

  lemma {:induction false} FilterIsSubsequence<T(!new)>(a: seq<T>, p: T -> bool)
    ensures Subsequence(Filter(a, p), a)
  {
    if a != [] {
      FilterIsSubsequence(a[1..], p);
      if p(a[0]) {
        assert Filter(a, p)[1..] == Filter(a[1..], p);
      } else {
        assert Filter(a, p) == Filter(a[1..], p);
      }
    }
  }

  lemma DeletedTransitive(a: Routing, b: Routing, c: Routing)
    requires Deleted(a, b) && Deleted(b, c)
    ensures Deleted(a, c)
  {
    SubsequenceTransitive(a.rules, b.rules, c.rules);
    forall t: nat
      ensures Subsequence(TableOf(a.tables, t), TableOf(c.tables, t))
    {
      assert Subsequence(TableOf(a.tables, t), TableOf(b.tables, t)) && Subsequence(TableOf(b.tables, t), TableOf(c.tables, t));
      SubsequenceTransitive(TableOf(a.tables, t), TableOf(b.tables, t), TableOf(c.tables, t));
    }
  }

  lemma DeletedReflexive(a: Routing)
    ensures Deleted(a, a)
  {
    SubsequenceReflexive(a.rules);
    forall t: nat
      ensures Subsequence(TableOf(a.tables, t), TableOf(a.tables, t))
    {
      SubsequenceReflexive(TableOf(a.tables, t));
    }
  }

  /** Bringing an interface up or down deletes at most the routes through it. */
  lemma LinksOnlyDelete(rt: Routing, c: Command)
    requires c.LinkUp? || c.LinkDown?
    ensures Deleted(Exec(rt, c).0, rt)
  {
    DeletedReflexive(rt);
    if c.LinkDown? {
      var after := Exec(rt, c).0;
      forall t: nat
        ensures Subsequence(TableOf(after.tables, t), TableOf(rt.tables, t))
      {
        if t in rt.tables {
          FilterIsSubsequence(rt.tables[t], (r: Route) => c.name !in r.devs);
          SubsequenceReflexive(rt.tables[t]);
        }
      }
    }
  }
}
