/** The routing that should exist, given the tunnels that are live. */
module Plan {
  import opened Prelude
  import opened Net
  import opened Config
  import opened Tunnels

  const BondTable: nat := 51820
  const PinTableBase: nat := 51821

  const PrioSelf: nat := 90
  const PrioLan: nat := 91
  const PrioPin: nat := 95
  const PrioBond: nat := 100

  datatype Plan = Plan(live: seq<Tunnel>, bond: seq<string>, pins: map<Addr, string>, pinTable: map<Addr, nat>)

  function Names(ts: seq<Tunnel>): (r: seq<string>)
    ensures |r| == |ts| && forall i :: 0 <= i < |ts| ==> r[i] == ts[i].name
  {
    seq(|ts|, i requires 0 <= i < |ts| => ts[i].name)
  }

  /** The last position at which x is listed: a repeated client keeps its last place. */
  function LastIndex(s: seq<Addr>, x: Addr): (r: nat)
    requires x in s
    ensures r < |s| && s[r] == x
    ensures forall i :: r < i < |s| ==> s[i] != x
  {
    if s[|s| - 1] == x then |s| - 1 else LastIndex(s[..|s| - 1], x)
  }

  /** Where position i lands when dealt round l slots. */
  function Slot(i: nat, l: nat): (r: nat)
    requires l > 0
    ensures r < l
  {
    i % l
  }

  /** The tunnel and table a listed client is dealt. */
  function Hand(pinned: seq<Addr>, live: seq<Tunnel>, ip: Addr): (string, nat)
    requires ip in pinned && live != []
  {
    var k := Slot(LastIndex(pinned, ip), |live|);
    (live[k].name, PinTableBase + k)
  }

  /** The pins dealt from a list of clients over the live tunnels. */
  ghost predicate Dealt(pins: map<Addr, string>, pinTable: map<Addr, nat>, pinned: seq<Addr>, live: seq<Tunnel>)
  {
    && (forall ip :: ip in pins <==> live != [] && ip in pinned)
    && (forall ip :: ip in pinTable <==> live != [] && ip in pinned)
    && (forall ip :: ip in pins ==> (pins[ip], pinTable[ip]) == Hand(pinned, live, ip))
  }

  /** What BuildPlan decides, position by position. */
  ghost predicate IsPlan(p: Plan, c: Settings, tunnels: seq<Tunnel>)
  {
    && p.live == LiveOnes(tunnels, c.staleAfter)
    && p.bond == Names(p.live)
    && Dealt(p.pins, p.pinTable, c.pinned, p.live)
  }

  method BuildPlan(c: Settings, tunnels: seq<Tunnel>) returns (p: Plan)
    ensures IsPlan(p, c, tunnels)
  {
    var live := LiveTunnels(tunnels, c.staleAfter);
    var bond: seq<string> := [];
    for i := 0 to |live|
      invariant |bond| == i && forall j :: 0 <= j < i ==> bond[j] == live[j].name
    {
      bond := bond + [live[i].name];
    }
    assert bond == Names(live);
    if live == [] {
      return Plan(live, bond, map[], map[]);
    }
    var pins: map<Addr, string> := map[];
    var pinTable: map<Addr, nat> := map[];
    for i := 0 to |c.pinned|
      invariant Dealt(pins, pinTable, c.pinned[..i], live)
    {
      var ip := c.pinned[i];
      var k := Slot(i, |live|);
      DealOne(pins, pinTable, c.pinned, live, i);
      pins := pins[ip := live[k].name];
      pinTable := pinTable[ip := PinTableBase + k];
    }
    assert c.pinned[..|c.pinned|] == c.pinned;
    return Plan(live, bond, pins, pinTable);
  }

  lemma DealOne(pins: map<Addr, string>, pinTable: map<Addr, nat>, pinned: seq<Addr>, live: seq<Tunnel>, i: nat)
    requires i < |pinned| && live != [] && Dealt(pins, pinTable, pinned[..i], live)
    ensures var k := Slot(i, |live|);
      Dealt(pins[pinned[i] := live[k].name], pinTable[pinned[i] := PinTableBase + k], pinned[..i + 1], live)
  {
    assert pinned[..i + 1] == pinned[..i] + [pinned[i]];
    assert pinned[..i + 1][..i] == pinned[..i];
    forall ip | ip in pinned[..i + 1]
      ensures ip != pinned[i] ==> Hand(pinned[..i + 1], live, ip) == Hand(pinned[..i], live, ip)
      ensures ip == pinned[i] ==> Hand(pinned[..i + 1], live, ip) == (live[Slot(i, |live|)].name, PinTableBase + Slot(i, |live|))
    {
      if ip == pinned[i] {
        assert LastIndex(pinned[..i + 1], ip) == i;
      } else {
        assert LastIndex(pinned[..i + 1], ip) == LastIndex(pinned[..i], ip);
      }
    }
  }

  method DistinctPins(p: Plan) returns (n: nat)
    ensures n == |p.pins.Values|
  {
    var seen: set<string> := {};
    var todo := p.pins.Keys;
    while todo != {}
      invariant todo <= p.pins.Keys
      invariant seen == set ip | ip in p.pins.Keys - todo :: p.pins[ip]
    {
      var ip :| ip in todo;
      assert p.pins.Keys - (todo - {ip}) == (p.pins.Keys - todo) + {ip};
      seen := seen + {p.pins[ip]};
      todo := todo - {ip};
    }
    assert p.pins.Keys - todo == p.pins.Keys;
    assert seen == p.pins.Values;
    n := |seen|;
  }

  /** Pins always lead somewhere: a client's table is one of the five that
      applyPinTables fills, and it fills it with that client's own tunnel. */
  lemma PinsAreRoutable(c: Settings, tunnels: seq<Tunnel>, p: Plan, ip: Addr)
    requires IsPlan(p, c, tunnels) && |tunnels| <= MaxTunnels
    ensures p.pins.Keys == p.pinTable.Keys
    ensures ip in p.pins <==> p.live != [] && ip in c.pinned
    ensures ip in p.pins ==>
        && 51821 <= p.pinTable[ip] <= 51825
        && p.pinTable[ip] - PinTableBase < |p.live|
        && p.live[p.pinTable[ip] - PinTableBase].name == p.pins[ip]
        && p.live[p.pinTable[ip] - PinTableBase].Live(c.staleAfter)
        && p.live[p.pinTable[ip] - PinTableBase] in tunnels
  {
    assert p.pins.Keys == p.pinTable.Keys;
    if ip in p.pins {
      var k := p.pinTable[ip] - PinTableBase;
      assert p.live[k] in p.live;
      assert ip in p.pinTable;
    }
  }

  function ClientsOf(p: Plan, name: string): set<Addr>
  {
    set ip | ip in p.pins && p.pins[ip] == name
  }

  /** How many of the positions before n fall on slot j when dealt round l slots. */
  function Share(n: nat, l: nat, j: nat): nat
    requires l > 0
  {
    if n == 0 then 0 else Share(n - 1, l, j) + if Slot(n - 1, l) == j then 1 else 0
  }

  lemma NextSlot(n: nat, l: nat)
    requires n > 0 && l > 0
    ensures Slot(n - 1, l) == l - 1 ==> Slot(n, l) == 0 && n / l == (n - 1) / l + 1
    ensures Slot(n - 1, l) < l - 1 ==> Slot(n, l) == Slot(n - 1, l) + 1 && n / l == (n - 1) / l
  {
    var q, r := (n - 1) / l, (n - 1) % l;
    assert n - 1 == q * l + r;
    if r == l - 1 {
      assert (q + 1) * l == q * l + l;
      DivUnique(n, l, q + 1, 0);
    } else {
      DivUnique(n, l, q, r + 1);
    }
  }

  lemma {:induction false} ShareIsEven(n: nat, l: nat, j: nat)
    requires l > 0 && j < l
    ensures Share(n, l, j) == n / l + if j < Slot(n, l) then 1 else 0
  {
    if n == 0 {
      DivUnique(0, l, 0, 0);
    } else {
      ShareIsEven(n - 1, l, j);
      NextSlot(n, l);
    }
  }

  /** The clients among the first n that are dealt to slot j. */
  function DealtTo(pinned: seq<Addr>, l: nat, j: nat, n: nat): set<Addr>
    requires l > 0 && n <= |pinned|
  {
    set i | 0 <= i < n && Slot(i, l) == j :: pinned[i]
  }

  lemma {:induction false} DealtCount(pinned: seq<Addr>, l: nat, j: nat, n: nat)
    requires Distinct(pinned) && l > 0 && n <= |pinned|
    ensures |DealtTo(pinned, l, j, n)| == Share(n, l, j)
  {
    if n > 0 {
      DealtCount(pinned, l, j, n - 1);
      var before, after := DealtTo(pinned, l, j, n - 1), DealtTo(pinned, l, j, n);
      if Slot(n - 1, l) == j {
        assert after == before + {pinned[n - 1]};
        assert pinned[n - 1] !in before;
      } else {
        assert after == before;
      }
    }
  }

  /** The load of live tunnel j, for distinct clients and distinct names. */
  lemma LoadOf(c: Settings, tunnels: seq<Tunnel>, p: Plan, j: nat)
    requires IsPlan(p, c, tunnels) && Distinct(c.pinned) && Distinct(p.bond) && j < |p.live|
    ensures |ClientsOf(p, p.bond[j])| == |c.pinned| / |p.live| + if j < Slot(|c.pinned|, |p.live|) then 1 else 0
  {
    var n, l := |c.pinned|, |p.live|;
    var dealt := DealtTo(c.pinned, l, j, n);
    forall ip
      ensures ip in ClientsOf(p, p.bond[j]) <==> ip in dealt
    {
      if ip in c.pinned {
        var i := LastIndex(c.pinned, ip);
        assert p.pins[ip] == p.bond[Slot(i, l)];
        if ip in dealt {
          var i' :| 0 <= i' < n && Slot(i', l) == j && c.pinned[i'] == ip;
          assert i' == i;
        }
      }
    }
    assert ClientsOf(p, p.bond[j]) == dealt;
    DealtCount(c.pinned, l, j, n);
    ShareIsEven(n, l, j);
  }

  /** No live tunnel carries more than one client beyond any other. */
  lemma PinsAreBalanced(c: Settings, tunnels: seq<Tunnel>, p: Plan, a: string, b: string)
    requires IsPlan(p, c, tunnels) && Distinct(c.pinned) && Distinct(p.bond) && a in p.bond && b in p.bond
    ensures |ClientsOf(p, a)| <= |ClientsOf(p, b)| + 1
  {
    var i :| 0 <= i < |p.bond| && p.bond[i] == a;
    var j :| 0 <= j < |p.bond| && p.bond[j] == b;
    LoadOf(c, tunnels, p, i);
    LoadOf(c, tunnels, p, j);
  }

  lemma {:induction false} CardOfDistinct(s: seq<string>)
    requires Distinct(s)
    ensures |set x | x in s| == |s|
  {
    if s == [] {
      assert (set x | x in s) == {};
    } else {
      CardOfDistinct(s[1..]);
      assert (set x | x in s) == (set x | x in s[1..]) + {s[0]};
    }
  }

  lemma SmallSlot(i: nat, l: nat)
    requires l > 0
    ensures Slot(i, l) <= i && (i < l ==> Slot(i, l) == i)
  {
    if i < l {
      DivUnique(i, l, 0, i);
    }
  }

  lemma CarrierIsFirst(c: Settings, tunnels: seq<Tunnel>, p: Plan, m: nat, ip: Addr)
    requires IsPlan(p, c, tunnels) && p.live != [] && ip in p.pins
    requires m == if |c.pinned| < |p.bond| then |c.pinned| else |p.bond|
    ensures p.pins[ip] in p.bond[..m]
  {
    var i := LastIndex(c.pinned, ip);
    SmallSlot(i, |p.live|);
    assert p.bond[..m][Slot(i, |p.live|)] == p.pins[ip];
  }

  lemma FirstIsCarrier(c: Settings, tunnels: seq<Tunnel>, p: Plan, i: nat)
    requires IsPlan(p, c, tunnels) && Distinct(c.pinned) && i < |c.pinned| && i < |p.bond|
    ensures c.pinned[i] in p.pins && p.pins[c.pinned[i]] == p.bond[i]
  {
    assert LastIndex(c.pinned, c.pinned[i]) == i;
    SmallSlot(i, |p.live|);
  }

  /** The tunnels that carry a pin are the first ones, as far as the clients go round. */
  lemma CarriersAreFirst(c: Settings, tunnels: seq<Tunnel>, p: Plan, m: nat, x: string)
    requires IsPlan(p, c, tunnels) && Distinct(c.pinned) && p.live != []
    requires m == if |c.pinned| < |p.bond| then |c.pinned| else |p.bond|
    ensures x in p.pins.Values <==> x in p.bond[..m]
  {
    if x in p.pins.Values {
      var ip :| ip in p.pins && p.pins[ip] == x;
      CarrierIsFirst(c, tunnels, p, m, ip);
    }
    if x in p.bond[..m] {
      var i :| 0 <= i < m && p.bond[..m][i] == x;
      FirstIsCarrier(c, tunnels, p, i);
    }
  }

  /** The pins spread over as many tunnels as there are clients or live tunnels,
      whichever is fewer. */
  lemma SpreadIsFull(c: Settings, tunnels: seq<Tunnel>, p: Plan)
    requires IsPlan(p, c, tunnels) && Distinct(c.pinned) && Distinct(p.bond)
    ensures |p.pins.Values| == if |c.pinned| < |p.bond| then |c.pinned| else |p.bond|
  {
    if p.live == [] {
      assert p.pins.Values == {};
    } else {
      var m := if |c.pinned| < |p.bond| then |c.pinned| else |p.bond|;
      forall x
        ensures x in p.pins.Values <==> x in p.bond[..m]
      {
        CarriersAreFirst(c, tunnels, p, m, x);
      }
      assert p.pins.Values == set x | x in p.bond[..m];
      CardOfDistinct(p.bond[..m]);
    }
  }

  /** RestoreTunnels' test for success, on the plan it just applied. */
  predicate Restored(c: Settings, p: Plan)
  {
    |p.bond| > 0 && |p.pins.Values| >= if |c.pinned| < |p.bond| then |c.pinned| else |p.bond|
  }

  /** The status page's test for pins that collapsed onto one tunnel. */
  predicate Collapsed(c: Settings, p: Plan)
  {
    |c.pinned| > 1 && |p.bond| > 1 && |p.pins.Values| == 1
  }

  /** With distinct clients and names the restore test means "something is live",
      and a plan from BuildPlan is never reported as collapsed. */
  lemma RestoreTestMeansLive(c: Settings, tunnels: seq<Tunnel>, p: Plan)
    requires IsPlan(p, c, tunnels) && Distinct(c.pinned) && Distinct(p.bond)
    ensures Restored(c, p) <==> p.live != []
    ensures !Collapsed(c, p)
  {
    SpreadIsFull(c, tunnels, p);
  }

  /** The slots the listed clients end up on. */
  function UsedSlots(pinned: seq<Addr>, l: nat): set<nat>
    requires l > 0
  {
    set ip | ip in pinned :: Slot(LastIndex(pinned, ip), l)
  }

  lemma {:induction false} ImageCard(slots: set<nat>, names: seq<string>)
    requires Distinct(names) && forall k :: k in slots ==> k < |names|
    ensures |set k | k in slots :: names[k]| == |slots|
  {
    var image := set k | k in slots :: names[k];
    if slots == {} {
      assert image == {};
    } else {
      var k :| k in slots;
      var rest := slots - {k};
      ImageCard(rest, names);
      assert image == (set j | j in rest :: names[j]) + {names[k]};
      assert names[k] !in set j | j in rest :: names[j];
    }
  }

  lemma PinsBySlot(c: Settings, tunnels: seq<Tunnel>, p: Plan)
    requires IsPlan(p, c, tunnels) && p.live != []
    ensures forall ip :: ip in p.pins <==> ip in c.pinned
    ensures forall ip :: ip in p.pins ==> p.pins[ip] == p.bond[Slot(LastIndex(c.pinned, ip), |p.live|)]
  {
  }

  lemma ValuesBySlot(pins: map<Addr, string>, pinned: seq<Addr>, bond: seq<string>)
    requires bond != [] && forall ip :: ip in pins <==> ip in pinned
    requires forall ip :: ip in pins ==> pins[ip] == bond[Slot(LastIndex(pinned, ip), |bond|)]
    ensures pins.Values == set k | k in UsedSlots(pinned, |bond|) :: bond[k]
  {
    hide Slot, LastIndex;
    var slots := UsedSlots(pinned, |bond|);
    forall x | x in pins.Values
      ensures x in set k | k in slots :: bond[k]
    {
      var ip :| ip in pins && pins[ip] == x;
      assert Slot(LastIndex(pinned, ip), |bond|) in slots;
    }
    forall k | k in slots
      ensures bond[k] in pins.Values
    {
      var ip :| ip in pinned && Slot(LastIndex(pinned, ip), |bond|) == k;
      assert ip in pins && pins[ip] == bond[k];
    }
  }

  /** The pins use as many tunnels as the clients use slots. */
  lemma ValuesAreSlots(c: Settings, tunnels: seq<Tunnel>, p: Plan)
    requires IsPlan(p, c, tunnels) && Distinct(p.bond) && p.live != []
    ensures |p.pins.Values| == |UsedSlots(c.pinned, |p.live|)|
  {
    PinsBySlot(c, tunnels, p);
    ValuesBySlot(p.pins, c.pinned, p.bond);
    ImageCard(UsedSlots(c.pinned, |p.live|), p.bond);
  }

  lemma {:induction false} FullWhenAsMany(slots: set<nat>, m: nat)
    requires forall k :: k in slots ==> k < m
    ensures |slots| >= m <==> forall k :: 0 <= k < m ==> k in slots
    ensures |slots| <= m
  {
    if m == 0 {
      assert slots == {};
    } else {
      var rest := slots - {m - 1};
      FullWhenAsMany(rest, m - 1);
      if m - 1 in slots {
        assert |slots| == |rest| + 1;
        assert forall k :: 0 <= k < m - 1 ==> (k in slots <==> k in rest);
      } else {
        assert slots == rest;
      }
    }
  }

  /** Some client's last place falls on the slot. */
  predicate SlotTaken(pinned: seq<Addr>, l: nat, k: nat)
    requires l > 0
  {
    exists ip | ip in pinned :: Slot(LastIndex(pinned, ip), l) == k
  }

  /** Every slot that could carry a client does. */
  predicate EverySlotTaken(pinned: seq<Addr>, l: nat)
    requires l > 0
  {
    forall k :: 0 <= k < l && k < |pinned| ==> SlotTaken(pinned, l, k)
  }

  /** All clients' last places fall on one slot. */
  predicate OneSlot(pinned: seq<Addr>, l: nat)
    requires l > 0
  {
    forall a, b :: a in pinned && b in pinned ==> Slot(LastIndex(pinned, a), l) == Slot(LastIndex(pinned, b), l)
  }

  lemma UsedBelow(pinned: seq<Addr>, l: nat, k: nat)
    requires l > 0
    ensures k in UsedSlots(pinned, l) <==> SlotTaken(pinned, l, k)
    ensures k in UsedSlots(pinned, l) ==> k < l && k < |pinned|
  {
    if ip :| ip in pinned && Slot(LastIndex(pinned, ip), l) == k {
      SmallSlot(LastIndex(pinned, ip), l);
    }
  }

  /** For every list of clients and distinct names: the restore counts as done
      exactly when something is live and every slot that could carry a client is
      some client's last place. */
  lemma RestoredExactly(c: Settings, tunnels: seq<Tunnel>, p: Plan)
    requires IsPlan(p, c, tunnels) && Distinct(p.bond)
    ensures Restored(c, p) <==> p.live != [] && EverySlotTaken(c.pinned, |p.live|)
  {
    hide SlotTaken;
    if p.live != [] {
      var l := |p.live|;
      var m := if |c.pinned| < l then |c.pinned| else l;
      forall k: nat
        ensures k in UsedSlots(c.pinned, l) <==> SlotTaken(c.pinned, l, k)
        ensures k in UsedSlots(c.pinned, l) ==> k < m
      {
        UsedBelow(c.pinned, l, k);
      }
      ValuesAreSlots(c, tunnels, p);
      FullWhenAsMany(UsedSlots(c.pinned, l), m);
    }
  }

  lemma OneMember<T>(s: set<T>)
    ensures |s| == 1 <==> s != {} && forall a, b :: a in s && b in s ==> a == b
  {
    if s != {} {
      var a :| a in s;
      assert |s| == |s - {a}| + 1;
      if forall b :: b in s ==> b == a {
        assert s - {a} == {};
      }
      if s - {a} != {} {
        var b :| b in s - {a};
      }
    }
  }

  lemma OneSlotUsed(pinned: seq<Addr>, l: nat)
    requires l > 0 && pinned != []
    ensures |UsedSlots(pinned, l)| == 1 <==> OneSlot(pinned, l)
  {
    hide Slot, LastIndex;
    var slots := UsedSlots(pinned, l);
    OneMember(slots);
    assert Slot(LastIndex(pinned, pinned[0]), l) in slots;
    if |slots| == 1 {
      forall a, b | a in pinned && b in pinned
        ensures Slot(LastIndex(pinned, a), l) == Slot(LastIndex(pinned, b), l)
      {
        assert Slot(LastIndex(pinned, a), l) in slots && Slot(LastIndex(pinned, b), l) in slots;
      }
    }
  }

  /** And the page reports a collapse exactly when two clients are listed, two
      tunnels are live and all clients' last places fall on one slot. */
  lemma CollapsedExactly(c: Settings, tunnels: seq<Tunnel>, p: Plan)
    requires IsPlan(p, c, tunnels) && Distinct(p.bond)
    ensures Collapsed(c, p) <==> |c.pinned| > 1 && |p.live| > 1 && OneSlot(c.pinned, |p.live|)
  {
    hide OneSlot, UsedSlots;
    if |c.pinned| > 1 && |p.live| > 1 {
      ValuesAreSlots(c, tunnels, p);
      OneSlotUsed(c.pinned, |p.live|);
    }
  }

  /** A client listed twice can break both tests: with two live tunnels and the one
      client pinned twice, the restore never counts as done and the page reports a
      collapse, although the plan is the only one possible. */
  lemma RepeatedClientBreaksRestore(ip: Addr, c: Settings, tunnels: seq<Tunnel>, p: Plan)
    requires c.pinned == [ip, ip]
    requires tunnels == [Tunnel("wg0", true, 0), Tunnel("wg1", true, 0)] && c.staleAfter >= 0
    requires IsPlan(p, c, tunnels)
    ensures p.live == tunnels && !Restored(c, p) && Collapsed(c, p)
  {
    FilterAll(tunnels, (t: Tunnel) => t.Live(c.staleAfter));
    assert p.pins.Values == {p.bond[1]} by {
      assert ip in p.pins;
    }
  }

  /** The plan and the configuration agree on who is pinned, for every address,
      except that a default of "pin" for unlisted clients is not honoured. */
  lemma PlanFollowsMode(c: Settings, tunnels: seq<Tunnel>, p: Plan, ip: Addr)
    requires IsPlan(p, c, tunnels) && p.live != []
    ensures (ip in p.pins <==> WantedMode(c, ip) == Pin)
       <==> !(c.default == Pin && ip !in c.pinned && ip !in c.bonded)
  {
    assert ip in p.pins <==> ip in c.pinned;
  }

  /** The plan for these tunnels is unique. */
  lemma PlanIsUnique(p: Plan, q: Plan, c: Settings, ts: seq<Tunnel>)
    requires IsPlan(p, c, ts) && IsPlan(q, c, ts)
    ensures p == q
  {
    forall ip
      ensures ip in p.pins <==> ip in q.pins
      ensures ip in p.pins ==> p.pins[ip] == q.pins[ip] && p.pinTable[ip] == q.pinTable[ip]
    {
      if ip in p.pins {
        assert (p.pins[ip], p.pinTable[ip]) == Hand(c.pinned, p.live, ip);
        assert (q.pins[ip], q.pinTable[ip]) == Hand(c.pinned, q.live, ip);
      }
    }
    assert p.pins == q.pins;
    assert p.pinTable.Keys == p.pins.Keys && q.pinTable.Keys == q.pins.Keys;
    assert p.pinTable == q.pinTable;
  }
}
