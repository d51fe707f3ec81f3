/** The steps of one pass of the daemon, and what a pass achieves. */
module Passes {
  import opened Prelude
  import opened Net
  import opened Config
  import opened Tunnels
  import opened Recovery
  import opened Plan
  import opened Rendering
  import opened Routing
  import opened Control
  import opened Healing
  import opened Hosts
  import opened Links

  /** What one pass sees of the outside: the time, and the configured tunnels
      with their handshake ages at its two reads. */
  datatype Look = Look(now: int, before: seq<(string, int)>, after: seq<(string, int)>)

  predicate FewTunnels(l: Look)
  {
    |l.before| <= MaxTunnels && |l.after| <= MaxTunnels
  }

  /** Interface names that cannot be confused inside the plan's text. */
  predicate PlainTunnels(l: Look)
  {
    forall t :: t in l.after ==> Plain(t.0)
  }

  method WalkMap<V>(m: map<Addr, V>) returns (walk: seq<Addr>)
    ensures Distinct(walk) && forall ip :: ip in walk <==> ip in m
  {
    walk := [];
    var todo := m.Keys;
    while todo != {}
      invariant todo <= m.Keys && Distinct(walk)
      invariant forall ip :: ip in walk <==> ip in m && ip !in todo
    {
      var ip :| ip in todo;
      walk := walk + [ip];
      todo := todo - {ip};
    }
  }

  /** Tunnels with the configured names and the ages of one read. */
  predicate Reads(ts: seq<Tunnel>, configured: seq<(string, int)>)
  {
    |ts| == |configured| && forall i :: 0 <= i < |ts| ==> ts[i].name == configured[i].0 && ts[i].handshakeAge == configured[i].1
  }

  ghost predicate LinksShow(ts: seq<Tunnel>, rt: Routing)
  {
    forall i :: 0 <= i < |ts| ==> ts[i].up == (ts[i].name in rt.links)
  }

  /** What reading the tunnels yields on an undisturbed machine. */
  ghost predicate ReadAt(ts: seq<Tunnel>, configured: seq<(string, int)>, rt: Routing)
  {
    Reads(ts, configured) && LinksShow(ts, rt)
  }

  method ReadTunnels(h: Host, configured: seq<(string, int)>) returns (ts: seq<Tunnel>)
    requires h.Valid()
    modifies h
    ensures h.Untouched()
    ensures Reads(ts, configured)
    ensures h.rtSteady ==> LinksShow(ts, h.rt)
  {
    ts := [];
    for i := 0 to |configured|
      invariant h.Untouched() && |ts| == i
      invariant forall j :: 0 <= j < i ==> ts[j].name == configured[j].0 && ts[j].handshakeAge == configured[j].1
      invariant h.rtSteady ==> LinksShow(ts, h.rt)
    {
      var up := h.LinkShow(configured[i].0);
      ts := ts + [Tunnel(configured[i].0, up, configured[i].1)];
    }
  }

  /** One action on one tunnel: start it, or stop it and start it. Nothing but
      its own interface moves. */
  method Act(h: Host, t: Tunnel, a: Action) returns (up: bool)
    requires h.Valid()
    modifies h
    ensures h.FwKept()
    ensures a == Leave ==> h.Untouched()
    ensures h.issued == old(h.issued) + Steps(a, t.name)
    ensures a == Start ==> h.issued == old(h.issued) + [LinkUp(t.name)]
    ensures a == Restart ==> h.issued == old(h.issued) + [LinkDown(t.name), LinkUp(t.name)]
    ensures h.rtSteady ==> Touched(h.rt, old(h.rt), {t.name})
    ensures h.rtSteady && up ==> t.name in h.rt.links
  {
    hide Touched;
    up := false;
    ghost var was := h.rt;
    TouchedReflexive(was, {t.name});
    if a == Restart {
      LinkTouches(was, LinkDown(t.name), t.name);
      var _ := h.Wg(LinkDown(t.name));
    }
    ghost var mid := h.rt;
    if a != Leave {
      LinkTouches(mid, LinkUp(t.name), t.name);
      up := h.Wg(LinkUp(t.name));
      TouchedReflexive(mid, {t.name});
      if h.rtSteady {
        TouchedTransitive(h.rt, mid, was, {t.name});
      }
    }
  }

  lemma {:induction false} AttemptsSnoc(last: Memory, ts: seq<Tunnel>, t: Tunnel, staleAfter: int, now: int)
    ensures var done := Attempts(last, ts, staleAfter, now);
      var a := RecoveryAction(t, staleAfter, Since(Remember(last, done), t.name, now));
      Attempts(last, ts + [t], staleAfter, now) == done + if a == Leave then [] else [Attempt(t.name, now, a)]
    decreases |ts|
  {
    if ts == [] {
      assert ts + [t] == [t] && [t][1..] == [];
    } else {
      var u := ts[0];
      var b := RecoveryAction(u, staleAfter, Since(last, u.name, now));
      assert (ts + [t])[1..] == ts[1..] + [t];
      if b == Leave {
        AttemptsSnoc(last, ts[1..], t, staleAfter, now);
      } else {
        AttemptsSnoc(last[u.name := now], ts[1..], t, staleAfter, now);
        var rest := Attempts(last[u.name := now], ts[1..], staleAfter, now);
        assert ([Attempt(u.name, now, b)] + rest)[1..] == rest;
      }
    }
  }

  /** What one tunnel more adds to the attempts of a pass. */
  lemma OneTunnelMore(last: Memory, ts: seq<Tunnel>, t: Tunnel, staleAfter: int, now: int)
    ensures var done := Attempts(last, ts, staleAfter, now);
      var all := Attempts(last, ts + [t], staleAfter, now);
      var a := RecoveryAction(t, staleAfter, Since(Remember(last, done), t.name, now));
      && Remember(last, all) == (if a == Leave then Remember(last, done) else Remember(last, done)[t.name := now])
      && CommandLog(all) == CommandLog(done) + Steps(a, t.name)
      && NamesOf(all) == (if a == Leave then NamesOf(done) else NamesOf(done) + {t.name})
      && (all == [] <==> done == [] && a == Leave)
  {
    hide RecoveryAction, Since, Attempts;
    AttemptsSnoc(last, ts, t, staleAfter, now);
    var done := Attempts(last, ts, staleAfter, now);
    var a := RecoveryAction(t, staleAfter, Since(Remember(last, done), t.name, now));
    if a == Leave {
      assert done + [] == done;
    } else {
      var x := Attempt(t.name, now, a);
      RememberConcat(last, done, [x]);
      assert [x][1..] == [] && (done + [x])[..|done|] == done;
      assert Remember(Remember(last, done), [x]) == Remember(Remember(last, done)[t.name := now], []);
    }
  }

  lemma NothingAttempted(last: Memory, staleAfter: int, now: int)
    ensures Attempts(last, [], staleAfter, now) == [] && Remember(last, []) == last
    ensures CommandLog([]) == [] && NamesOf([]) == {}
  {
  }

  /** Applies the recovery decision to every tunnel, in order, remembering each
      attempt. The commands are those of the attempts, and only the interfaces
      attempted on move. */
  method RecoverTunnels(h: Host, ts: seq<Tunnel>, staleAfter: int, last: Memory, now: int) returns (last': Memory)
    requires h.Valid()
    modifies h
    ensures h.FwKept()
    ensures last' == Remember(last, Attempts(last, ts, staleAfter, now))
    ensures h.rtSteady ==> Touched(h.rt, old(h.rt), NamesOf(Attempts(last, ts, staleAfter, now)))
    ensures h.issued == old(h.issued) + CommandLog(Attempts(last, ts, staleAfter, now))
    ensures Attempts(last, ts, staleAfter, now) == [] ==> h.Untouched()
  {
    hide Touched, RecoveryAction, Since, Attempts, Remember, CommandLog, NamesOf;
    NothingAttempted(last, staleAfter, now);
    last' := last;
    TouchedReflexive(h.rt, {});
    for i := 0 to |ts|
      invariant h.FwKept()
      invariant last' == Remember(last, Attempts(last, ts[..i], staleAfter, now))
      invariant h.rtSteady ==> Touched(h.rt, old(h.rt), NamesOf(Attempts(last, ts[..i], staleAfter, now)))
      invariant h.issued == old(h.issued) + CommandLog(Attempts(last, ts[..i], staleAfter, now))
      invariant Attempts(last, ts[..i], staleAfter, now) == [] ==> h.Untouched()
    {
      var t := ts[i];
      OneTunnelMore(last, ts[..i], t, staleAfter, now);
      assert ts[..i + 1] == ts[..i] + [t];
      var a := RecoveryAction(t, staleAfter, Since(last', t.name, now));
      ghost var mid := h.rt;
      var _ := Act(h, t, a);
      if h.rtSteady && a != Leave {
        TouchedCompose(h.rt, mid, old(h.rt), NamesOf(Attempts(last, ts[..i], staleAfter, now)), t.name);
      }
      if a != Leave {
        last' := last'[t.name := now];
      }
    }
    assert ts[..|ts|] == ts;
  }

  // The refresh pass

  /** Two plans that ask for the same routing. */
  predicate SameRouting(p: Plan, q: Plan)
  {
    p.bond == q.bond && p.pins == q.pins && p.pinTable == q.pinTable
  }

  /** What the daemon remembers about the kernel: the last text it saw applied
      belongs to a plan that was in force, and since then things were only deleted. */
  ghost predicate Consistent(c: Settings, sig: string, p: Plan, ts: seq<Tunnel>, applied: Routing, rt: Routing)
  {
    && Sorted(rt.rules) && Flushable(rt.rules)
    && (sig != "" ==>
         && IsPlan(p, c, ts) && |ts| <= MaxTunnels && PlainNames(p) && IsSignature(sig, p)
         && InForce(applied, p, c) && Deleted(rt, applied))
  }

  lemma PlanNamesArePlain(p: Plan, c: Settings, ts: seq<Tunnel>)
    requires IsPlan(p, c, ts) && forall t :: t in ts ==> Plain(t.name)
    ensures PlainNames(p)
  {
    forall n | n in p.bond
      ensures Plain(n)
    {
      var i :| 0 <= i < |p.bond| && p.bond[i] == n;
      assert p.live[i] in p.live;
    }
    forall ip | ip in p.pins
      ensures p.pins[ip] in p.bond
    {
      assert (p.pins[ip], p.pinTable[ip]) == Hand(c.pinned, p.live, ip);
      assert p.bond[Slot(LastIndex(c.pinned, ip), |p.live|)] == p.pins[ip];
    }
  }

  lemma {:induction false} KeysOfList(s: seq<Addr>, keys: set<Addr>)
    requires forall ip :: ip in keys ==> ip in s
    ensures |keys| <= |s|
  {
    if s == [] {
      assert keys == {};
    } else {
      KeysOfList(s[1..], keys - {s[0]});
      if s[0] in keys {
        assert |keys| == |keys - {s[0]}| + 1;
      } else {
        assert keys == keys - {s[0]};
      }
    }
  }

  lemma FewPins(p: Plan, c: Settings, ts: seq<Tunnel>)
    requires IsPlan(p, c, ts)
    ensures |p.pinTable| <= |c.pinned|
  {
    KeysOfList(c.pinned, p.pinTable.Keys);
  }

  /** Reads whether a tunnel of the plan can be routed through: what was up when
      read still is, as long as nobody interferes. */
  lemma LiveIsLinked(p: Plan, c: Settings, ts: seq<Tunnel>, rt: Routing)
    requires IsPlan(p, c, ts) && LinksShow(ts, rt)
    ensures Linked(rt, p)
  {
    forall t | t in p.live
      ensures t.name in rt.links
    {
      assert t in ts && t.Live(c.staleAfter);
    }
  }

  lemma SameRoutingInForce(rt: Routing, p: Plan, q: Plan, c: Settings)
    requires SameRouting(p, q) && InForce(rt, p, c)
    ensures InForce(rt, q, c)
  {
    var order :| Walk(order, p.pinTable) && At(rt.rules, PrioPin) == PinRules(order, p.pinTable);
    assert Walk(order, q.pinTable) && At(rt.rules, PrioPin) == PinRules(order, q.pinTable);
  }

  /** The same text and a passing check mean the plan is in force as it is. */
  lemma UnchangedIsInForce(
    c: Settings, sig: string, p: Plan, ts: seq<Tunnel>, applied: Routing, rt: Routing, q: Plan, us: seq<Tunnel>)
    requires Consistent(c, sig, p, ts, applied, rt) && sig != ""
    requires IsPlan(q, c, us) && PlainNames(q) && IsSignature(sig, q)
    ensures InForce(applied, q, c)
    ensures LooksInstalled(rt, q) <==> InForce(rt, q, c)
  {
    SignatureIsInjective(sig, c, ts, p, us, q);
    SameRoutingInForce(applied, p, q, c);
    assert q.pins.Keys == q.pinTable.Keys;
    CheckIsExact(rt, applied, q, c);
  }

  /** Tunnels as one undisturbed read shows them. */
  ghost predicate ReadFrom(ts: seq<Tunnel>, rt: Routing)
  {
    && |ts| <= MaxTunnels && LinksShow(ts, rt)
    && forall t :: t in ts ==> Plain(t.name)
  }

  /** A plan just written is in force and worth remembering. */
  lemma AppliedIsConsistent(c: Settings, sig: string, p: Plan, ts: seq<Tunnel>, was: Routing, rt: Routing, walk: seq<Addr>)
    requires IsPlan(p, c, ts) && IsSignature(sig, p) && ReadFrom(ts, was) && |c.pinned| <= FlushLimit
    requires Sorted(was.rules) && Flushable(was.rules)
    requires Walk(walk, p.pinTable) && Applied(rt, was, p, c, walk)
    ensures InForce(rt, p, c) && Consistent(c, sig, p, ts, rt, rt) && sig != ""
  {
    BuildPlanIsRoutable(c, ts, p);
    ApplyIsExact(rt, was, p, c, walk);
    FewPins(p, c, ts);
    InForceIsFlushable(rt.rules, p, c);
    PlanNamesArePlain(p, c, ts);
    DeletedReflexive(rt);
    SignatureIsText(sig, p);
  }

  /** Skipping the write is sound exactly when the check passes. */
  lemma SkippingIsSound(
    c: Settings, lastSig: string, plan: Plan, tunnels: seq<Tunnel>, applied: Routing, rt: Routing,
    p: Plan, ts: seq<Tunnel>, sig: string)
    requires Consistent(c, lastSig, plan, tunnels, applied, rt)
    requires ReadFrom(ts, rt) && IsPlan(p, c, ts) && IsSignature(sig, p) && sig == lastSig
    ensures LooksInstalled(rt, p) <==> InForce(rt, p, c)
    ensures InForce(rt, p, c) ==> Consistent(c, lastSig, p, ts, rt, rt) && lastSig != ""
  {
    PlanNamesArePlain(p, c, ts);
    SignatureIsText(sig, p);
    UnchangedIsInForce(c, lastSig, plan, tunnels, applied, rt, p, ts);
    DeletedReflexive(rt);
  }

  /** What the routing half of a pass does on an undisturbed machine: it writes
      unless the text is the remembered one and the check passes, and it
      remembers the text it managed to write, which is all of it when the kernel
      takes every rule. */
  ghost predicate Outcome(
    rt': Routing, rt: Routing, c: Settings, lastSig': string, lastSig: string,
    p: Plan, ts: seq<Tunnel>, sig: string, wrote: bool, walk: seq<Addr>)
  {
    && IsPlan(p, c, ts) && IsSignature(sig, p) && Walk(walk, p.pinTable)
    && (wrote <==> !(sig == lastSig && LooksInstalled(rt, p)))
    && (!wrote ==> rt' == rt && lastSig' == lastSig)
    && (wrote && Sorted(rt.rules) && Linked(rt, p) ==>
         if Fresh(rt, p, c) then Applied(rt', rt, p, c, walk) && lastSig' == sig
         else Halted(rt', rt, p, c, walk) && lastSig' == lastSig)
    && (lastSig' != lastSig && |p.live| <= MaxTunnels ==> Linked(rt, p))
  }

  /** The plan was written over what was there, and nothing else was. */
  ghost predicate Rewrote(now: Routing, was: Routing, p: Plan, c: Settings)
  {
    exists walk :: Walk(walk, p.pinTable) && Applied(now, was, p, c, walk)
  }

  /** After such a pass the plan for the tunnels just read is in force, and the
      memory fits; it wrote that plan or nothing, and nothing if that plan was in
      force before and its text remembered. */
  lemma PassHeals(
    rt': Routing, rt: Routing, c: Settings, lastSig': string, lastSig: string,
    p: Plan, ts: seq<Tunnel>, sig: string, wrote: bool, walk: seq<Addr>,
    plan: Plan, tunnels: seq<Tunnel>, applied: Routing)
    requires Outcome(rt', rt, c, lastSig', lastSig, p, ts, sig, wrote, walk)
    requires Consistent(c, lastSig, plan, tunnels, applied, rt) && ReadFrom(ts, rt) && |c.pinned| <= FlushLimit
    ensures InForce(rt', p, c) && lastSig' == sig && Consistent(c, sig, p, ts, rt', rt')
    ensures if wrote then Rewrote(rt', rt, p, c) else rt' == rt
    ensures IsSignature(lastSig, p) && InForce(rt, p, c) ==> !wrote
  {
    if sig == lastSig {
      SkippingIsSound(c, lastSig, plan, tunnels, applied, rt, p, ts, sig);
    }
    if wrote {
      FlushableIsFresh(rt, p, c);
      LiveIsLinked(p, c, ts, rt);
      AppliedIsConsistent(c, sig, p, ts, rt, rt', walk);
    }
    if IsSignature(lastSig, p) {
      SignatureIsDeterministic(sig, lastSig, p);
    }
  }

  lemma LogGrows(passes: seq<Pass>, p: Pass, staleAfter: int)
    ensures var before := Log(passes, staleAfter);
      Remember(map[], Log(passes + [p], staleAfter))
      == Remember(Remember(map[], before), Attempts(Remember(map[], before), p.tunnels, staleAfter, p.now))
  {
    var before := Log(passes, staleAfter);
    assert (passes + [p])[..|passes|] == passes;
    RememberConcat(map[], before, Attempts(Remember(map[], before), p.tunnels, staleAfter, p.now));
  }

  lemma SignatureIsText(s: string, p: Plan)
    requires IsSignature(s, p)
    ensures s != ""
  {
    var order :| SortedKeys(order, p.pins) && s == Render(p, order);
    FirstLetter(p, order);
  }

  // What the outside world does between passes

  /** Somebody removes a rule or a route, or an interface goes away or comes back. */
  datatype Deletion = RuleAt(i: nat) | RouteAt(table: nat, i: nat) | LinkGone(name: string) | LinkBack(name: string)

  function Without<T>(s: seq<T>, i: nat): seq<T>
  {
    if i < |s| then s[..i] + s[i + 1..] else s
  }

  function Delete(rt: Routing, d: Deletion): Routing
  {
    match d
    case RuleAt(i) => rt.(rules := Without(rt.rules, i))
    case RouteAt(t, i) => rt.(tables := rt.tables[t := Without(TableOf(rt.tables, t), i)])
    case LinkGone(name) => Exec(rt, LinkDown(name)).0
    case LinkBack(name) => Exec(rt, LinkUp(name)).0
  }

  lemma {:induction false} WithoutIsSubsequence<T(!new)>(s: seq<T>, i: nat)
    ensures Subsequence(Without(s, i), s)
  {
    if i >= |s| {
      SubsequenceReflexive(s);
    } else if i == 0 {
      SubsequenceReflexive(s[1..]);
      SubsequenceSkip(s[1..], s[1..], [s[0]]);
      assert [s[0]] + s[1..] == s && Without(s, 0) == s[1..];
    } else {
      WithoutIsSubsequence(s[1..], i - 1);
      assert Without(s, i)[1..] == Without(s[1..], i - 1);
    }
  }

  lemma DeleteOnlyDeletes(rt: Routing, d: Deletion)
    ensures Deleted(Delete(rt, d), rt)
  {
    DeletedReflexive(rt);
    match d
    case RuleAt(i) => WithoutIsSubsequence(rt.rules, i);
    case RouteAt(t, i) => WithoutIsSubsequence(TableOf(rt.tables, t), i);
    case LinkGone(name) => LinksOnlyDelete(rt, LinkDown(name));
    case LinkBack(name) => LinksOnlyDelete(rt, LinkUp(name));
  }

  function DeleteAll(rt: Routing, ds: seq<Deletion>): Routing
  {
    if ds == [] then rt else Delete(DeleteAll(rt, ds[..|ds| - 1]), ds[|ds| - 1])
  }

  lemma DeleteOneMore(rt: Routing, ds: seq<Deletion>, i: nat)
    requires i < |ds|
    ensures DeleteAll(rt, ds[..i + 1]) == Delete(DeleteAll(rt, ds[..i]), ds[i])
  {
    assert ds[..i + 1][..i] == ds[..i];
  }

  lemma {:induction false} DeleteAllOnlyDeletes(rt: Routing, ds: seq<Deletion>)
    ensures Deleted(DeleteAll(rt, ds), rt)
  {
    if ds == [] {
      DeletedReflexive(rt);
    } else {
      var before := DeleteAll(rt, ds[..|ds| - 1]);
      DeleteAllOnlyDeletes(rt, ds[..|ds| - 1]);
      DeleteOnlyDeletes(before, ds[|ds| - 1]);
      DeletedTransitive(DeleteAll(rt, ds), before, rt);
    }
  }

  /** The outside world makes its deletions, one at a time. */
  method Outside(h: Host, ds: seq<Deletion>)
    requires h.Valid()
    modifies h
    ensures h.FwKept() && h.issued == old(h.issued)
    ensures h.rt == DeleteAll(old(h.rt), ds)
  {
    for i := 0 to |ds|
      invariant h.FwKept() && h.issued == old(h.issued)
      invariant h.rt == DeleteAll(old(h.rt), ds[..i])
    {
      DeleteOneMore(old(h.rt), ds, i);
      h.rt := Delete(h.rt, ds[i]);
      h.trace := h.trace + [Snapshot(h.fw, h.rt, h.issued)];
    }
    assert ds[..|ds|] == ds;
  }

  /** The daemon's knowledge survives deletions. */
  lemma ConsistentAfterDeletion(
    c: Settings, sig: string, p: Plan, ts: seq<Tunnel>, applied: Routing, rt: Routing, rt': Routing)
    requires Consistent(c, sig, p, ts, applied, rt) && Deleted(rt', rt)
    ensures Consistent(c, sig, p, ts, applied, rt')
  {
    SubsequenceSorted(rt'.rules, rt.rules);
    DeletedStaysFlushable(rt'.rules, rt.rules);
    if sig != "" {
      DeletedTransitive(rt', rt, applied);
    }
  }

  /** Plans for the same configuration that ask for the same routing have the same text. */
  lemma SameRoutingSameText(p: Plan, q: Plan, c: Settings, ts: seq<Tunnel>, us: seq<Tunnel>, s: string)
    requires IsPlan(p, c, ts) && IsPlan(q, c, us) && SameRouting(p, q) && IsSignature(s, p)
    ensures IsSignature(s, q)
  {
    var order :| SortedKeys(order, p.pins) && s == Render(p, order);
    assert p.live == [] <==> q.live == [];
    assert SortedKeys(order, q.pins) && s == Render(q, order);
  }

  /** One pass as the run remembers it: the plan and the tunnels it was built
      from, and the machine when the pass began, when recovery was over and
      when the pass ended. */
  datatype Held = Held(plan: Plan, tunnels: seq<Tunnel>, start: Moment, mid: Moment, end: Moment)

  /** The plan for the tunnels just read is in force. */
  ghost predicate Holding(k: Held, c: Settings)
  {
    IsPlan(k.plan, c, k.tunnels) && InForce(k.end.rt, k.plan, c)
  }
}
