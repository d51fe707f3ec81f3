/** Bringing the tunnels back after the leak test took them down. */
module Restore {
  import opened Prelude
  import opened Net
  import opened Config
  import opened Tunnels
  import opened Plan
  import opened Routing
  import opened Control
  import opened Healing
  import opened Links
  import opened Passes
  import opened Hosts

  const TryLimit: nat := 6

  /** Interface names with their handshake ages. */
  type Handshakes = seq<(string, int)>

  datatype RestoreError = ApplyFailed | NotClean

  /** One attempt: the tunnels read, the plan built from them, whether it could be
      written, and the machine at the read and after the write. */
  datatype Try = Try(tunnels: seq<Tunnel>, plan: Plan, applied: bool, read: Moment, end: Moment)

  /** Starts every tunnel, up or not. */
  method BringAllUp(h: Host, tunnels: seq<Tunnel>)
    requires h.Valid()
    modifies h
    ensures h.FwKept() && h.issued == old(h.issued) + Ups(tunnels)
    ensures h.rtSteady ==> Touched(h.rt, old(h.rt), AllNames(tunnels))
  {
    hide Touched, Ups, AllNames;
    NoUps();
    TouchedReflexive(h.rt, {});
    for i := 0 to |tunnels|
      invariant h.FwKept() && h.issued == old(h.issued) + Ups(tunnels[..i])
      invariant h.rtSteady ==> Touched(h.rt, old(h.rt), AllNames(tunnels[..i]))
    {
      OneUpMore(tunnels, i);
      ghost var mid := h.rt;
      var _ := Act(h, tunnels[i], Start);
      if h.rtSteady {
        TouchedCompose(h.rt, mid, old(h.rt), AllNames(tunnels[..i]), tunnels[i].name);
      }
    }
    assert tunnels[..|tunnels|] == tunnels;
  }

  function Ups(ts: seq<Tunnel>): seq<Command>
  {
    if ts == [] then [] else Ups(ts[..|ts| - 1]) + [LinkUp(ts[|ts| - 1].name)]
  }

  ghost function AllNames(ts: seq<Tunnel>): set<string>
  {
    set t | t in ts :: t.name
  }

  /** One command for every tunnel, in order. */
  lemma {:induction false} UpsExactly(ts: seq<Tunnel>)
    ensures |Ups(ts)| == |ts| && forall i :: 0 <= i < |ts| ==> Ups(ts)[i] == LinkUp(ts[i].name)
  {
    if ts != [] {
      UpsExactly(ts[..|ts| - 1]);
    }
  }

  lemma NoUps()
    ensures Ups([]) == [] && AllNames([]) == {}
  {
  }

  lemma OneUpMore(ts: seq<Tunnel>, i: nat)
    requires i < |ts|
    ensures Ups(ts[..i + 1]) == Ups(ts[..i]) + [LinkUp(ts[i].name)]
    ensures AllNames(ts[..i + 1]) == AllNames(ts[..i]) + {ts[i].name}
  {
    assert ts[..i + 1] == ts[..i] + [ts[i]];
    assert ts[..i + 1][..i] == ts[..i];
  }

  /** An attempt whose plan fell short, or did not. */
  ghost predicate FellShort(c: Settings, t: Try)
  {
    IsPlan(t.plan, c, t.tunnels) && !Restored(c, t.plan)
  }

  ghost predicate Succeeded(c: Settings, t: Try)
  {
    IsPlan(t.plan, c, t.tunnels) && Restored(c, t.plan)
  }

  predicate AllApplied(tries: seq<Try>)
  {
    tries == [] || (AllApplied(tries[..|tries| - 1]) && tries[|tries| - 1].applied)
  }

  /** The attempt happened on the machine: its tunnels carry the ages of its read,
      and both its moments are on the trace. */
  ghost predicate Happened(t: Try, ages: Handshakes, trace: seq<Snapshot>)
  {
    && Reads(t.tunnels, ages)
    && OnTrace(t.read, trace) && OnTrace(t.end, trace)
    && t.read.at <= t.end.at && t.read.issued <= t.end.issued
  }

  /** On an undisturbed machine the links were those of the moment it read; the plan
      was written exactly when the kernel took every rule; and once written it is
      in force exactly when what was there could be flushed. */
  ghost predicate Written(t: Try, c: Settings)
  {
    && LinksShow(t.tunnels, t.read.rt)
    && (Sorted(t.read.rt.rules) ==>
         && Sorted(t.end.rt.rules) && (t.applied <==> Fresh(t.read.rt, t.plan, c))
         && (t.applied ==> Rewrote(t.end.rt, t.read.rt, t.plan, c)))
    && (Sorted(t.read.rt.rules) && |t.tunnels| <= MaxTunnels && t.applied ==>
         (InForce(t.end.rt, t.plan, c) <==> Flushable(t.read.rt.rules)))
  }

  lemma AppliedIsWritten(t: Try, c: Settings, walk: seq<Addr>)
    requires IsPlan(t.plan, c, t.tunnels) && LinksShow(t.tunnels, t.read.rt) && Walk(walk, t.plan.pinTable)
    requires Sorted(t.read.rt.rules) && Linked(t.read.rt, t.plan) ==> (t.applied <==> Fresh(t.read.rt, t.plan, c))
    requires Sorted(t.read.rt.rules) && Linked(t.read.rt, t.plan) ==>
        if t.applied then Applied(t.end.rt, t.read.rt, t.plan, c, walk) else Halted(t.end.rt, t.read.rt, t.plan, c, walk)
    ensures Written(t, c)
  {
    hide IsPlan, InForce, Sorted, Flushable, Fresh, Stacked, ForeignKept, TablesWritten;
    LiveIsLinked(t.plan, c, t.tunnels, t.read.rt);
    if Sorted(t.read.rt.rules) && t.applied && |t.tunnels| <= MaxTunnels {
      BuildPlanIsRoutable(c, t.tunnels, t.plan);
      ApplyIsExact(t.end.rt, t.read.rt, t.plan, c, walk);
    }
  }

  /** One attempt: read, plan, write, and judge the plan. */
  method RestoreOnce(h: Host, c: Settings, ages: Handshakes) returns (done: bool, applied: bool, ghost t: Try)
    requires h.Valid()
    modifies h
    ensures h.FwKept() && applied == t.applied
    ensures Happened(t, ages, h.trace) && old(h.Present()).at <= t.read.at && t.end == h.Present()
    ensures t.read.issued == old(h.issued) && (h.rtSteady ==> t.read.rt == old(h.rt))
    ensures h.rtSteady ==> Written(t, c)
    ensures if done then Succeeded(c, t) else FellShort(c, t)
  {
    hide Applied, Halted, Fresh, Linked, Sorted, InForce, Flushable, Reads, LinksShow, Written;
    var seen := ReadTunnels(h, ages);
    ghost var read := h.Present();
    var plan := BuildPlan(c, seen);
    var walk := WalkMap(plan.pinTable);
    var ok, _ := Apply(h, plan, c, walk);
    applied := ok;
    t := Try(seen, plan, applied, read, h.Present());
    if h.rtSteady {
      AppliedIsWritten(t, c, walk);
    }
    var distinct := DistinctPins(plan);
    var wantPins := if |c.pinned| < |plan.bond| then |c.pinned| else |plan.bond|;
    done := |plan.bond| > 0 && distinct >= wantPins;
  }

  /** The machine as attempt k found it. */
  function Prior(tries: seq<Try>, up: Moment, k: nat): Moment
    requires k <= |tries|
  {
    if k == 0 then up else tries[k - 1].end
  }

  /** Attempt k happened after those before it, with no command in between, and
      on an undisturbed machine with nothing moved in between. */
  ghost predicate Follows(tries: seq<Try>, up: Moment, ages: seq<Handshakes>, c: Settings, trace: seq<Snapshot>, steady: bool, k: nat)
    requires k < |tries| && k < |ages|
  {
    && Happened(tries[k], ages[k], trace)
    && Prior(tries, up, k).at <= tries[k].read.at && tries[k].read.issued == Prior(tries, up, k).issued
    && (steady ==> Written(tries[k], c) && tries[k].read.rt == Prior(tries, up, k).rt)
  }

  ghost predicate AllFollow(tries: seq<Try>, up: Moment, ages: seq<Handshakes>, c: Settings, trace: seq<Snapshot>, steady: bool)
    requires |tries| <= |ages|
  {
    forall k :: 0 <= k < |tries| ==> Follows(tries, up, ages, c, trace, steady, k)
  }

  lemma OneTryMore(
    tries: seq<Try>, up: Moment, ages: seq<Handshakes>, c: Settings, trace: seq<Snapshot>, steady: bool, t: Try,
    more: seq<Snapshot>)
    requires |tries| < |ages| && trace <= more && AllFollow(tries, up, ages, c, trace, steady)
    requires Happened(t, ages[|tries|], more) && Prior(tries, up, |tries|).at <= t.read.at
    requires t.read.issued == Prior(tries, up, |tries|).issued
    requires steady ==> Written(t, c) && t.read.rt == Prior(tries, up, |tries|).rt
    ensures AllFollow(tries + [t], up, ages, c, more, steady)
  {
    hide Written, Reads;
    forall k | 0 <= k <= |tries|
      ensures Follows(tries + [t], up, ages, c, more, steady, k)
    {
      assert k < |tries| ==> Follows(tries, up, ages, c, trace, steady, k);
    }
  }

  lemma TryHolds(t: Try, c: Settings, ages: Handshakes, trace: seq<Snapshot>)
    requires IsPlan(t.plan, c, t.tunnels) && Written(t, c) && Happened(t, ages, trace) && |ages| <= MaxTunnels
    requires Sorted(t.read.rt.rules) && Flushable(t.read.rt.rules) && |c.pinned| <= FlushLimit
    ensures t.applied && InForce(t.end.rt, t.plan, c) && Sorted(t.end.rt.rules) && Flushable(t.end.rt.rules)
  {
    hide Sorted, Flushable, Fresh, IsPlan, LinksShow, RulesInForce, RoutesInForce;
    FlushableIsFresh(t.read.rt, t.plan, c);
    FewPins(t.plan, c, t.tunnels);
    InForceIsFlushable(t.end.rt.rules, t.plan, c);
  }

  /** Attempts on an undisturbed machine that starts with ordered rules, few at
      each owned priority, all leave their plans in force, for up to 32 pins. */
  lemma {:induction false} TriesHold(
    tries: seq<Try>, up: Moment, ages: seq<Handshakes>, c: Settings, trace: seq<Snapshot>, k: nat)
    requires k <= |tries| <= |ages| && AllFollow(tries, up, ages, c, trace, true)
    requires Sorted(up.rt.rules) && Flushable(up.rt.rules) && |c.pinned| <= FlushLimit
    requires forall j :: 0 <= j < |tries| ==> IsPlan(tries[j].plan, c, tries[j].tunnels) && |ages[j]| <= MaxTunnels
    ensures Sorted(Prior(tries, up, k).rt.rules) && Flushable(Prior(tries, up, k).rt.rules)
    ensures forall j :: 0 <= j < k ==> tries[j].applied && InForce(tries[j].end.rt, tries[j].plan, c)
  {
    hide Sorted, Flushable, IsPlan, InForce, Written, Happened;
    if k > 0 {
      TriesHold(tries, up, ages, c, trace, k - 1);
      assert Follows(tries, up, ages, c, trace, true, k - 1);
      TryHolds(tries[k - 1], c, ages[k - 1], trace);
    }
  }

  ghost predicate NothingBroken(tries: seq<Try>, c: Settings)
  {
    forall k :: 0 <= k < |tries| ==> tries[k].applied && InForce(tries[k].end.rt, tries[k].plan, c)
  }

  predicate FewTunnelsEach(ages: seq<Handshakes>)
  {
    forall k :: 0 <= k < |ages| ==> |ages[k]| <= MaxTunnels
  }

  /** Starts every tunnel, then tries up to six times to rebuild the routing. It
      reports success at the first plan that spreads the pins over what is live,
      and only then: whether that plan could be written makes no difference to
      success. On an undisturbed machine with few rules at each owned priority
      and at most 32 pins every plan tried was in force after its attempt, so
      success leaves it in force. An error means that all six plans fell short, and a failed write is
      blamed when there was one. The firewall is left alone throughout. */
  method RestoreTunnels(h: Host, c: Settings, tunnels: seq<Tunnel>, ages: seq<Handshakes>)
    returns (err: Option<RestoreError>, ghost up: Moment, ghost tries: seq<Try>)
    requires h.Valid() && |ages| == 6
    modifies h
    ensures h.FwKept()
    ensures OnTrace(up, h.trace) && up.issued == old(h.issued) + Ups(tunnels)
    ensures h.rtSteady ==> Touched(up.rt, old(h.rt), AllNames(tunnels))
    ensures |tries| <= 6 && AllFollow(tries, up, ages, c, h.trace, h.rtSteady)
    ensures Prior(tries, up, |tries|) == h.Present()
    ensures err == None ==> tries != [] && Succeeded(c, tries[|tries| - 1])
    ensures err == None ==> forall k :: 0 <= k < |tries| - 1 ==> FellShort(c, tries[k])
    ensures err.Some? ==> |tries| == 6 && forall k :: 0 <= k < 6 ==> FellShort(c, tries[k])
    ensures err.Some? ==> (err.value == NotClean <==> AllApplied(tries))
    ensures h.rtSteady && old(Sorted(h.rt.rules) && Flushable(h.rt.rules)) && |c.pinned| <= FlushLimit && FewTunnelsEach(ages) ==>
        NothingBroken(tries, c)
  {
    hide Succeeded, FellShort, Happened, Follows, Written, AllFollow, Sorted, Flushable, Ups, AllNames, NothingBroken;
    ghost var was := h.rt;
    BringAllUp(h, tunnels);
    up := h.Present();
    tries := [];
    NoTries(up, ages, c, h.trace, h.rtSteady);
    var failed := false;
    for attempt := 0 to TryLimit
      invariant h.FwKept() && |tries| == attempt
      invariant OnTrace(up, h.trace) && Prior(tries, up, attempt) == h.Present()
      invariant AllFollow(tries, up, ages, c, h.trace, h.rtSteady)
      invariant forall k :: 0 <= k < attempt ==> FellShort(c, tries[k])
      invariant failed <==> !AllApplied(tries)
    {
      ghost var t, trace := *, h.trace;
      var done, applied;
      done, applied, t := RestoreOnce(h, c, ages[attempt]);
      assert (tries + [t])[..attempt] == tries;
      OneTryMore(tries, up, ages, c, trace, h.rtSteady, t, h.trace);
      tries := tries + [t];
      if done {
        SuccessIsInForce(h, was, up, tries, ages, c);
        return None, up, tries;
      }
      failed := failed || !applied;
    }
    SuccessIsInForce(h, was, up, tries, ages, c);
    return Some(if failed then ApplyFailed else NotClean), up, tries;
  }

  lemma NoTries(up: Moment, ages: seq<Handshakes>, c: Settings, trace: seq<Snapshot>, steady: bool)
    ensures AllFollow([], up, ages, c, trace, steady)
  {
  }

  lemma SuccessIsInForce(h: Host, was: Routing, up: Moment, tries: seq<Try>, ages: seq<Handshakes>, c: Settings)
    requires |tries| <= |ages| && AllFollow(tries, up, ages, c, h.trace, h.rtSteady)
    requires h.rtSteady ==> Deleted(up.rt, was)
    requires forall k :: 0 <= k < |tries| ==> Succeeded(c, tries[k]) || FellShort(c, tries[k])
    ensures h.rtSteady && Sorted(was.rules) && Flushable(was.rules) && |c.pinned| <= FlushLimit && FewTunnelsEach(ages) ==>
        NothingBroken(tries, c)
  {
    hide Sorted, Flushable, AllFollow, Restored, IsPlan, InForce;
    if h.rtSteady && Sorted(was.rules) && Flushable(was.rules) && |c.pinned| <= FlushLimit && FewTunnelsEach(ages) {
      SubsequenceSorted(up.rt.rules, was.rules);
      DeletedStaysFlushable(up.rt.rules, was.rules);
      TriesHold(tries, up, ages, c, h.trace, |tries|);
    }
  }

  /** For distinct clients and interface names, a restore gives up only when no
      tunnel was live at any of the six attempts. */
  lemma GivesUpOnlyWhenNothingIsLive(c: Settings, tries: seq<Try>)
    requires |tries| == TryLimit && Distinct(c.pinned)
    requires forall k :: 0 <= k < TryLimit ==> FellShort(c, tries[k]) && Distinct(tries[k].plan.bond)
    ensures forall k :: 0 <= k < TryLimit ==> LiveOnes(tries[k].tunnels, c.staleAfter) == []
  {
    forall k | 0 <= k < TryLimit
      ensures LiveOnes(tries[k].tunnels, c.staleAfter) == []
    {
      assert FellShort(c, tries[k]);
      RestoreTestMeansLive(c, tries[k].tunnels, tries[k].plan);
    }
  }
}
