/** The daemon: arm first, then hold the routing correct pass after pass. */
module Daemon {
  import opened Prelude
  import opened Net
  import opened Config
  import opened Tunnels
  import opened Recovery
  import opened Plan
  import opened Rendering
  import opened Routing
  import opened Control
  import opened Healing
  import opened Passes
  import opened Links
  import opened Hosts
  import opened WgConf
  import Chain
  import Firewall
  import KillSwitch
  import Purge

  /** A pass the daemon can cope with: at most five tunnels with plain names, and
      no more pins than one flush can remove. */
  predicate Manageable(c: Settings, l: Look)
  {
    FewTunnels(l) && PlainTunnels(l) && |c.pinned| <= FlushLimit
  }

  predicate AllManageable(c: Settings, looks: seq<Look>)
  {
    forall l :: l in looks ==> Manageable(c, l)
  }

  /** Rules in order, and few enough at each owned priority. */
  ghost predicate Clean(rt: Routing)
  {
    Sorted(rt.rules) && Flushable(rt.rules)
  }

  /** What a pass tries to recover, given the memory it starts from. */
  function Tried(last: Memory, p: Pass, staleAfter: int): seq<Attempt>
  {
    Attempts(last, p.tunnels, staleAfter, p.now)
  }

  /** One pass on any machine: it looked when and at what the look says; its three
      moments lie on the trace in order; up to the second it issued exactly the
      commands of its recovery attempts, and after that none on an interface. */
  ghost predicate Logged(
    k: Held, prior: Moment, look: Look, p: Pass, last: Memory, staleAfter: int, trace: seq<Snapshot>)
  {
    && p.now == look.now && Reads(p.tunnels, look.before) && Reads(k.tunnels, look.after)
    && OnTrace(k.start, trace) && OnTrace(k.mid, trace) && OnTrace(k.end, trace)
    && prior.at <= k.start.at <= k.mid.at <= k.end.at && prior.at < k.end.at
    && k.start.issued == prior.issued
    && k.mid.issued == k.start.issued + CommandLog(Tried(last, p, staleAfter))
    && k.mid.issued <= k.end.issued && LinksOf(k.end.issued) == LinksOf(k.mid.issued)
  }

  /** The first half of a pass: the tunnels were read with the links of the moment
      it began, and nothing but the interfaces attempted on moved. */
  ghost predicate Recovered(start: Routing, mid: Routing, p: Pass, done: seq<Attempt>)
  {
    LinksShow(p.tunnels, start) && Touched(mid, start, NamesOf(done))
  }

  /** One pass on an undisturbed machine: the outside world deleted what it deleted,
      recovery followed, the plan was built from a read of the tunnels then, that
      plan or nothing at all was written, and it is in force at the end. */
  ghost predicate Genuine(k: Held, prior: Moment, ds: seq<Deletion>, p: Pass, last: Memory, c: Settings)
  {
    && k.start.rt == DeleteAll(prior.rt, ds)
    && Recovered(k.start.rt, k.mid.rt, p, Tried(last, p, c.staleAfter))
    && LinksShow(k.tunnels, k.mid.rt)
    && (Still(k.end, k.mid) || Rewrote(k.end.rt, k.mid.rt, k.plan, c))
    && Holding(k, c)
  }

  /** A pass had nothing to do: nothing was deleted before it, nothing was
      recovered in it, and it wants the routing the pass before it left. */
  predicate IdleNext(previous: Held, k: Held, p: Pass, last: Memory, deleted: seq<Deletion>, staleAfter: int)
  {
    deleted == [] && Tried(last, p, staleAfter) == [] && SameRouting(k.plan, previous.plan)
  }

  /** From one moment to the other no command was issued and nothing moved. */
  predicate Still(now: Moment, was: Moment)
  {
    now.issued == was.issued && now.rt == was.rt
  }

  lemma StepHeals(
    c: Settings, look: Look, before: Routing, found: Routing, mid: Routing, after: Routing, sig0: string, sig': string,
    p: Plan, ts: seq<Tunnel>, sig: string, wrote: bool, walk: seq<Addr>, known: Held)
    requires Manageable(c, look) && Consistent(c, sig0, known.plan, known.tunnels, known.end.rt, before)
    requires Deleted(found, before) && Deleted(mid, found) && ReadAt(ts, look.after, mid)
    requires Outcome(after, mid, c, sig', sig0, p, ts, sig, wrote, walk)
    ensures InForce(after, p, c) && IsPlan(p, c, ts) && sig' == sig && sig != "" && Consistent(c, sig, p, ts, after, after)
    ensures if wrote then Rewrote(after, mid, p, c) else after == mid
    ensures sig0 != "" && SameRouting(p, known.plan) && InForce(mid, known.plan, c) ==> !wrote
  {
    hide Consistent, InForce, IsPlan, Deleted, LooksInstalled, IsSignature, Walk, Applied, Linked, Plain;
    ConsistentAfterDeletion(c, sig0, known.plan, known.tunnels, known.end.rt, before, found);
    ConsistentAfterDeletion(c, sig0, known.plan, known.tunnels, known.end.rt, found, mid);
    assert ReadFrom(ts, mid) by {
      forall t | t in ts
        ensures Plain(t.name)
      {
        var i :| 0 <= i < |ts| && ts[i] == t;
        assert look.after[i] in look.after;
      }
    }
    PassHeals(after, mid, c, sig', sig0, p, ts, sig, wrote, walk, known.plan, known.tunnels, known.end.rt);
    SignatureIsText(sig, p);
    if sig0 != "" && SameRouting(p, known.plan) && InForce(mid, known.plan, c) {
      SameRoutingSameText(known.plan, p, c, known.tunnels, ts, sig0);
      SameRoutingInForce(mid, known.plan, p, c);
    }
  }

  class RunLoop {
    const c: Settings
    const block: KillSwitch.BlockAction
    var lastSig: string
    var lastAttempt: Memory
    ghost var passes: seq<Pass>
    ghost var known: Held  // the pass whose text lastSig is

    constructor (c: Settings, block: KillSwitch.BlockAction)
      ensures this.c == c && this.block == block && lastSig == "" && lastAttempt == map[] && passes == []
    {
      this.c, this.block, lastSig, lastAttempt, passes := c, block, "", map[], [];
      ghost var nowhere := Moment(0, Routing([], map[], {}, false, false), []);
      known := Held(Plan([], [], map[], map[]), [], nowhere, nowhere, nowhere);
    }

    ghost function Latest(): Pass
      requires passes != []
      reads this
    {
      passes[|passes| - 1]
    }

    /** The daemon's memory of attempts is that of the whole run. */
    ghost predicate Remembers()
      reads this
    {
      lastAttempt == Remember(map[], Log(passes, c.staleAfter))
    }

    /** The refusal is known and both checks of the kill switch pass. */
    ghost predicate Armed(h: Host)
      reads this, h, block
    {
      block.once && KillSwitch.Armed(h.fw, block.target, c.clients)
    }

    /** What a pass does to the filter table when commands work: nothing where both
        checks pass, and otherwise the seven rules again. */
    predicate Rearmed(fw: Firewall.Firewall, was: Firewall.Firewall)
    {
      if KillSwitch.Armed(was, KillSwitch.Refusal(was.caps), c.clients) then fw == was
      else KillSwitch.ArmedOver(fw, was, c.clients, c.lan, true)
    }

    /** Whether the plan has to be written. */
    method NeedsWriting(h: Host, p: Plan, sig: string, walk: seq<Addr>) returns (needs: bool)
      requires h.Valid() && Walk(walk, p.pinTable) && p.pins.Keys == p.pinTable.Keys
      modifies h
      ensures h.Untouched()
      ensures h.rtSteady ==> (needs <==> !(sig == lastSig && LooksInstalled(h.rt, p)))
    {
      if sig != lastSig {
        return true;
      }
      var fine := Installed(h, p, walk);
      return !fine;
    }

    /** Builds the plan, and writes it when its text changed or the kernel no
        longer shows it. */
    method Hold(h: Host, ts: seq<Tunnel>) returns (p: Plan, wrote: bool, ghost sig: string, ghost walk: seq<Addr>)
      requires h.Valid()
      modifies h, `lastSig
      ensures h.FwKept()
      ensures LinksOf(h.issued) == LinksOf(old(h.issued))
      ensures !wrote ==> h.Untouched() && lastSig == old(lastSig)
      ensures lastSig == old(lastSig) || lastSig == sig
      ensures h.rtSteady ==> Outcome(h.rt, old(h.rt), c, lastSig, old(lastSig), p, ts, sig, wrote, walk)
    {
      p := BuildPlan(c, ts);
      var keys := WalkMap(p.pins);
      walk := keys;
      var text := Rendering.Describe(p, keys);
      sig := text;
      assert p.pins.Keys == p.pinTable.Keys;
      wrote := NeedsWriting(h, p, text, keys);
      if wrote {
        var ok, _ := Apply(h, p, c, keys);
        if ok {
          lastSig := text;
        }
      }
    }

    /** The first half of a pass: read the tunnels, repair the firewall, recover
        what died. */
    method Recover(h: Host, look: Look)
      requires h.Valid() && block.Blocks()
      modifies h, block, `lastAttempt, `passes
      ensures h.Advanced() && block.Blocks() && |h.trace| > |old(h.trace)|
      ensures h.Truthful() && old(Armed(h)) ==> h.FwKept() && Armed(h)
      ensures h.fwSteady && old(block.Fits(h.fw.caps)) ==> block.Fits(h.fw.caps) && Rearmed(h.fw, old(h.fw))
      ensures old(Remembers()) ==> Remembers()
      ensures passes != [] && passes == old(passes) + [Latest()]
      ensures Latest().now == look.now && Reads(Latest().tunnels, look.before)
      ensures h.rtSteady ==> LinksShow(Latest().tunnels, old(h.rt))
      ensures h.issued == old(h.issued) + CommandLog(Tried(old(lastAttempt), Latest(), c.staleAfter))
      ensures h.rtSteady ==> Touched(h.rt, old(h.rt), NamesOf(Tried(old(lastAttempt), Latest(), c.staleAfter)))
      ensures Tried(old(lastAttempt), Latest(), c.staleAfter) == [] ==>
          (h.rtSteady ==> h.rt == old(h.rt)) && h.issued == old(h.issued)
    {
      hide Touched, CommandLog, NamesOf, Reads, LinksShow, Log, Remember, Attempts, KillSwitch.Armed;
      hide KillSwitch.ArmedOver, KillSwitch.ArmedMachine, KillSwitch.WindowShows;
      var seen := ReadTunnels(h, look.before);
      KillSwitch.RepairFirewall(h, block, c.clients, c.lan);
      lastAttempt := RecoverTunnels(h, seen, c.staleAfter, lastAttempt, look.now);
      LogGrows(passes, Recovery.Pass.Pass(look.now, seen), c.staleAfter);
      passes := passes + [Recovery.Pass.Pass(look.now, seen)];
    }

    /** One pass: recover, read the tunnels again, hold the routing. mid is the
        machine as it was after recovery. */
    method Refresh(h: Host, look: Look)
      returns (p: Plan, wrote: bool, ghost ts: seq<Tunnel>, ghost sig: string, ghost walk: seq<Addr>, ghost mid: Moment)
      requires h.Valid() && block.Blocks()
      modifies h, block, `lastSig, `lastAttempt, `passes
      ensures h.Advanced() && block.Blocks()
      ensures h.Truthful() && old(Armed(h)) ==> h.FwKept() && Armed(h)
      ensures h.fwSteady && old(block.Fits(h.fw.caps)) ==> block.Fits(h.fw.caps) && Rearmed(h.fw, old(h.fw))
      ensures old(Remembers()) ==> Remembers()
      ensures passes != [] && passes == old(passes) + [Latest()]
      ensures Latest().now == look.now && Reads(Latest().tunnels, look.before) && Reads(ts, look.after)
      ensures OnTrace(mid, h.trace) && |old(h.trace)| <= mid.at && mid.issued <= h.issued
      ensures mid.issued == old(h.issued) + CommandLog(Tried(old(lastAttempt), Latest(), c.staleAfter))
      ensures LinksOf(h.issued) == LinksOf(mid.issued)
      ensures h.rtSteady ==> Recovered(old(h.rt), mid.rt, Latest(), Tried(old(lastAttempt), Latest(), c.staleAfter))
      ensures h.rtSteady ==> LinksShow(ts, mid.rt)
      ensures h.rtSteady ==> Outcome(h.rt, mid.rt, c, lastSig, old(lastSig), p, ts, sig, wrote, walk)
      ensures Tried(old(lastAttempt), Latest(), c.staleAfter) == [] ==>
          mid.issued == old(h.issued) && (h.rtSteady ==> mid.rt == old(h.rt))
      ensures !wrote ==> h.issued == mid.issued && (h.rtSteady ==> h.rt == mid.rt)
    {
      hide Touched, CommandLog, NamesOf, Reads, LinksShow, Log, Remember, Outcome, Tried, KillSwitch.Armed, LinksOf;
      Recover(h, look);
      var again := ReadTunnels(h, look.after);
      ts := again;
      mid := h.Present();
      p, wrote, sig, walk := Hold(h, again);
    }

    /** What is remembered of the kernel fits the kernel. */
    ghost predicate Knows(h: Host)
      reads this, h
    {
      Consistent(c, lastSig, known.plan, known.tunnels, known.end.rt, h.rt)
    }

    /** The last pass left its plan in force, and nothing has moved since. */
    ghost predicate Resting(h: Host)
      requires h.Valid()
      reads this, h
    {
      lastSig != "" && Holding(known, c) && known.end == h.Present()
    }

    /** The outside world deletes what it likes, then a pass runs. */
    method Step(h: Host, ds: seq<Deletion>, look: Look, ghost usual: bool) returns (ghost held: Held)
      requires h.Valid() && block.Blocks()
      requires usual ==> h.rtSteady && Manageable(c, look) && Knows(h)
      modifies h, block, `lastSig, `lastAttempt, `passes, `known
      ensures h.Advanced() && block.Blocks()
      ensures h.Truthful() && old(Armed(h)) ==> h.FwKept() && Armed(h)
      ensures h.fwSteady && old(block.Fits(h.fw.caps)) ==> block.Fits(h.fw.caps) && Rearmed(h.fw, old(h.fw))
      ensures old(Remembers()) ==> Remembers()
      ensures passes != [] && passes == old(passes) + [Latest()] && known == held
      ensures Logged(held, old(h.Present()), look, Latest(), old(lastAttempt), c.staleAfter, h.trace)
      ensures held.end == h.Present()
      ensures usual ==> Genuine(held, old(h.Present()), ds, Latest(), old(lastAttempt), c)
      ensures usual ==> Knows(h) && Resting(h)
      ensures usual && old(Resting(h)) && IdleNext(old(known), held, Latest(), old(lastAttempt), ds, c.staleAfter) ==>
          Still(held.end, old(h.Present()))
    {
      hide Outcome, Log, Remember, InForce, IsPlan, Deleted, Reads, LinksShow, KillSwitch.Armed, Tried, CommandLog, NamesOf;
      hide Rewrote, Consistent, SameRouting, Manageable, LinksOf;
      ghost var before := h.Present();
      Outside(h, ds);
      ghost var start := h.Present();
      ghost var sig0 := lastSig;
      var p, wrote;
      ghost var ts, sig, walk, mid;
      p, wrote, ts, sig, walk, mid := Refresh(h, look);
      held := Held(p, ts, start, mid, h.Present());
      if usual {
        DeleteAllOnlyDeletes(before.rt, ds);
        StepHeals(c, look, before.rt, start.rt, mid.rt, h.rt, sig0, lastSig, p, ts, sig, wrote, walk, known);
      }
      known := held;
    }
  }

  /** The machine as pass i found it before anything was deleted. */
  function Before(held: seq<Held>, ready: Moment, i: nat): Moment
    requires i <= |held|
  {
    if i == 0 then ready else held[i - 1].end
  }

  ghost predicate LoggedAt(
    held: seq<Held>, ready: Moment, looks: seq<Look>, passes: seq<Pass>, staleAfter: int, trace: seq<Snapshot>, i: nat)
    requires i < |held| <= |looks| && i < |passes|
  {
    Logged(held[i], Before(held, ready, i), looks[i], passes[i], MemoryAt(passes, staleAfter, i), staleAfter, trace)
  }

  /** Every pass of a run is logged, one after the other. */
  ghost predicate AllLogged(
    held: seq<Held>, ready: Moment, looks: seq<Look>, passes: seq<Pass>, staleAfter: int, trace: seq<Snapshot>)
    requires |held| == |passes| <= |looks|
  {
    forall i :: 0 <= i < |held| ==> LoggedAt(held, ready, looks, passes, staleAfter, trace, i)
  }

  /** Pass i is genuine, and if it was idle no command was issued in it and
      nothing moved. */
  ghost predicate Kept(
    held: seq<Held>, ready: Moment, passes: seq<Pass>, between: seq<seq<Deletion>>, c: Settings, i: nat)
    requires i < |held| && i < |passes| && i < |between|
  {
    var last := MemoryAt(passes, c.staleAfter, i);
    && Genuine(held[i], Before(held, ready, i), between[i], passes[i], last, c)
    && (i > 0 && IdleNext(held[i - 1], held[i], passes[i], last, between[i], c.staleAfter) ==>
         Still(held[i].end, held[i - 1].end))
  }

  ghost predicate Steadfast(
    held: seq<Held>, ready: Moment, passes: seq<Pass>, between: seq<seq<Deletion>>, c: Settings)
    requires |held| == |passes| <= |between|
  {
    forall i :: 0 <= i < |held| ==> Kept(held, ready, passes, between, c, i)
  }

  lemma OneLoggedMore(
    held: seq<Held>, ready: Moment, looks: seq<Look>, passes: seq<Pass>, staleAfter: int, trace: seq<Snapshot>,
    k: Held, p: Pass, last: Memory, more: seq<Snapshot>)
    requires |held| == |passes| < |looks| && last == Remember(map[], Log(passes, staleAfter)) && trace <= more
    requires AllLogged(held, ready, looks, passes, staleAfter, trace)
    requires Logged(k, Before(held, ready, |held|), looks[|held|], p, last, staleAfter, more)
    ensures AllLogged(held + [k], ready, looks, passes + [p], staleAfter, more)
  {
    hide Tried, Log, Remember, Reads, LinksOf, CommandLog;
    forall i | 0 <= i <= |held|
      ensures LoggedAt(held + [k], ready, looks, passes + [p], staleAfter, more, i)
    {
      assert (passes + [p])[..i] == passes[..i];
      if i < |held| {
        assert LoggedAt(held, ready, looks, passes, staleAfter, trace, i);
      } else {
        assert passes[..i] == passes;
      }
    }
  }

  lemma KeptStays(
    held: seq<Held>, ready: Moment, passes: seq<Pass>, between: seq<seq<Deletion>>, c: Settings, i: nat, k: Held, p: Pass)
    requires |held| == |passes| < |between| && i < |held| && Kept(held, ready, passes, between, c, i)
    ensures Kept(held + [k], ready, passes + [p], between, c, i)
  {
    hide Genuine, IdleNext, Log, Remember;
    assert (passes + [p])[..i] == passes[..i];
  }

  lemma KeptNext(
    held: seq<Held>, ready: Moment, passes: seq<Pass>, between: seq<seq<Deletion>>, c: Settings, k: Held, p: Pass, last: Memory)
    requires |held| == |passes| < |between| && last == Remember(map[], Log(passes, c.staleAfter))
    requires Genuine(k, Before(held, ready, |held|), between[|held|], p, last, c)
    requires held != [] && IdleNext(held[|held| - 1], k, p, last, between[|held|], c.staleAfter) ==>
        Still(k.end, held[|held| - 1].end)
    ensures Kept(held + [k], ready, passes + [p], between, c, |held|)
  {
    hide Genuine, IdleNext, Log, Remember, Still;
    assert (passes + [p])[..|held|] == passes;
  }

  lemma OneMore(
    held: seq<Held>, ready: Moment, passes: seq<Pass>, between: seq<seq<Deletion>>, c: Settings, k: Held, p: Pass)
    requires |held| == |passes| < |between| && Steadfast(held, ready, passes, between, c)
    requires Kept(held + [k], ready, passes + [p], between, c, |held|)
    ensures Steadfast(held + [k], ready, passes + [p], between, c)
  {
    hide Kept;
    forall i | 0 <= i < |held|
      ensures Kept(held + [k], ready, passes + [p], between, c, i)
    {
      KeptStays(held, ready, passes, between, c, i, k, p);
    }
  }

  lemma AtStart(
    ready: Moment, looks: seq<Look>, between: seq<seq<Deletion>>, c: Settings, trace: seq<Snapshot>)
    ensures Steadfast([], ready, [], between, c) && AllLogged([], ready, looks, [], c.staleAfter, trace)
  {
  }

  /** Whatever the machine does, the interface commands of a run are those of its
      recovery log, in order; so what spaces the log spaces the commands. */
  lemma {:induction false} InterfaceCommands(
    held: seq<Held>, ready: Moment, looks: seq<Look>, passes: seq<Pass>, staleAfter: int, trace: seq<Snapshot>, n: nat)
    requires n <= |held| == |passes| <= |looks| && AllLogged(held, ready, looks, passes, staleAfter, trace)
    ensures LinksOf(Before(held, ready, n).issued) == LinksOf(ready.issued) + CommandLog(Log(passes[..n], staleAfter))
  {
    hide Tried, Attempts, Remember, Reads, LinksOf, CommandLog;
    if n == 0 {
      assert LinksOf(ready.issued) + CommandLog([]) == LinksOf(ready.issued) by {
        NothingAttempted(map[], staleAfter, 0);
      }
    } else {
      var i := n - 1;
      InterfaceCommands(held, ready, looks, passes, staleAfter, trace, i);
      assert LoggedAt(held, ready, looks, passes, staleAfter, trace, i);
      assert passes[..n][..i] == passes[..i];
      var before := Log(passes[..i], staleAfter);
      var done := Tried(Remember(map[], before), passes[i], staleAfter);
      assert Log(passes[..n], staleAfter) == before + done by {
        TriedIsAttempts(Remember(map[], before), passes[i], staleAfter);
      }
      CommandLogConcat(before, done);
      CommandLogIsLinks(done);
      LinksOfConcat(held[i].start.issued, CommandLog(done));
    }
  }

  lemma TriedIsAttempts(last: Memory, p: Pass, staleAfter: int)
    ensures Tried(last, p, staleAfter) == Attempts(last, p.tunnels, staleAfter, p.now)
  {
  }

  /** Pass n of a run. */
  method Next(
    h: Host, loop: RunLoop, ghost held: seq<Held>, ghost ready: Moment, looks: seq<Look>, between: seq<seq<Deletion>>,
    n: nat, ghost usual: bool)
    returns (ghost held': seq<Held>)
    requires h.Valid() && loop.block.Blocks() && loop.Remembers()
    requires |held| == |loop.passes| == n < |looks| && n < |between|
    requires AllLogged(held, ready, looks, loop.passes, loop.c.staleAfter, h.trace) && Before(held, ready, n) == h.Present()
    requires usual ==> h.rtSteady && Manageable(loop.c, looks[n]) && loop.Knows(h)
    requires usual ==> Steadfast(held, ready, loop.passes, between, loop.c)
    requires usual && held != [] ==> loop.known == held[n - 1] && loop.Resting(h)
    modifies h, loop, loop.block
    ensures h.Advanced() && loop.block.Blocks() && loop.Remembers()
    ensures h.Truthful() && old(loop.Armed(h)) ==> h.FwKept() && loop.Armed(h)
    ensures h.fwSteady && old(loop.block.Fits(h.fw.caps)) ==>
        loop.block.Fits(h.fw.caps) && KillSwitch.Guarding(h.fw, loop.c.clients)
    ensures |held'| == |loop.passes| == n + 1 && Before(held', ready, n + 1) == h.Present()
    ensures AllLogged(held', ready, looks, loop.passes, loop.c.staleAfter, h.trace)
    ensures usual ==> loop.Knows(h)
    ensures usual ==> Steadfast(held', ready, loop.passes, between, loop.c)
    ensures usual ==> loop.known == held'[n] && loop.Resting(h)
  {
    hide Steadfast, Genuine, Logged, AllLogged, Manageable, Consistent, KillSwitch.Armed, Log, Remember, Holding, IdleNext;
    hide KillSwitch.Guarding, KillSwitch.ArmedOver;
    ghost var earlier, last, trace := loop.passes, loop.lastAttempt, h.trace;
    ghost var k;
    k := loop.Step(h, between[n], looks[n], usual);
    held' := held + [k];
    KillSwitch.ArmedIsGuarding(h.fw, old(h.fw), loop.c.clients, loop.c.lan);
    KillSwitch.ArmedIsGuarding(old(h.fw), old(h.fw), loop.c.clients, loop.c.lan);
    OneLoggedMore(held, ready, looks, earlier, loop.c.staleAfter, trace, k, loop.Latest(), last, h.trace);
    if usual {
      KeptNext(held, ready, earlier, between, loop.c, k, loop.Latest(), last);
      OneMore(held, ready, earlier, between, loop.c, k, loop.Latest());
    }
  }

  method RunPasses(h: Host, loop: RunLoop, looks: seq<Look>, between: seq<seq<Deletion>>, ghost usual: bool)
    returns (ghost held: seq<Held>)
    requires h.Valid() && loop.block.Blocks() && |between| == |looks|
    requires loop.passes == [] && loop.Remembers()
    requires usual ==> h.rtSteady && loop.Knows(h) && forall i :: 0 <= i < |looks| ==> Manageable(loop.c, looks[i])
    modifies h, loop, loop.block
    ensures h.Advanced() && loop.block.Blocks()
    ensures h.Truthful() && old(loop.Armed(h)) ==> h.FwKept() && loop.Armed(h)
    ensures h.fwSteady && old(loop.block.Fits(h.fw.caps)) && looks != [] ==> KillSwitch.Guarding(h.fw, loop.c.clients)
    ensures |loop.passes| == |held| == |looks| && loop.Remembers()
    ensures AllLogged(held, old(h.Present()), looks, loop.passes, loop.c.staleAfter, h.trace)
    ensures Before(held, old(h.Present()), |held|) == h.Present()
    ensures usual ==> Steadfast(held, old(h.Present()), loop.passes, between, loop.c)
  {
    hide Steadfast, AllLogged, Manageable, Consistent, KillSwitch.Armed, KillSwitch.Guarding, Log, Remember, Holding;
    ghost var ready := h.Present();
    AtStart(ready, looks, between, loop.c, h.trace);
    held := [];
    ghost var calm := h.Truthful() && loop.Armed(h);
    for i := 0 to |looks|
      invariant h.Advanced() && loop.block.Blocks() && loop.Remembers()
      invariant calm ==> loop.Armed(h) && h.FwKept()
      invariant h.fwSteady && old(loop.block.Fits(h.fw.caps)) ==>
          loop.block.Fits(h.fw.caps) && (i > 0 ==> KillSwitch.Guarding(h.fw, loop.c.clients))
      invariant |loop.passes| == |held| == i
      invariant AllLogged(held, ready, looks, loop.passes, loop.c.staleAfter, h.trace)
      invariant Before(held, ready, i) == h.Present()
      invariant usual ==> loop.Knows(h)
      invariant usual ==> Steadfast(held, ready, loop.passes, between, loop.c)
      invariant usual && i > 0 ==> loop.known == held[i - 1] && loop.Resting(h)
    {
      held := Next(h, loop, held, ready, looks, between, i, usual);
    }
  }

  /** A run of passes, with deletions before each. On any machine the interface
      commands are those of the recovery log. On an undisturbed one every pass
      reads the tunnels the machine then has, recovers and moves nothing else
      before it plans; after it the kernel routes by the plan for the tunnels it
      read; and a pass that finds nothing deleted, nothing to recover and the
      same routing wanted issues no command at all. While both checks of the kill
      switch pass, the firewall does not move; and after any pass the catch-all is
      there. */
  method Run(h: Host, loop: RunLoop, looks: seq<Look>, between: seq<seq<Deletion>>) returns (ghost held: seq<Held>)
    requires h.Valid() && loop.block.Blocks() && |between| == |looks|
    requires loop.passes == [] && loop.lastAttempt == map[] && loop.lastSig == ""
    modifies h, loop, loop.block
    ensures h.Advanced() && loop.block.Blocks()
    ensures h.Truthful() && old(loop.Armed(h)) ==> h.FwKept() && loop.Armed(h)
    ensures h.fwSteady && old(loop.block.Fits(h.fw.caps)) && looks != [] ==> KillSwitch.Guarding(h.fw, loop.c.clients)
    ensures |loop.passes| == |held| == |looks| && loop.Remembers()
    ensures AllLogged(held, old(h.Present()), looks, loop.passes, loop.c.staleAfter, h.trace)
    ensures Before(held, old(h.Present()), |held|) == h.Present()
    ensures LinksOf(h.issued) == LinksOf(old(h.issued)) + CommandLog(Log(loop.passes, loop.c.staleAfter))
    ensures h.rtSteady && old(Clean(h.rt)) && AllManageable(loop.c, looks) ==>
        Steadfast(held, old(h.Present()), loop.passes, between, loop.c)
  {
    ghost var usual := h.rtSteady && Clean(h.rt) && AllManageable(loop.c, looks);
    if usual {
      assert forall i :: 0 <= i < |looks| ==> looks[i] in looks;
    }
    hide Steadfast, AllLogged, Manageable, KillSwitch.Armed, KillSwitch.Guarding, Log, Remember, LinksOf, CommandLog;
    ghost var ready := h.Present();
    held := RunPasses(h, loop, looks, between, usual);
    InterfaceCommands(held, ready, looks, loop.passes, loop.c.staleAfter, h.trace, |held|);
    assert loop.passes[..|held|] == loop.passes;
  }

  /** Starts every tunnel that is down, each with one command, and moves nothing else. */
  method BringUp(h: Host, tunnels: seq<(string, int)>) returns (ghost ts: seq<Tunnel>)
    requires h.Valid()
    modifies h
    ensures h.FwKept()
    ensures Reads(ts, tunnels)
    ensures h.rtSteady ==> LinksShow(ts, old(h.rt))
    ensures h.rtSteady ==> Touched(h.rt, old(h.rt), DownNames(ts))
    ensures h.issued == old(h.issued) + Starts(ts)
  {
    hide Touched, Starts, DownNames, Reads, LinksShow;
    var seen := ReadTunnels(h, tunnels);
    ts := seen;
    ghost var was := old(h.rt);
    NoStarts();
    TouchedReflexive(was, {});
    for i := 0 to |seen|
      invariant h.FwKept()
      invariant h.rtSteady ==> Touched(h.rt, was, DownNames(seen[..i]))
      invariant h.issued == old(h.issued) + Starts(seen[..i])
    {
      OneStartMore(seen, i);
      if !seen[i].up {
        ghost var mid := h.rt;
        var _ := Act(h, seen[i], Start);
        if h.rtSteady {
          TouchedCompose(h.rt, mid, was, DownNames(seen[..i]), seen[i].name);
        }
      }
    }
    assert seen[..|seen|] == seen;
  }

  /** Between the two states the daemon brought its tunnels up: it read them in the
      first, and moved nothing but those that were down. */
  ghost predicate BroughtUp(armed: Routing, ready: Routing, ts: seq<Tunnel>)
  {
    LinksShow(ts, armed) && Touched(ready, armed, DownNames(ts))
  }

  /** What follows once the machine is armed: the tunnels, then the passes. */
  method Serve(h: Host, loop: RunLoop, tunnels: seq<(string, int)>, looks: seq<Look>, between: seq<seq<Deletion>>)
    returns (ghost ts: seq<Tunnel>, ghost ready: Moment, ghost held: seq<Held>)
    requires h.Valid() && loop.block.Blocks() && |between| == |looks|
    requires loop.passes == [] && loop.lastAttempt == map[] && loop.lastSig == ""
    modifies h, loop, loop.block
    ensures h.Advanced()
    ensures h.Truthful() && old(loop.Armed(h)) ==> h.FwKept()
    ensures |held| == |looks| == |loop.passes| && Before(held, ready, |held|) == h.Present()
    ensures AllLogged(held, ready, looks, loop.passes, loop.c.staleAfter, h.trace)
    ensures LinksOf(h.issued)
         == LinksOf(old(h.issued)) + Starts(ts) + CommandLog(Log(loop.passes, loop.c.staleAfter))
    ensures old(h.Present()).at <= ready.at && OnTrace(ready, h.trace) && ready.issued == old(h.issued) + Starts(ts)
    ensures Reads(ts, tunnels)
    ensures h.rtSteady ==> BroughtUp(old(h.rt), ready.rt, ts)
    ensures h.rtSteady && old(Clean(h.rt)) && AllManageable(loop.c, looks) ==>
        Steadfast(held, ready, loop.passes, between, loop.c)
  {
    hide KillSwitch.Armed, Steadfast, AllLogged, AllManageable, Log, Remember, Sorted, Flushable, Starts, DownNames, Reads;
    hide LinksShow, LinksOf, CommandLog;
    ghost var start, sofar := h.rt, h.issued;
    ts := BringUp(h, tunnels);
    StartsAreLinks(ts);
    LinksOfConcat(sofar, Starts(ts));
    if h.rtSteady && Clean(start) {
      SubsequenceSorted(h.rt.rules, start.rules);
      DeletedStaysFlushable(h.rt.rules, start.rules);
    }
    ready := h.Present();
    held := Run(h, loop, looks, between);
  }

  /** Everything the daemon does before it touches a tunnel: the gate on the files
      of the tunnels it runs, the kill switch, and the two translations whose commands are not
      modelled. */
  method ArmFirst(h: Host, loop: RunLoop, files: seq<Option<string>>, translated: bool, redirected: bool)
    returns (ok: bool, ghost armedAt: nat)
    requires h.Valid() && !loop.block.once
    modifies h, loop.block
    ensures h.Advanced() && h.issued == old(h.issued) && (h.rtSteady ==> h.rt == old(h.rt))
    ensures loop.block.Blocks() && (!GatePasses(files) ==> !ok && h.trace == old(h.trace))
    ensures h.fwSteady ==> (ok <==> GatePasses(files) && translated && redirected && old(KillSwitch.Closable6(h.fw)))
    ensures |old(h.trace)| <= armedAt <= |h.trace| && (ok ==> armedAt < |h.trace| && loop.Armed(h))
    ensures forall i :: |old(h.trace)| <= i < armedAt ==> KillSwitch.NothingNew(h.trace[i].fw, old(h.fw))
    ensures old(KillSwitch.JumpFirst(h.fw)) ==>
        forall i :: armedAt <= i < |h.trace| ==> Purge.Shut(h.trace[i].fw, loop.c.clients, loop.c.lan)
    ensures ok && old(KillSwitch.JumpFirst(h.fw)) ==> Purge.Shut(h.fw, loop.c.clients, loop.c.lan)
    ensures h.fwSteady && GatePasses(files) && old(Chain.Hooked(h.fw)) ==>
        KillSwitch.Rearming(h.trace, |old(h.trace)|, armedAt, old(h.fw), loop.c.clients, loop.c.lan)
  {
    hide KillSwitch.Armed, KillSwitch.ArmedOver, KillSwitch.Closed6, KillSwitch.NothingNew, KillSwitch.Rearming;
    hide KillSwitch.JumpFirst, KillSwitch.Has6, KillSwitch.WithChain, KillSwitch.Closable6, Purge.Shut;
    armedAt := |h.trace|;
    var fatal, _ := CheckTunnelConfigs(files);
    if fatal != [] {
      return false, armedAt;
    }
    ok, armedAt := KillSwitch.ApplyKillSwitch(h, loop.block, loop.c.clients, loop.c.lan);
    ok := ok && translated && redirected;
  }

  /** The daemon from its start. Nothing is routed and no tunnel is started before
      the kill switch is armed; from the first rule it inserts on, every state the
      machine passes through lets client traffic out by a tunnel or not at all,
      as long as the firewall's checks are answered truthfully. A restart over
      an armed machine opens it exactly when the foreign rules do. */
  method CmdRun(
    h: Host, loop: RunLoop, files: seq<Option<string>>, translated: bool, redirected: bool, tunnels: seq<(string, int)>,
    looks: seq<Look>, between: seq<seq<Deletion>>)
    returns (code: int, ghost armedAt: nat, ghost armed: Moment, ghost ts: seq<Tunnel>, ghost ready: Moment, ghost held: seq<Held>)
    requires h.Valid() && !loop.block.once && |between| == |looks|
    requires loop.passes == [] && loop.lastAttempt == map[] && loop.lastSig == ""
    modifies h, loop, loop.block
    ensures h.Advanced() && code in {0, 1}
    ensures h.fwSteady ==> (code == 0 <==> GatePasses(files) && translated && redirected && old(KillSwitch.Closable6(h.fw)))
    ensures code == 1 ==> h.issued == old(h.issued) && (h.rtSteady ==> h.rt == old(h.rt))
    ensures !GatePasses(files) ==> code == 1 && h.trace == old(h.trace)
    ensures |old(h.trace)| <= armedAt <= |h.trace| && (code == 0 ==> armedAt < |h.trace|)
    ensures forall i :: |old(h.trace)| <= i < armedAt ==> KillSwitch.NothingNew(h.trace[i].fw, old(h.fw))
    ensures forall i :: |old(h.trace)| <= i <= armedAt < |h.trace| ==> |h.trace[i].issued| == |old(h.issued)|
    ensures h.Truthful() && old(KillSwitch.JumpFirst(h.fw)) ==>
        forall i :: armedAt <= i < |h.trace| ==> Purge.Shut(h.trace[i].fw, loop.c.clients, loop.c.lan)
    ensures h.fwSteady && GatePasses(files) && old(KillSwitch.ArmedMachine(h.fw, loop.c.clients, loop.c.lan)) ==>
        KillSwitch.Reopened(h.trace, |old(h.trace)|, old(h.fw), loop.c.clients, loop.c.lan)
    ensures code == 0 ==> |held| == |looks| == |loop.passes| && Before(held, ready, |held|) == h.Present()
    ensures code == 0 ==> AllLogged(held, ready, looks, loop.passes, loop.c.staleAfter, h.trace)
    ensures code == 0 ==>
        LinksOf(h.issued) == LinksOf(old(h.issued)) + Starts(ts) + CommandLog(Log(loop.passes, loop.c.staleAfter))
    ensures code == 0 ==> OnTrace(armed, h.trace) && armedAt <= armed.at <= ready.at && OnTrace(ready, h.trace)
    ensures code == 0 ==> armed.issued == old(h.issued) && ready.issued == armed.issued + Starts(ts) && Reads(ts, tunnels)
    ensures code == 0 && h.rtSteady ==> armed.rt == old(h.rt) && BroughtUp(armed.rt, ready.rt, ts)
    ensures code == 0 && h.rtSteady && old(Clean(h.rt)) && AllManageable(loop.c, looks) ==>
        Steadfast(held, ready, loop.passes, between, loop.c)
  {
    hide KillSwitch.Armed, KillSwitch.NothingNew, KillSwitch.Reopened, KillSwitch.ArmedMachine, KillSwitch.Rearming;
    hide KillSwitch.JumpFirst, KillSwitch.Closable6, Purge.Shut, Steadfast, AllLogged, AllManageable, Clean, BroughtUp;
    hide Chain.Hooked, LinksOf, CommandLog, Starts, Log, Reads;
    ghost var was, first, c := h.fw, |h.trace|, loop.c;
    if KillSwitch.ArmedMachine(was, c.clients, c.lan) {
      KillSwitch.MachineHooked(was, c.clients, c.lan);
    }
    held, ts, armed, ready := [], [], h.Present(), h.Present();
    var ok;
    ok, armedAt := ArmFirst(h, loop, files, translated, redirected);
    ghost var sofar := h.trace;
    code := 1;
    if ok {
      armed := h.Present();
      ts, ready, held := Serve(h, loop, tunnels, looks, between);
      code := 0;
    }
    if h.fwSteady && GatePasses(files) && KillSwitch.ArmedMachine(was, c.clients, c.lan) {
      KillSwitch.RearmingGrows(sofar, h.trace, first, armedAt, was, c.clients, c.lan);
      KillSwitch.RearmingReopens(h.trace, first, armedAt, was, c.clients, c.lan);
    }
  }
}
