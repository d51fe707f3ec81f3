/** Recovery over whole runs: which tunnels are started or cycled, and when. */
module Recovery {
  import opened Prelude
  import opened Tunnels

  datatype Attempt = Attempt(name: string, at: int, action: Action)

  type Memory = map<string, int>

  /** How long since a tunnel was last touched; one never touched has no backoff to serve. */
  function Since(last: Memory, name: string, now: int): int
  {
    if name in last then now - last[name] else 2 * CycleBackoff
  }

  /** One pass over the tunnels, in order: what is attempted, and the memory left behind. */
  function Attempts(last: Memory, ts: seq<Tunnel>, staleAfter: int, now: int): seq<Attempt>
    decreases |ts|
  {
    if ts == [] then []
    else
      var a := RecoveryAction(ts[0], staleAfter, Since(last, ts[0].name, now));
      if a == Leave then Attempts(last, ts[1..], staleAfter, now)
      else [Attempt(ts[0].name, now, a)] + Attempts(last[ts[0].name := now], ts[1..], staleAfter, now)
  }

  /** The memory after a list of attempts. */
  function Remember(last: Memory, done: seq<Attempt>): Memory
    decreases |done|
  {
    if done == [] then last else Remember(last[done[0].name := done[0].at], done[1..])
  }

  datatype Pass = Pass(now: int, tunnels: seq<Tunnel>)

  /** Everything attempted in a run of passes that starts with nothing touched. */
  function Log(passes: seq<Pass>, staleAfter: int): (log: seq<Attempt>)
  {
    if passes == [] then []
    else
      var before := Log(passes[..|passes| - 1], staleAfter);
      var p := passes[|passes| - 1];
      before + Attempts(Remember(map[], before), p.tunnels, staleAfter, p.now)
  }

  lemma {:induction false} RememberConcat(last: Memory, a: seq<Attempt>, b: seq<Attempt>)
    ensures Remember(last, a + b) == Remember(Remember(last, a), b)
    decreases |a|
  {
    if a == [] {
      assert a + b == b;
    } else {
      assert (a + b)[1..] == a[1..] + b;
      RememberConcat(last[a[0].name := a[0].at], a[1..], b);
    }
  }

  /** Nothing in the log is later than the memory of its tunnel. */
  ghost predicate Tracks(last: Memory, log: seq<Attempt>)
  {
    forall i :: 0 <= i < |log| ==> log[i].name in last && log[i].at <= last[log[i].name]
  }

  /** Two attempts on one tunnel keep a minute apart, and a restart comes at
      least five minutes after anything earlier. */
  ghost predicate Spaced(log: seq<Attempt>)
  {
    forall i, j :: 0 <= i < j < |log| && log[i].name == log[j].name ==>
      && log[j].at - log[i].at >= 60_000_000_000
      && (log[j].action == Restart ==> log[j].at - log[i].at >= 300_000_000_000)
  }

  lemma AttemptKeepsSpacing(last: Memory, log: seq<Attempt>, t: Tunnel, staleAfter: int, now: int)
    requires Tracks(last, log) && Spaced(log)
    requires RecoveryAction(t, staleAfter, Since(last, t.name, now)) != Leave
    ensures var x := Attempt(t.name, now, RecoveryAction(t, staleAfter, Since(last, t.name, now)));
      Tracks(last[t.name := now], log + [x]) && Spaced(log + [x])
  {
  }

  lemma {:induction false} PassKeepsSpacing(last: Memory, log: seq<Attempt>, ts: seq<Tunnel>, staleAfter: int, now: int)
    requires Tracks(last, log) && Spaced(log)
    ensures Tracks(Remember(last, Attempts(last, ts, staleAfter, now)), log + Attempts(last, ts, staleAfter, now))
    ensures Spaced(log + Attempts(last, ts, staleAfter, now))
    decreases |ts|
  {
    if ts == [] {
      assert log + [] == log;
    } else {
      var t := ts[0];
      var a := RecoveryAction(t, staleAfter, Since(last, t.name, now));
      if a == Leave {
        PassKeepsSpacing(last, log, ts[1..], staleAfter, now);
      } else {
        var x := Attempt(t.name, now, a);
        var last' := last[t.name := now];
        AttemptKeepsSpacing(last, log, t, staleAfter, now);
        PassKeepsSpacing(last', log + [x], ts[1..], staleAfter, now);
        var rest := Attempts(last', ts[1..], staleAfter, now);
        assert log + ([x] + rest) == (log + [x]) + rest;
        assert ([x] + rest)[1..] == rest;
        assert Remember(last, [x] + rest) == Remember(last', rest);
      }
    }
  }

  /** Recovery is rate-limited over any run, whatever the pass times do: recorded
      attempts on a tunnel are a minute apart, and a restart is five minutes after
      anything earlier. */
  lemma {:induction false} RunIsSpaced(passes: seq<Pass>, staleAfter: int)
    ensures Spaced(Log(passes, staleAfter))
    ensures Tracks(Remember(map[], Log(passes, staleAfter)), Log(passes, staleAfter))
    decreases |passes|
  {
    if passes != [] {
      var n := |passes| - 1;
      RunIsSpaced(passes[..n], staleAfter);
      var log := Log(passes[..n], staleAfter);
      PassKeepsSpacing(Remember(map[], log), log, passes[n].tunnels, staleAfter, passes[n].now);
      RememberConcat(map[], log, Attempts(Remember(map[], log), passes[n].tunnels, staleAfter, passes[n].now));
    }
  }

  lemma {:induction false} FilterStaysSpaced(log: seq<Attempt>, p: Attempt -> bool)
    requires Spaced(log)
    ensures Spaced(Filter(log, p))
  {
    if log != [] {
      var rest := Filter(log[1..], p);
      assert Spaced(log[1..]);
      FilterStaysSpaced(log[1..], p);
      forall j | 0 <= j < |rest| && rest[j].name == log[0].name
        ensures rest[j].at - log[0].at >= 60_000_000_000
        ensures rest[j].action == Restart ==> rest[j].at - log[0].at >= 300_000_000_000
      {
        assert rest[j] in rest;
        var k :| 0 <= k < |log[1..]| && log[1..][k] == rest[j];
        assert log[k + 1] == rest[j];
      }
      if p(log[0]) {
        assert Filter(log, p) == [log[0]] + rest;
      } else {
        assert Filter(log, p) == rest;
      }
    }
  }

  /** The attempts on one tunnel inside a window, oldest first. */
  function Within(log: seq<Attempt>, name: string, from: int, width: nat): seq<Attempt>
  {
    Filter(log, (a: Attempt) => a.name == name && from <= a.at <= from + width)
  }

  function RestartsWithin(log: seq<Attempt>, name: string, from: int, width: nat): seq<Attempt>
  {
    Filter(log, (a: Attempt) => a.name == name && from <= a.at <= from + width && a.action == Restart)
  }

  lemma {:induction false} LastIsFar(hits: seq<Attempt>, gap: int, k: nat)
    requires k < |hits|
    requires forall i, j :: 0 <= i < j < |hits| ==> hits[j].at - hits[i].at >= gap
    ensures hits[k].at - hits[0].at >= k * gap
  {
    if k > 0 {
      LastIsFar(hits, gap, k - 1);
      assert k * gap == (k - 1) * gap + gap;
    }
  }

  lemma SpacedCount(hits: seq<Attempt>, gap: int, from: int, width: nat)
    requires gap > 0
    requires forall a :: a in hits ==> from <= a.at <= from + width
    requires forall i, j :: 0 <= i < j < |hits| ==> hits[j].at - hits[i].at >= gap
    ensures |hits| <= width / gap + 1
  {
    if hits != [] {
      var k := |hits| - 1;
      LastIsFar(hits, gap, k);
      assert hits[0] in hits && hits[k] in hits;
      MultipleFits(k, gap, width);
    }
  }

  lemma MultipleFits(k: nat, gap: int, width: nat)
    requires gap > 0 && k * gap <= width
    ensures k <= width / gap
  {
    var q := width / gap;
    var d := k - q - 1;
    assert width == q * gap + width % gap;
    assert k * gap == q * gap + gap + d * gap;
    if d >= 0 {
      TimesNonNegative(d, gap);
    }
  }

  lemma TimesNonNegative(d: nat, gap: int)
    requires gap > 0
    ensures d * gap >= 0
  {
  }

  /** In any window of a run a tunnel is touched at most width/60s + 1 times and
      cycled at most width/300s + 1 times. */
  lemma WindowBound(passes: seq<Pass>, staleAfter: int, name: string, from: int, width: nat)
    ensures |Within(Log(passes, staleAfter), name, from, width)| <= width / 60_000_000_000 + 1
    ensures |RestartsWithin(Log(passes, staleAfter), name, from, width)| <= width / 300_000_000_000 + 1
  {
    RunIsSpaced(passes, staleAfter);
    var log := Log(passes, staleAfter);
    FilterStaysSpaced(log, (a: Attempt) => a.name == name && from <= a.at <= from + width);
    FilterStaysSpaced(log, (a: Attempt) => a.name == name && from <= a.at <= from + width && a.action == Restart);
    var hits, cycles := Within(log, name, from, width), RestartsWithin(log, name, from, width);
    SpacedCount(hits, StartBackoff, from, width) by {
      assert forall i :: 0 <= i < |hits| ==> hits[i] in hits;
    }
    SpacedCount(cycles, CycleBackoff, from, width) by {
      assert forall i :: 0 <= i < |cycles| ==> cycles[i] in cycles;
    }
  }

  /** The tunnel is configured and seen down in this pass. */
  ghost predicate SeenDown(ts: seq<Tunnel>, name: string)
  {
    && (exists t :: t in ts && t.name == name)
    && (forall t :: t in ts && t.name == name ==> !t.up)
  }

  lemma {:induction false} OthersLeaveMemory(last: Memory, ts: seq<Tunnel>, name: string, staleAfter: int, now: int)
    requires forall t :: t in ts && t.name == name ==> !t.up
    requires name in last && now - last[name] < StartBackoff
    ensures var last' := Remember(last, Attempts(last, ts, staleAfter, now)); name in last' && last'[name] == last[name]
    ensures forall x :: x in Attempts(last, ts, staleAfter, now) ==> x.name != name
    decreases |ts|
  {
    if ts != [] {
      var t := ts[0];
      if RecoveryAction(t, staleAfter, Since(last, t.name, now)) == Leave {
        OthersLeaveMemory(last, ts[1..], name, staleAfter, now);
      } else {
        assert t.name != name;
        OthersLeaveMemory(last[t.name := now], ts[1..], name, staleAfter, now);
      }
    }
  }

  lemma {:induction false} DownIsStarted(last: Memory, ts: seq<Tunnel>, name: string, staleAfter: int, now: int)
    requires SeenDown(ts, name)
    requires Rested(last, name, now, 60_000_000_000)
    ensures Attempt(name, now, Start) in Attempts(last, ts, staleAfter, now)
    decreases |ts|
  {
    var t := ts[0];
    if t.name == name {
      assert t in ts;
    } else {
      assert SeenDown(ts[1..], name) by {
        var u :| u in ts && u.name == name;
        assert u in ts[1..];
      }
      var a := RecoveryAction(t, staleAfter, Since(last, t.name, now));
      DownIsStarted(if a == Leave then last else last[t.name := now], ts[1..], name, staleAfter, now);
    }
  }

  /** The memory before pass k. */
  function MemoryAt(passes: seq<Pass>, staleAfter: int, k: nat): Memory
    requires k <= |passes|
  {
    Remember(map[], Log(passes[..k], staleAfter))
  }

  lemma {:induction false} LogPrefix(passes: seq<Pass>, staleAfter: int, k: nat)
    requires k <= |passes|
    ensures Log(passes[..k], staleAfter) <= Log(passes, staleAfter)
    decreases |passes| - k
  {
    if k == |passes| {
      assert passes[..k] == passes;
    } else {
      LogPrefix(passes, staleAfter, k + 1);
      assert passes[..k + 1][..k] == passes[..k];
    }
  }

  lemma PassInLog(passes: seq<Pass>, staleAfter: int, k: nat)
    requires k < |passes|
    ensures var more := Attempts(MemoryAt(passes, staleAfter, k), passes[k].tunnels, staleAfter, passes[k].now);
      && MemoryAt(passes, staleAfter, k + 1) == Remember(MemoryAt(passes, staleAfter, k), more)
      && forall x :: x in more ==> x in Log(passes, staleAfter)
  {
    assert passes[..k + 1][..k] == passes[..k];
    var before := Log(passes[..k], staleAfter);
    var more := Attempts(MemoryAt(passes, staleAfter, k), passes[k].tunnels, staleAfter, passes[k].now);
    RememberConcat(map[], before, more);
    LogPrefix(passes, staleAfter, k + 1);
    forall x | x in more
      ensures x in Log(passes, staleAfter)
    {
      assert x in before + more;
    }
  }

  /** A tunnel last touched at time a and seen down on every pass since is started
      again by a + 60s + d, when passes come at most d apart and go on that long. */
  lemma {:induction false} BoundedResponse(
    passes: seq<Pass>, staleAfter: int, name: string, a: int, d: nat, k: nat, m: nat)
    requires 0 < k <= m < |passes| && passes[m].now >= a + 60_000_000_000
    requires passes[k - 1].now < a + 60_000_000_000
    requires name in MemoryAt(passes, staleAfter, k) && MemoryAt(passes, staleAfter, k)[name] == a
    requires forall j :: k <= j < |passes| ==> passes[j].now <= passes[j - 1].now + d
    requires forall j :: k <= j < |passes| ==> SeenDown(passes[j].tunnels, name)
    ensures exists x :: x in Log(passes, staleAfter) && x.name == name && x.action == Start
                     && a + 60_000_000_000 <= x.at <= a + 60_000_000_000 + d
    decreases m - k
  {
    var p := passes[k];
    PassInLog(passes, staleAfter, k);
    var last := MemoryAt(passes, staleAfter, k);
    if p.now >= a + 60_000_000_000 {
      DownIsStarted(last, p.tunnels, name, staleAfter, p.now);
      assert Attempt(name, p.now, Start) in Log(passes, staleAfter);
    } else {
      OthersLeaveMemory(last, p.tunnels, name, staleAfter, p.now);
      BoundedResponse(passes, staleAfter, name, a, d, k + 1, m);
    }
  }

  /** t is a fair target for attempt x: not live, started exactly when it is down,
      restarted only past two staleness windows or with no handshake ever. */
  predicate FairTarget(t: Tunnel, x: Attempt, staleAfter: int)
  {
    && t.name == x.name && !t.Live(staleAfter)
    && (x.action == Start <==> !t.up)
    && (x.action == Restart ==> t.handshakeAge < 0 || t.handshakeAge * Second > 2 * staleAfter)
  }

  /** Nothing live is ever touched, and a tunnel that is up with a handshake
      between one and two staleness windows old is left alone. */
  lemma {:induction false} NothingLiveIsTouched(last: Memory, ts: seq<Tunnel>, staleAfter: int, now: int)
    ensures forall x :: x in Attempts(last, ts, staleAfter, now) ==>
        x.at == now && exists t :: t in ts && FairTarget(t, x, staleAfter)
    decreases |ts|
  {
    if ts != [] {
      var t := ts[0];
      var a := RecoveryAction(t, staleAfter, Since(last, t.name, now));
      var last' := if a == Leave then last else last[t.name := now];
      NothingLiveIsTouched(last', ts[1..], staleAfter, now);
      forall x | x in Attempts(last, ts, staleAfter, now)
        ensures x.at == now && exists t :: t in ts && FairTarget(t, x, staleAfter)
      {
        if x in Attempts(last', ts[1..], staleAfter, now) {
          var u :| u in ts[1..] && FairTarget(u, x, staleAfter);
          assert u in ts;
        } else {
          assert t in ts && FairTarget(t, x, staleAfter);
        }
      }
    }
  }

  // Exactly which attempts a pass makes

  /** Interface names that occur once. */
  ghost predicate OnceEach(ts: seq<Tunnel>)
  {
    forall i, j :: 0 <= i < j < |ts| ==> ts[i].name != ts[j].name
  }

  /** Up, with no handshake ever or none for two staleness windows. */
  predicate Silent(t: Tunnel, staleAfter: int)
  {
    t.up && (t.handshakeAge < 0 || t.handshakeAge * 1_000_000_000 > 2 * staleAfter)
  }

  /** Never touched, or not for the given time. */
  predicate Rested(last: Memory, name: string, now: int, time: int)
  {
    name in last ==> now - last[name] >= time
  }

  lemma {:induction false} AttemptsAreListed(last: Memory, ts: seq<Tunnel>, staleAfter: int, now: int, x: Attempt)
    requires x in Attempts(last, ts, staleAfter, now)
    ensures exists t :: t in ts && t.name == x.name
  {
    NothingLiveIsTouched(last, ts, staleAfter, now);
    var t :| t in ts && FairTarget(t, x, staleAfter);
  }

  /** For a list in which every name occurs once, one pass makes these attempts and
      no others: a tunnel that is down is started when it was never touched or not
      for a minute, and one that is up and silent is cycled when it was never
      touched or not for five minutes. */
  lemma {:induction false} AttemptsExactly(last: Memory, ts: seq<Tunnel>, staleAfter: int, now: int, t: Tunnel)
    requires OnceEach(ts) && t in ts
    ensures Attempt(t.name, now, Start) in Attempts(last, ts, staleAfter, now)
       <==> !t.up && Rested(last, t.name, now, 60_000_000_000)
    ensures Attempt(t.name, now, Restart) in Attempts(last, ts, staleAfter, now)
       <==> Silent(t, staleAfter) && Rested(last, t.name, now, 300_000_000_000)
    ensures forall x :: x in Attempts(last, ts, staleAfter, now) && x.name == t.name ==> x.action != Leave && x.at == now
    decreases |ts|
  {
    var u, rest := ts[0], ts[1..];
    assert forall i :: 0 <= i < |rest| ==> rest[i] == ts[i + 1];
    var a := RecoveryAction(u, staleAfter, Since(last, u.name, now));
    var last' := if a == Leave then last else last[u.name := now];
    if t == u {
      forall x | x in Attempts(last', rest, staleAfter, now)
        ensures x.name != t.name
      {
        AttemptsAreListed(last', rest, staleAfter, now, x);
      }
    } else {
      assert t in rest;
      AttemptsExactly(last', rest, staleAfter, now, t);
    }
  }

  /** The tunnel is configured and seen up and silent in this pass. */
  ghost predicate SeenSilent(ts: seq<Tunnel>, name: string, staleAfter: int)
  {
    && (exists t :: t in ts && t.name == name)
    && (forall t :: t in ts && t.name == name ==> Silent(t, staleAfter))
  }

  lemma {:induction false} SilentKeepsMemory(last: Memory, ts: seq<Tunnel>, name: string, staleAfter: int, now: int)
    requires forall t :: t in ts && t.name == name ==> Silent(t, staleAfter)
    requires name in last && now - last[name] < 300_000_000_000
    ensures var last' := Remember(last, Attempts(last, ts, staleAfter, now)); name in last' && last'[name] == last[name]
    decreases |ts|
  {
    if ts != [] {
      var t := ts[0];
      if RecoveryAction(t, staleAfter, Since(last, t.name, now)) == Leave {
        SilentKeepsMemory(last, ts[1..], name, staleAfter, now);
      } else {
        assert t.name != name;
        SilentKeepsMemory(last[t.name := now], ts[1..], name, staleAfter, now);
      }
    }
  }

  lemma {:induction false} SilentIsCycled(last: Memory, ts: seq<Tunnel>, name: string, staleAfter: int, now: int)
    requires SeenSilent(ts, name, staleAfter) && Rested(last, name, now, 300_000_000_000)
    ensures Attempt(name, now, Restart) in Attempts(last, ts, staleAfter, now)
    decreases |ts|
  {
    var t := ts[0];
    if t.name == name {
      assert t in ts;
    } else {
      assert SeenSilent(ts[1..], name, staleAfter) by {
        var u :| u in ts && u.name == name;
        assert u in ts[1..];
      }
      var a := RecoveryAction(t, staleAfter, Since(last, t.name, now));
      SilentIsCycled(if a == Leave then last else last[t.name := now], ts[1..], name, staleAfter, now);
    }
  }

  /** A tunnel never touched is cycled on the first pass that sees it up and silent. */
  lemma FirstSilentPass(passes: seq<Pass>, staleAfter: int, name: string, k: nat)
    requires k < |passes| && name !in MemoryAt(passes, staleAfter, k) && SeenSilent(passes[k].tunnels, name, staleAfter)
    ensures Attempt(name, passes[k].now, Restart) in Log(passes, staleAfter)
  {
    PassInLog(passes, staleAfter, k);
    SilentIsCycled(MemoryAt(passes, staleAfter, k), passes[k].tunnels, name, staleAfter, passes[k].now);
  }

  /** And started on the first pass that sees it down. */
  lemma FirstDownPass(passes: seq<Pass>, staleAfter: int, name: string, k: nat)
    requires k < |passes| && name !in MemoryAt(passes, staleAfter, k) && SeenDown(passes[k].tunnels, name)
    ensures Attempt(name, passes[k].now, Start) in Log(passes, staleAfter)
  {
    PassInLog(passes, staleAfter, k);
    DownIsStarted(MemoryAt(passes, staleAfter, k), passes[k].tunnels, name, staleAfter, passes[k].now);
  }

  /** A tunnel last touched at time a and seen up and silent on every pass since is
      cycled by a + 300s + d, when passes come at most d apart and go on that long. */
  lemma {:induction false} SilentResponse(
    passes: seq<Pass>, staleAfter: int, name: string, a: int, d: nat, k: nat, m: nat)
    requires 0 < k <= m < |passes| && passes[m].now >= a + 300_000_000_000
    requires passes[k - 1].now < a + 300_000_000_000
    requires name in MemoryAt(passes, staleAfter, k) && MemoryAt(passes, staleAfter, k)[name] == a
    requires forall j :: k <= j < |passes| ==> passes[j].now <= passes[j - 1].now + d
    requires forall j :: k <= j < |passes| ==> SeenSilent(passes[j].tunnels, name, staleAfter)
    ensures exists x :: x in Log(passes, staleAfter) && x.name == name && x.action == Restart
                     && a + 300_000_000_000 <= x.at <= a + 300_000_000_000 + d
    decreases m - k
  {
    var p := passes[k];
    PassInLog(passes, staleAfter, k);
    var last := MemoryAt(passes, staleAfter, k);
    if p.now >= a + 300_000_000_000 {
      SilentIsCycled(last, p.tunnels, name, staleAfter, p.now);
      assert Attempt(name, p.now, Restart) in Log(passes, staleAfter);
    } else {
      SilentKeepsMemory(last, p.tunnels, name, staleAfter, p.now);
      SilentResponse(passes, staleAfter, name, a, d, k + 1, m);
    }
  }
}
