/** Starting and stopping interfaces: the commands an action takes, and how far
    their effect reaches. */
module Links {
  import opened Prelude
  import opened Tunnels
  import opened Recovery
  import opened Routing
  import opened Healing

  /** The commands of one action: start it, or stop it and start it. */
  function Steps(a: Action, name: string): seq<Command>
  {
    match a
    case Leave => []
    case Start => [LinkUp(name)]
    case Restart => [LinkDown(name), LinkUp(name)]
  }

  function CommandLog(done: seq<Attempt>): seq<Command>
  {
    if done == [] then [] else CommandLog(done[..|done| - 1]) + Steps(done[|done| - 1].action, done[|done| - 1].name)
  }

  lemma StepsAreLinks(a: Action, name: string)
    ensures LinksOf(Steps(a, name)) == Steps(a, name)
  {
    FilterAll(Steps(a, name), (c: Command) => IsLink(c));
  }

  /** The commands of recovery are interface commands, all of them. */
  lemma {:induction false} CommandLogIsLinks(done: seq<Attempt>)
    ensures LinksOf(CommandLog(done)) == CommandLog(done)
  {
    if done != [] {
      var n := |done| - 1;
      CommandLogIsLinks(done[..n]);
      LinksOfConcat(CommandLog(done[..n]), Steps(done[n].action, done[n].name));
      StepsAreLinks(done[n].action, done[n].name);
    }
  }

  lemma {:induction false} CommandLogConcat(a: seq<Attempt>, b: seq<Attempt>)
    ensures CommandLog(a + b) == CommandLog(a) + CommandLog(b)
    decreases |b|
  {
    hide Steps;
    if b == [] {
      assert a + b == a && CommandLog(a) + [] == CommandLog(a);
    } else {
      var n := |b| - 1;
      CommandLogConcat(a, b[..n]);
      assert (a + b)[..|a + b| - 1] == a + b[..n];
    }
  }

  /** One start for each tunnel that is down. */
  function Starts(ts: seq<Tunnel>): seq<Command>
  {
    if ts == [] then []
    else Starts(ts[..|ts| - 1]) + if ts[|ts| - 1].up then [] else [LinkUp(ts[|ts| - 1].name)]
  }

  ghost function DownNames(ts: seq<Tunnel>): set<string>
  {
    set t | t in ts && !t.up :: t.name
  }

  /** One command for exactly the tunnels that are down. */
  lemma {:induction false} StartsExactly(ts: seq<Tunnel>)
    ensures |Starts(ts)| == |Filter(ts, (t: Tunnel) => !t.up)|
    ensures forall i :: 0 <= i < |Starts(ts)| ==> Starts(ts)[i] == LinkUp(Filter(ts, (t: Tunnel) => !t.up)[i].name)
  {
    if ts != [] {
      var before, t := ts[..|ts| - 1], ts[|ts| - 1];
      StartsExactly(before);
      FilterConcat(before, [t], (t: Tunnel) => !t.up);
      assert ts == before + [t];
    }
  }

  lemma NoLinksInNothing()
    ensures LinksOf([]) == []
  {
  }

  lemma {:induction false} StartsAreLinks(ts: seq<Tunnel>)
    ensures LinksOf(Starts(ts)) == Starts(ts)
  {
    hide LinksOf;
    NoLinksInNothing();
    if ts != [] {
      var n := |ts| - 1;
      StartsAreLinks(ts[..n]);
      LinksOfSnoc(Starts(ts[..n]), LinkUp(ts[n].name));
      assert Starts(ts[..n]) + [] == Starts(ts[..n]);
    }
  }

  lemma NoStarts()
    ensures Starts([]) == [] && DownNames([]) == {}
  {
  }

  lemma OneStartMore(ts: seq<Tunnel>, i: nat)
    requires i < |ts|
    ensures Starts(ts[..i + 1]) == Starts(ts[..i]) + if ts[i].up then [] else [LinkUp(ts[i].name)]
    ensures DownNames(ts[..i + 1]) == if ts[i].up then DownNames(ts[..i]) else DownNames(ts[..i]) + {ts[i].name}
  {
    assert ts[..i + 1] == ts[..i] + [ts[i]];
    assert ts[..i + 1][..i] == ts[..i];
  }

  ghost function NamesOf(done: seq<Attempt>): set<string>
  {
    set x | x in done :: x.name
  }

  /** The routes that use none of the named interfaces. */
  ghost function Spared(table: seq<Route>, names: set<string>): seq<Route>
  {
    Filter(table, (r: Route) => forall d :: d in r.devs ==> d !in names)
  }

  /** Routes were at most deleted, and outside the named interfaces nothing
      changed at all: no rule, no link, no route that uses none of them. */
  ghost predicate Touched(now: Routing, was: Routing, names: set<string>)
  {
    && Deleted(now, was)
    && now.rules == was.rules
    && (forall n :: n !in names ==> (n in now.links <==> n in was.links))
    && forall t: nat {:trigger TableOf(now.tables, t)} ::
         Spared(TableOf(now.tables, t), names) == Spared(TableOf(was.tables, t), names)
  }

  lemma {:induction false} FilterTwice<T(!new)>(s: seq<T>, p: T -> bool, q: T -> bool)
    requires forall x :: x in s && q(x) ==> p(x)
    ensures Filter(Filter(s, p), q) == Filter(s, q)
  {
    if s != [] {
      assert s[0] in s && forall x :: x in s[1..] ==> x in s;
      FilterTwice(s[1..], p, q);
      if p(s[0]) {
        assert Filter(s, p)[1..] == Filter(s[1..], p);
      } else {
        assert Filter(s, p) == Filter(s[1..], p);
      }
    }
  }

  lemma SparedMore(table: seq<Route>, names: set<string>, more: set<string>)
    requires names <= more
    ensures Spared(Spared(table, names), more) == Spared(table, more)
  {
    FilterTwice(table, (r: Route) => forall d :: d in r.devs ==> d !in names, (r: Route) => forall d :: d in r.devs ==> d !in more);
  }

  lemma TouchedReflexive(rt: Routing, names: set<string>)
    ensures Touched(rt, rt, names)
  {
    DeletedReflexive(rt);
  }

  lemma TouchedMore(now: Routing, was: Routing, names: set<string>, more: set<string>)
    requires Touched(now, was, names) && names <= more
    ensures Touched(now, was, more)
  {
    hide Deleted, Spared;
    forall t: nat
      ensures Spared(TableOf(now.tables, t), more) == Spared(TableOf(was.tables, t), more)
    {
      assert Spared(TableOf(now.tables, t), names) == Spared(TableOf(was.tables, t), names);
      SparedMore(TableOf(now.tables, t), names, more);
      SparedMore(TableOf(was.tables, t), names, more);
    }
  }

  lemma TouchedTransitive(a: Routing, b: Routing, c: Routing, names: set<string>)
    requires Touched(a, b, names) && Touched(b, c, names)
    ensures Touched(a, c, names)
  {
    hide Deleted, Spared;
    DeletedTransitive(a, b, c);
    forall t: nat
      ensures Spared(TableOf(a.tables, t), names) == Spared(TableOf(c.tables, t), names)
    {
      assert Spared(TableOf(a.tables, t), names) == Spared(TableOf(b.tables, t), names);
      assert Spared(TableOf(b.tables, t), names) == Spared(TableOf(c.tables, t), names);
    }
  }

  lemma TouchedCompose(a: Routing, b: Routing, c: Routing, names: set<string>, name: string)
    requires Touched(a, b, {name}) && Touched(b, c, names)
    ensures Touched(a, c, names + {name})
  {
    hide Touched;
    TouchedMore(a, b, {name}, names + {name});
    TouchedMore(b, c, names, names + {name});
    TouchedTransitive(a, b, c, names + {name});
  }

  lemma {:induction false} SparedUnplugged(table: seq<Route>, name: string)
    ensures Spared(Unplugged(table, name), {name}) == Spared(table, {name})
  {
    if table != [] {
      SparedUnplugged(table[1..], name);
      if name !in table[0].devs {
        assert Unplugged(table, name)[1..] == Unplugged(table[1..], name);
      } else {
        assert Unplugged(table, name) == Unplugged(table[1..], name);
      }
    }
  }

  /** One command on one interface. */
  lemma LinkTouches(rt: Routing, c: Command, name: string)
    requires c == LinkUp(name) || c == LinkDown(name)
    ensures Touched(Exec(rt, c).0, rt, {name})
  {
    LinksOnlyDelete(rt, c);
    var after := Exec(rt, c).0;
    hide Deleted;
    forall t: nat
      ensures Spared(TableOf(after.tables, t), {name}) == Spared(TableOf(rt.tables, t), {name})
    {
      if c.LinkDown? && name in rt.links && t in rt.tables {
        SparedUnplugged(rt.tables[t], name);
      }
    }
  }

  /** Recovery spares what is live: an interface whose every tunnel is live is not
      among the names it acts on. */
  lemma LiveIsSpared(last: Memory, ts: seq<Tunnel>, staleAfter: int, now: int, name: string)
    requires forall t :: t in ts && t.name == name ==> t.Live(staleAfter)
    ensures name !in NamesOf(Attempts(last, ts, staleAfter, now))
  {
    NothingLiveIsTouched(last, ts, staleAfter, now);
  }

  /** So its interface and every route over live interfaces alone come through recovery. */
  lemma LiveComesThrough(
    now: Routing, was: Routing, last: Memory, ts: seq<Tunnel>, staleAfter: int, at: int, r: Route, table: nat)
    requires Touched(now, was, NamesOf(Attempts(last, ts, staleAfter, at)))
    requires forall t :: t in ts && t.name in r.devs ==> t.Live(staleAfter)
    ensures forall d :: d in r.devs ==> (d in now.links <==> d in was.links)
    ensures r in TableOf(now.tables, table) <==> r in TableOf(was.tables, table)
  {
    hide Deleted;
    var names := NamesOf(Attempts(last, ts, staleAfter, at));
    forall d | d in r.devs
      ensures d !in names
    {
      LiveIsSpared(last, ts, staleAfter, at, d);
    }
    assert Spared(TableOf(now.tables, table), names) == Spared(TableOf(was.tables, table), names);
    assert r in TableOf(now.tables, table) <==> r in Spared(TableOf(now.tables, table), names);
  }
}
