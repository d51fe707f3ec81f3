/** The machine the daemon drives. Every external command goes through here.

    Between commands the outside world may do anything to the routing unless
    rtSteady, and commands may fail or time out (with or without their effect)
    unless the matching flag says they work. A firewall that is only truthful may
    fail to change but answers the questions it is asked. Nobody but the daemon
    touches the filter table. The trace records every state the machine passes
    through. */
module Hosts {
  import Firewall
  import Routing

  /** One state of the machine, and the routing and interface commands issued by then. */
  datatype Snapshot = Snapshot(fw: Firewall.Firewall, rt: Routing.Routing, issued: seq<Routing.Command>)

  /** A place on the trace, with what it shows of the routing. */
  datatype Moment = Moment(at: nat, rt: Routing.Routing, issued: seq<Routing.Command>)

  /** The firewalls some states show. */
  ghost function Firewalls(trace: seq<Snapshot>): (r: seq<Firewall.Firewall>)
    ensures forall fw :: fw in r <==> exists i :: 0 <= i < |trace| && trace[i].fw == fw
  {
    if trace == [] then [] else Firewalls(trace[..|trace| - 1]) + [trace[|trace| - 1].fw]
  }

  ghost predicate OnTrace(m: Moment, trace: seq<Snapshot>)
  {
    m.at < |trace| && trace[m.at].rt == m.rt && trace[m.at].issued == m.issued
  }

  class Host {
    var fw: Firewall.Firewall
    var rt: Routing.Routing
    ghost var trace: seq<Snapshot>
    ghost var issued: seq<Routing.Command>  // routing and interface commands, in order
    const fwSteady: bool
    const fwTruthful: bool
    const rtSteady: bool

    constructor (fw: Firewall.Firewall, rt: Routing.Routing, fwSteady: bool, fwTruthful: bool, rtSteady: bool)
      ensures this.fw == fw && this.rt == rt && this.rtSteady == rtSteady
      ensures this.fwSteady == fwSteady && this.fwTruthful == fwTruthful
      ensures trace == [Snapshot(fw, rt, [])] && issued == [] && Valid()
    {
      this.fw, this.rt, this.fwSteady, this.fwTruthful, this.rtSteady := fw, rt, fwSteady, fwTruthful, rtSteady;
      trace := [Snapshot(fw, rt, [])];
      issued := [];
    }

    /** The firewall answers truthfully what it is asked. */
    predicate Truthful()
    {
      fwSteady || fwTruthful
    }

    /** Now, as a place on the trace. */
    ghost function Present(): (m: Moment)
      requires Valid()
      reads this
      ensures OnTrace(m, trace)
    {
      Moment(|trace| - 1, rt, issued)
    }

    /** The trace ends in the present. */
    ghost predicate Valid()
      reads this
    {
      trace != [] && trace[|trace| - 1] == Snapshot(fw, rt, issued)
    }

    twostate predicate Advanced()
      reads this
    {
      && Valid() && old(trace) <= trace && old(issued) <= issued
      && forall i :: |old(trace)| <= i < |trace| ==> |old(issued)| <= |trace[i].issued| <= |issued|
    }

    /** The filter table did not change at any moment since. */
    twostate predicate FwKept()
      reads this
    {
      && Advanced()
      && fw == old(fw)
      && forall i :: |old(trace)| <= i < |trace| ==> trace[i].fw == fw
    }

    /** Nothing at all was written: at most the outside world moved. */
    twostate predicate Untouched()
      reads this
    {
      FwKept() && (rtSteady ==> rt == old(rt)) && issued == old(issued)
    }

    /** The outside world moves. */
    method Drift()
      requires Valid()
      modifies this
      ensures Untouched()
    {
      if !rtSteady {
        var moves: seq<Routing.Routing> := *;
        if moves != [] {
          ghost var kept, sofar := fw, issued;
          rt := moves[|moves| - 1];
          trace := trace + seq(|moves|, i requires 0 <= i < |moves| => Snapshot(kept, moves[i], sofar));
        }
      }
    }

    method Iptables(c: Firewall.Command) returns (ok: bool)
      requires Valid()
      modifies this
      ensures Advanced() && |trace| > |old(trace)|
      ensures rtSteady ==> rt == old(rt)
      ensures issued == old(issued)
      ensures fwSteady ==> (fw, ok) == Firewall.Exec(old(fw), c)
      ensures Truthful() && Firewall.IsQuestion(c) ==> (fw, ok) == Firewall.Exec(old(fw), c)
      ensures ok ==> (fw, true) == Firewall.Exec(old(fw), c)
      ensures fw == old(fw) || fw == Firewall.Exec(old(fw), c).0
      ensures forall i :: |old(trace)| <= i < |trace| - 1 ==> trace[i].fw == old(fw)
    {
      Drift();
      var (after, done) := Firewall.Exec(fw, c);
      var works, reported: bool := *, *;
      var sure := fwSteady || (fwTruthful && Firewall.IsQuestion(c));
      if sure || works {
        fw := after;
      }
      ok := done && (sure || (works && reported));
      trace := trace + [Snapshot(fw, rt, issued)];
    }

    /** `iptables -L DOCKER-USER --line-numbers -n`, without the number column. */
    method ListLines() returns (ok: bool, lines: seq<string>)
      requires Valid()
      modifies this
      ensures Untouched()
      ensures fwSteady ==> ok == fw.user.Some?
      ensures ok ==> fw.user.Some? && |lines| == |fw.user.value|
      ensures ok ==> forall i :: 0 <= i < |lines| ==> lines[i] == Firewall.Line(fw.user.value[i])
    {
      Drift();
      var works: bool := *;
      ok := fw.user.Some? && (fwSteady || works);
      lines := [];
      if ok {
        var chain := fw.user.value;
        lines := seq(|chain|, i requires 0 <= i < |chain| => Firewall.Line(chain[i]));
      }
    }

    method Ip(c: Routing.Command) returns (ok: bool)
      requires Valid()
      modifies this
      ensures FwKept() && |trace| > |old(trace)| && issued == old(issued) + [c]
      ensures !Routing.IsLink(c) ==> Routing.LinksOf(issued) == Routing.LinksOf(old(issued))
      ensures rtSteady ==> (rt, ok) == Routing.Exec(old(rt), c)
    {
      Routing.LinksOfSnoc(issued, c);
      Drift();
      var (after, done) := Routing.Exec(rt, c);
      var works, reported: bool := *, *;
      if rtSteady || works {
        rt := after;
      }
      ok := done && (rtSteady || (works && reported));
      issued := issued + [c];
      trace := trace + [Snapshot(fw, rt, issued)];
      Drift();
    }

    /** wg-quick, or wireguard-go: may fail on any machine. */
    method Wg(c: Routing.Command) returns (ok: bool)
      requires Valid()
      modifies this
      ensures FwKept() && issued == old(issued) + [c]
      ensures rtSteady ==> rt == old(rt) || rt == Routing.Exec(old(rt), c).0
      ensures rtSteady && ok ==> (rt, true) == Routing.Exec(old(rt), c)
    {
      Drift();
      var works: bool := *;
      ok := works && Routing.Exec(rt, c).1;
      issued := issued + [c];
      if ok {
        rt := Routing.Exec(rt, c).0;
      }
      trace := trace + [Snapshot(fw, rt, issued)];
      Drift();
    }

    method ShowRules() returns (ok: bool, rules: seq<Routing.PolicyRule>)
      requires Valid()
      modifies this
      ensures Untouched()
      ensures rtSteady ==> ok && rules == rt.rules
      ensures ok ==> rules == old(rt).rules
    {
      var works: bool := *;
      ok, rules := rtSteady || works, rt.rules;
      Drift();
    }

    method ShowTable(t: nat) returns (ok: bool, table: seq<Routing.Route>)
      requires Valid()
      modifies this
      ensures Untouched()
      ensures rtSteady ==> ok && table == Routing.TableOf(rt.tables, t)
      ensures ok ==> table == Routing.TableOf(old(rt).tables, t)
    {
      var works: bool := *;
      ok, table := rtSteady || works, Routing.TableOf(rt.tables, t);
      Drift();
    }

    method LinkShow(name: string) returns (ok: bool)
      requires Valid()
      modifies this
      ensures Untouched()
      ensures rtSteady ==> ok == (name in rt.links)
    {
      var works: bool := *;
      ok := name in rt.links && (rtSteady || works);
      Drift();
    }
  }
}
