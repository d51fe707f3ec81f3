/** Arming, checking and repairing the kill switch, command by command. */
module KillSwitch {
  import opened Prelude
  import opened Net
  import opened Decimal
  import opened Text
  import opened Firewall
  import opened Chain
  import opened Purge
  import opened Hosts

  /** How traffic is refused on this machine; probed once and kept. */
  class BlockAction {
    var once: bool
    var target: Target

    constructor ()
      ensures !once
    {
      once, target := false, Reject;
    }

    predicate Blocks()
      reads this
    {
      once ==> target != Accept
    }

    /** The kept answer is what the machine can do. */
    predicate Fits(caps: Caps)
      reads this
    {
      once ==> target == Refusal(caps)
    }
  }

  function Refusal(caps: Caps): (t: Target)
    ensures t != Accept && CanTarget4(caps, t)
  {
    if caps.reject4 then Reject else Drop
  }

  method RejectArgs(h: Host, b: BlockAction) returns (t: Target)
    requires h.Valid() && b.Blocks()
    modifies h, b
    ensures h.Untouched()
    ensures b.once && t == b.target && t != Accept
    ensures old(b.once) ==> t == old(b.target)
    ensures h.fwSteady && old(b.Fits(h.fw.caps)) ==> b.Fits(h.fw.caps)
    ensures h.fwSteady && !old(b.once) ==> t == if h.fw.caps.reject4 then Reject else Drop
  {
    if b.once {
      return b.target;
    }
    b.once := true;
    b.target := Reject;
    var made := h.Iptables(NewProbe);
    if !made {
      return b.target;
    }
    var ok := h.Iptables(TryProbe(Reject));
    if !ok {
      b.target := Drop;
    }
    return b.target;
  }

  /** The jump, where there is one, comes first. */
  predicate JumpFirst(fw: Firewall)
  {
    Jump in fw.forward ==> fw.forward[0] == Jump
  }

  function WithChain(fw: Firewall): Firewall
  {
    fw.(user := if fw.user.Some? then fw.user else Some([]),
        forward := if Jump in fw.forward then fw.forward else [Jump] + fw.forward)
  }

  /** Behind a guarded chain, with anybody's rules in FORWARD, nothing escapes
      exactly when the jump comes first: a rule above it may accept anything. */
  lemma JumpDecides(fw: Firewall, clients: Cidr, lan: Cidr, p: Packet, dev: string)
    requires Unknowns(fw.forward) && fw.user.Some? && Guarded(fw.user.value, clients, lan)
    requires Outbound(p, clients, lan) && !IsTunnel(dev)
    ensures FailClosed(fw, clients, lan) <==> Hooked(fw)
  {
    if Hooked(fw) {
      GuardedFailsClosed(fw, clients, lan);
    } else if fw.forward == [] {
      assert ForwardVerdict(fw, p, dev, PassAll()) == Passed;
    } else {
      assert fw.forward[0] in fw.forward && fw.forward[0].Foreign?;
      var others: Others := (id, p, dev) => Accepted;
      assert ChainVerdict([fw.forward[0]], p, dev, others) == Accepted;
      assert ForwardVerdict(fw, p, dev, others) == Accepted;
    }
  }

  /** Checking that the jump exists is not checking where it is: once the chain is
      ensured and guarded, nothing escapes exactly when no jump was already
      buried below somebody else's rule. */
  lemma EnsureChainHooks(fw: Firewall, was: Firewall, clients: Cidr, lan: Cidr, p: Packet, dev: string)
    requires Unknowns(was.forward) && fw.forward == WithChain(was).forward
    requires fw.user.Some? && Guarded(fw.user.value, clients, lan)
    requires Outbound(p, clients, lan) && !IsTunnel(dev)
    ensures FailClosed(fw, clients, lan) <==> JumpFirst(was)
  {
    JumpDecides(fw, clients, lan, p, dev);
    assert Jump in was.forward ==> was.forward != [];
  }

  method EnsureChain(h: Host) returns (ok: bool)
    requires h.Valid()
    modifies h
    ensures h.Advanced()
    ensures h.issued == old(h.issued) && (h.rtSteady ==> h.rt == old(h.rt))
    ensures h.fwSteady ==> ok && h.fw == WithChain(old(h.fw))
    ensures ok ==> h.fw.user.Some?
    ensures ok && old(JumpFirst(h.fw)) ==> Hooked(h.fw)
    ensures h.fwSteady && old(Hooked(h.fw)) ==> h.FwKept()
    ensures |h.trace| > |old(h.trace)|
    ensures forall i :: |old(h.trace)| <= i < |h.trace| ==> NothingNew(h.trace[i].fw, old(h.fw))
    ensures NothingNew(h.fw, old(h.fw))
    ensures h.fw.caps == old(h.fw).caps && SameSix(h.fw, old(h.fw))
    ensures old(JumpFirst(h.fw)) ==> JumpFirst(h.fw)
  {
    var listed := h.Iptables(ListUser);
    if !listed {
      var made := h.Iptables(NewUser);
      if !made {
        return false;
      }
    }
    var hooked := h.Iptables(CheckForward);
    if !hooked {
      var inserted := h.Iptables(InsertForward);
      if !inserted {
        return false;
      }
    }
    return true;
  }

  /** The user chain holds nothing it did not hold before. */
  ghost predicate NothingNew(fw: Firewall, was: Firewall)
  {
    fw.user.Some? ==> forall r :: r in fw.user.value ==> was.user.Some? && r in was.user.value
  }

  predicate SameSix(fw: Firewall, was: Firewall)
  {
    fw.forward6 == was.forward6 && fw.user6 == was.user6
  }

  /** Lists the chain and finds the first line that holds the text; num is the
      length of the chain when none does. */
  method FirstMention(h: Host, text: string) returns (listed: bool, num: nat)
    requires h.Valid()
    modifies h
    ensures h.Untouched()
    ensures h.fwSteady ==> listed == h.fw.user.Some?
    ensures listed ==> h.fw.user.Some? && num <= |h.fw.user.value|
    ensures listed && num < |h.fw.user.value| ==> Mentions(h.fw.user.value[num], text)
    ensures listed && num == |h.fw.user.value| ==> DropFirst(h.fw.user.value, text) == h.fw.user.value
    ensures listed && num < |h.fw.user.value| ==>
        DropFirst(h.fw.user.value, text) == h.fw.user.value[..num] + h.fw.user.value[num + 1..]
    ensures listed && num == |h.fw.user.value| ==> Mentioning(h.fw.user.value, text) == 0
  {
    var lines;
    listed, lines := h.ListLines();
    num := 0;
    if listed {
      ghost var chain := h.fw.user.value;
      while num < |lines| && !Holds(lines[num], text)
        invariant num <= |lines|
        invariant forall j :: 0 <= j < num ==> !Mentions(chain[j], text)
      {
        num := num + 1;
      }
      NoMention(chain, text);
      DropFirstAt(chain, text, num);
    }
  }

  /** What deleting rule number num + 1 does, when it is the one that mentions the text. */
  lemma DeleteEffect(fw: Firewall, text: string, num: nat)
    requires fw.user.Some? && num < |fw.user.value| && Mentions(fw.user.value[num], text)
    ensures var (after, ok) := Exec(fw, Delete(num + 1));
      && ok && after.user.Some? && after == fw.(user := after.user) && NothingNew(after, fw)
      && after.user.value == fw.user.value[..num] + fw.user.value[num + 1..]
      && Unmentioned(after.user.value, text) == Unmentioned(fw.user.value, text)
      && Mentioning(after.user.value, text) + 1 == Mentioning(fw.user.value, text)
  {
    DeleteMention(fw.user.value, text, num);
  }

  /** One round of the purge: list, find the first mention, delete it. */
  method PurgeOne(h: Host, text: string) returns (more: bool)
    requires h.Valid()
    modifies h
    ensures h.Advanced()
    ensures h.issued == old(h.issued) && (h.rtSteady ==> h.rt == old(h.rt))
    ensures h.fw == old(h.fw).(user := h.fw.user) && (h.fw.user.Some? <==> old(h.fw).user.Some?)
    ensures forall i :: |old(h.trace)| <= i < |h.trace| ==> h.trace[i].fw == old(h.fw) || h.trace[i].fw == h.fw
    ensures NothingNew(h.fw, old(h.fw))
    ensures h.fw.user.Some? ==> Unmentioned(h.fw.user.value, text) == Unmentioned(old(h.fw).user.value, text)
    ensures h.fw.user.Some? && h.fwSteady ==>
        Mentioning(h.fw.user.value, text) == Mentioning(old(h.fw).user.value, text) - (if more then 1 else 0)
    ensures h.fw.user.Some? && h.fwSteady && !more ==> Mentioning(h.fw.user.value, text) == 0
    ensures h.fwSteady && old(h.fw).user.Some? ==> h.fw == WithUser(old(h.fw), DropFirst(old(h.fw).user.value, text))
    ensures h.fwSteady && !more ==> h.fw == old(h.fw)
  {
    hide Mentioning, Unmentioned, Mentions, Exec, DropFirst;
    var listed, num := FirstMention(h, text);
    if !listed || num == |h.fw.user.value| {
      return false;
    }
    DeleteEffect(h.fw, text, num);
    more := h.Iptables(Delete(num + 1));
  }

  /** Deletes rules mentioning the client subnet, first one first, at most 64.
      What does not mention it stays, in its order, at every moment. */
  method PurgeOurRules(h: Host, clients: Cidr)
    requires h.Valid()
    modifies h
    ensures h.Advanced()
    ensures h.issued == old(h.issued) && (h.rtSteady ==> h.rt == old(h.rt))
    ensures h.fw == old(h.fw).(user := h.fw.user) && (h.fw.user.Some? <==> old(h.fw).user.Some?)
    ensures forall i :: |old(h.trace)| <= i < |h.trace| ==> NothingNew(h.trace[i].fw, old(h.fw))
    ensures NothingNew(h.fw, old(h.fw))
    ensures h.fw.user.Some? ==> PurgedFrom(h.fw.user.value, old(h.fw).user.value, CidrText(clients), h.fwSteady)
    ensures h.fwSteady && old(h.fw).user.Some? ==>
        && h.fw == WithUser(old(h.fw), Purged(old(h.fw).user.value, CidrText(clients), PurgeLimit))
        && forall i :: |old(h.trace)| <= i < |h.trace| ==> Emptying(h.trace[i].fw, old(h.fw), CidrText(clients))
  {
    hide Mentioning, Unmentioned, DropFirst, CidrText, Emptying, Purged;
    var text := CidrText(clients);
    ghost var was := h.fw;
    if was.user.Some? {
      PurgedNone(was, text);
    }
    for i := 0 to PurgeLimit
      invariant h.Advanced() && (h.rtSteady ==> h.rt == old(h.rt)) && h.issued == old(h.issued)
      invariant h.fw == was.(user := h.fw.user) && (h.fw.user.Some? <==> was.user.Some?)
      invariant NothingNew(h.fw, was)
      invariant forall j :: |old(h.trace)| <= j < |h.trace| ==> NothingNew(h.trace[j].fw, was)
      invariant was.user.Some? ==> Unmentioned(h.fw.user.value, text) == Unmentioned(was.user.value, text)
      invariant was.user.Some? && h.fwSteady ==> Mentioning(h.fw.user.value, text) + i == Mentioning(was.user.value, text)
      invariant was.user.Some? && h.fwSteady ==> h.fw == WithUser(was, Purged(was.user.value, text, i))
      invariant was.user.Some? && h.fwSteady ==>
          forall j :: |old(h.trace)| <= j < |h.trace| ==> Emptying(h.trace[j].fw, was, text)
    {
      if was.user.Some? {
        PurgedNext(was, text, i);
      }
      var more := PurgeOne(h, text);
      if !more {
        if h.fwSteady && was.user.Some? {
          PurgedStays(was.user.value, text, i, PurgeLimit);
        }
        return;
      }
    }
  }

  /** Purging only ever removes mentions; when commands work it removes all of
      them, or the first 64. */
  predicate PurgedFrom(chain: seq<Rule>, was: seq<Rule>, text: string, exact: bool)
  {
    && Unmentioned(chain, text) == Unmentioned(was, text)
    && (exact ==> Mentioning(chain, text)
                  == if Mentioning(was, text) <= 64 then 0 else Mentioning(was, text) - 64)
  }

  /** The IPv6 side is closed, or there is nothing to close. */
  predicate Closed6(fw: Firewall)
  {
    || (fw.user6.Some? && (All(Reject) in fw.user6.value || All(Drop) in fw.user6.value))
    || !fw.caps.forwards6
  }

  predicate Has6(fw: Firewall, t: Target)
  {
    fw.user6.Some? && All(t) in fw.user6.value
  }

  /** At most one refusal was added, at the end of the IPv6 chain. */
  predicate Added6(fw: Firewall, was: Firewall)
  {
    || fw == was
    || (was.user6.Some? && fw == was.(user6 := Some(was.user6.value + [All(Reject)])))
    || (was.user6.Some? && fw == was.(user6 := Some(was.user6.value + [All(Drop)])))
  }

  /** One refusal: already there, or appended. */
  method Block6(h: Host, t: Target) returns (ok: bool)
    requires h.Valid() && t != Accept
    modifies h
    ensures h.Advanced()
    ensures h.issued == old(h.issued) && (h.rtSteady ==> h.rt == old(h.rt))
    ensures forall i :: |old(h.trace)| <= i < |h.trace| ==> SameFour(h.trace[i].fw, old(h.fw))
    ensures SameFour(h.fw, old(h.fw))
    ensures ok ==> Has6(h.fw, t)
    ensures h.fwSteady && (!ok || Has6(old(h.fw), t)) ==> h.fw == old(h.fw)
    ensures h.fwSteady ==> Added6(h.fw, old(h.fw))
    ensures h.fwSteady && old(h.fw).user6.Some? ==> (ok <==> Has6(old(h.fw), t) || CanTarget6(h.fw.caps, t))
  {
    var there := h.Iptables(Check6(t));
    if there {
      return true;
    }
    ok := h.Iptables(Append6(t));
  }

  /** Tries to refuse with an error, then silently. */
  method Refuse6(h: Host) returns (armed: bool)
    requires h.Valid()
    modifies h
    ensures h.Advanced()
    ensures h.issued == old(h.issued) && (h.rtSteady ==> h.rt == old(h.rt))
    ensures forall i :: |old(h.trace)| <= i < |h.trace| ==> SameFour(h.trace[i].fw, old(h.fw))
    ensures SameFour(h.fw, old(h.fw))
    ensures armed ==> Has6(h.fw, Reject) || Has6(h.fw, Drop)
    ensures h.fwSteady && !armed ==> h.fw == old(h.fw)
    ensures h.fwSteady ==> Added6(h.fw, old(h.fw))
    ensures h.fwSteady && old(h.fw).user6.Some? && h.fw.caps.reject6 ==> Has6(h.fw, Reject)
    ensures h.fwSteady && Has6(old(h.fw), Reject) ==> h.fw == old(h.fw)
    ensures h.fwSteady && old(h.fw).user6.Some? ==>
        (armed <==> Has6(old(h.fw), Reject) || Has6(old(h.fw), Drop) || h.fw.caps.reject6 || h.fw.caps.drop6)
  {
    armed := false;
    var actions := [Reject, Drop];
    var i := 0;
    while i < 2 && !armed
      invariant 0 <= i <= 2 && h.Advanced() && (h.rtSteady ==> h.rt == old(h.rt)) && h.issued == old(h.issued)
      invariant SameFour(h.fw, old(h.fw))
      invariant forall j :: |old(h.trace)| <= j < |h.trace| ==> SameFour(h.trace[j].fw, old(h.fw))
      invariant armed ==> i >= 1 && Has6(h.fw, actions[i - 1])
      invariant h.fwSteady && !armed ==> h.fw == old(h.fw)
      invariant h.fwSteady ==> Added6(h.fw, old(h.fw))
      invariant h.fwSteady && i >= 1 && old(h.fw).user6.Some? && (h.fw.caps.reject6 || Has6(old(h.fw), Reject)) ==>
          armed && Has6(h.fw, Reject)
      invariant h.fwSteady && Has6(old(h.fw), Reject) ==> h.fw == old(h.fw)
      invariant h.fwSteady && !armed && old(h.fw).user6.Some? ==>
          forall k :: 0 <= k < i ==> !Has6(h.fw, actions[k]) && !CanTarget6(h.fw.caps, actions[k])
      invariant h.fwSteady && armed && old(h.fw).user6.Some? ==>
          Has6(old(h.fw), actions[i - 1]) || CanTarget6(h.fw.caps, actions[i - 1])
    {
      armed := Block6(h, actions[i]);
      i := i + 1;
    }
    if !armed && h.fwSteady && old(h.fw).user6.Some? {
      assert !CanTarget6(h.fw.caps, actions[0]) && !CanTarget6(h.fw.caps, actions[1]);
      assert !Has6(h.fw, actions[0]) && !Has6(h.fw, actions[1]);
    }
  }

  function Hooked6(fw: Firewall): seq<Rule>
  {
    if Jump in fw.forward6 then fw.forward6 else [Jump] + fw.forward6
  }

  function Base6(fw: Firewall): seq<Rule>
  {
    if fw.user6.Some? then fw.user6.value else []
  }

  predicate IsRefusal6(r: Rule)
  {
    r == All(Reject) || r == All(Drop)
  }

  /** What arming the IPv6 side leaves: the hook, and at most one refusal more, at
      the end of the chain. */
  predicate ArmedSix(fw: Firewall, was: Firewall)
  {
    && fw.forward6 == Hooked6(was) && fw.user6.Some? && fw.caps == was.caps
    && (fw.user6.value == Base6(was) || fw.user6.value == Base6(was) + [All(Reject)] || fw.user6.value == Base6(was) + [All(Drop)])
    && exists r | r in fw.user6.value :: IsRefusal6(r)
  }

  method EnsureUser6(h: Host)
    requires h.Valid()
    modifies h
    ensures h.Advanced()
    ensures h.issued == old(h.issued) && (h.rtSteady ==> h.rt == old(h.rt))
    ensures forall i :: |old(h.trace)| <= i < |h.trace| ==> SameFour(h.trace[i].fw, old(h.fw))
    ensures SameFour(h.fw, old(h.fw))
    ensures h.fwSteady ==> h.fw == old(h.fw).(user6 := Some(Base6(old(h.fw))))
  {
    var listed := h.Iptables(ListUser6);
    if !listed {
      var _ := h.Iptables(NewUser6);
    }
  }

  method EnsureHook6(h: Host)
    requires h.Valid()
    modifies h
    ensures h.Advanced()
    ensures h.issued == old(h.issued) && (h.rtSteady ==> h.rt == old(h.rt))
    ensures forall i :: |old(h.trace)| <= i < |h.trace| ==> SameFour(h.trace[i].fw, old(h.fw))
    ensures SameFour(h.fw, old(h.fw)) && h.fw.user6 == old(h.fw).user6
    ensures h.fwSteady && old(h.fw).user6.Some? ==> Jump in h.fw.forward6 && h.fw.forward6 == Hooked6(old(h.fw))
  {
    var hooked := h.Iptables(CheckForward6);
    if !hooked {
      var _ := h.Iptables(InsertForward6);
    }
  }

  /** The IPv6 side is closed, or this machine has a way to refuse. */
  predicate Closable6(fw: Firewall)
  {
    Closed6(fw) || fw.caps.reject6 || fw.caps.drop6
  }

  /** Succeeds exactly when the IPv6 side ends up closed, which it can whenever it
      was, or this machine has any way to refuse. */
  method ApplyKillSwitch6(h: Host) returns (ok: bool)
    requires h.Valid()
    modifies h
    ensures h.Advanced()
    ensures h.issued == old(h.issued) && (h.rtSteady ==> h.rt == old(h.rt))
    ensures forall i :: |old(h.trace)| <= i < |h.trace| ==> SameFour(h.trace[i].fw, old(h.fw))
    ensures SameFour(h.fw, old(h.fw))
    ensures ok ==> Closed6(h.fw)
    ensures h.fwSteady ==> (ok <==> Closed6(h.fw))
    ensures h.fwSteady ==> (ok <==> Closable6(old(h.fw)))
    ensures h.fwSteady && (Has6(h.fw, Reject) || Has6(h.fw, Drop)) ==> Jump in h.fw.forward6
    ensures h.fwSteady && ok && h.fw.caps.forwards6 ==> ArmedSix(h.fw, old(h.fw))
  {
    EnsureUser6(h);
    var armed := Refuse6(h);
    if !armed {
      return !h.fw.caps.forwards6;
    }
    EnsureHook6(h);
    return true;
  }

  // What closed means for a packet

  /** The kernel forwards no IPv6 packet, whatever the foreign rules do. Addresses
      play no part in it, so any packet stands for one. */
  ghost predicate Sealed6(fw: Firewall)
  {
    fw.caps.forwards6 ==>
      forall p, dev, others: Others :: TopVerdict(fw.forward6, Base6(fw), p, dev, others) == Blocked
  }

  /** Foreign rules and refusals. */
  predicate Known6(chain: seq<Rule>)
  {
    forall r :: r in chain ==> r.Foreign? || IsRefusal6(r)
  }

  function AcceptAll(): Others
  {
    (id, p, dev) => Accepted
  }

  lemma {:induction false} UnknownsMayAccept(top: seq<Rule>, p: Packet, dev: string)
    requires Unknowns(top)
    ensures TopVerdict(top, [], p, dev, AcceptAll()) != Blocked
  {
    if top != [] {
      assert top[0] in top;
      if top[0].Foreign? {
        assert ChainVerdict([top[0]], p, dev, AcceptAll()) == Accepted;
      }
      UnknownsMayAccept(top[1..], p, dev);
    }
  }

  lemma RefusalBlocks(chain: seq<Rule>, p: Packet, dev: string, others: Others)
    requires chain != [] && IsRefusal6(chain[0])
    ensures ChainVerdict(chain, p, dev, others) == Blocked
  {
  }

  /** The IPv6 side is sealed if and only if nothing is forwarded anyway, or the jump
      comes first in FORWARD and a refusal first in the chain it leads to. */
  lemma SealedExactly(fw: Firewall, p: Packet, dev: string)
    requires Unknowns(fw.forward6) && Known6(Base6(fw))
    ensures Sealed6(fw) <==>
      !fw.caps.forwards6
      || (fw.forward6 != [] && fw.forward6[0] == Jump && Base6(fw) != [] && IsRefusal6(Base6(fw)[0]))
  {
    var top, chain := fw.forward6, Base6(fw);
    if fw.caps.forwards6 {
      if top != [] && top[0] == Jump && chain != [] && IsRefusal6(chain[0]) {
        forall p, dev, others: Others
          ensures TopVerdict(top, chain, p, dev, others) == Blocked
        {
          RefusalBlocks(chain, p, dev, others);
        }
      } else {
        NotSealed(top, chain, p, dev);
        assert TopVerdict(top, chain, p, dev, AcceptAll()) != Blocked;
      }
    }
  }

  lemma NotSealed(top: seq<Rule>, chain: seq<Rule>, p: Packet, dev: string)
    requires Unknowns(top) && Known6(chain)
    requires top == [] || top[0] != Jump || chain == [] || !IsRefusal6(chain[0])
    ensures TopVerdict(top, chain, p, dev, AcceptAll()) != Blocked
  {
    if top != [] {
      assert top[0] in top;
      if top[0] != Jump {
        assert ChainVerdict([top[0]], p, dev, AcceptAll()) == Accepted;
      } else if chain == [] {
        UnknownsMayAccept(top, p, dev);
      } else {
        assert chain[0] in chain && chain[0].Foreign?;
        assert ChainVerdict(chain, p, dev, AcceptAll()) == Accepted;
      }
    }
  }

  /** Closed is what the checks see, sealed what a packet meets: an IPv6 side just
      armed is sealed if and only if no jump was buried in FORWARD and the chain
      began with nobody else's rule. */
  lemma ArmedSixSeals(fw: Firewall, was: Firewall, p: Packet, dev: string)
    requires ArmedSix(fw, was) && fw.caps.forwards6 && Unknowns(was.forward6) && Known6(Base6(was))
    ensures Closed6(fw)
    ensures Sealed6(fw) <==>
      (Jump in was.forward6 ==> was.forward6[0] == Jump) && (Base6(was) != [] ==> IsRefusal6(Base6(was)[0]))
  {
    assert Known6(Base6(fw)) && Unknowns(fw.forward6);
    hide Sealed6, Known6;
    SealedExactly(fw, p, dev);
  }

  predicate SameFour(fw: Firewall, was: Firewall)
  {
    fw.forward == was.forward && fw.user == was.user && fw.caps == was.caps
  }

  /** Looks for either form applyKillSwitch6 could install, and agrees with it
      where neither is needed. */
  method Ipv6Blocked(h: Host) returns (blocked: bool)
    requires h.Valid()
    modifies h
    ensures h.Untouched()
    ensures h.Truthful() ==> (blocked <==> Closed6(h.fw))
  {
    var reject := h.Iptables(Check6(Reject));
    if reject {
      return true;
    }
    var drop := h.Iptables(Check6(Drop));
    if drop {
      return true;
    }
    return !h.fw.caps.forwards6;
  }

  method KillSwitchArmed(h: Host, b: BlockAction, clients: Cidr) returns (armed: bool)
    requires h.Valid() && b.Blocks()
    modifies h, b
    ensures h.Untouched()
    ensures b.once && b.Blocks() && (old(b.once) ==> b.target == old(b.target))
    ensures h.fwSteady && old(b.Fits(h.fw.caps)) ==> b.Fits(h.fw.caps)
    ensures h.Truthful() ==> (armed <==> Exec(h.fw, Check(CatchAll(clients, b.target))).1)
    ensures |h.trace| > |old(h.trace)|
  {
    var block := RejectArgs(h, b);
    armed := h.Iptables(Check(CatchAll(clients, block)));
  }

  /** One insert at the top. */
  method InsertRule(h: Host, r: Rule) returns (ok: bool)
    requires h.Valid() && h.fw.user.Some? && r.Match?
    modifies h
    ensures h.Advanced() && |h.trace| > |old(h.trace)|
    ensures h.issued == old(h.issued) && (h.rtSteady ==> h.rt == old(h.rt))
    ensures forall i :: |old(h.trace)| <= i < |h.trace| - 1 ==> h.trace[i].fw == old(h.fw)
    ensures h.fw == old(h.fw) || h.fw == old(h.fw).(user := Some([Stored(r)] + old(h.fw).user.value))
    ensures ok ==> h.fw == old(h.fw).(user := Some([Stored(r)] + old(h.fw).user.value))
    ensures h.fwSteady && CanTarget4(h.fw.caps, r.target) ==> ok
  {
    ok := h.Iptables(Insert(r));
  }

  /** The allows and the DNS blocks, in the order they are inserted. */
  function AllowSteps(clients: Cidr, lan: Cidr, block: Target): (r: seq<Rule>)
    ensures |r| == 6 && forall i :: 0 <= i < 6 ==> r[i].Match? && (r[i].target == Accept || r[i].target == block)
  {
    [OutByTunnel(clients), To(clients, lan), To(clients, clients), Replies(clients),
     NoDns(clients, lan, Udp, block), NoDns(clients, lan, Tcp, block)]
  }

  /** Storing a rule clears the host bits of its prefixes and nothing else. */
  lemma StoredForms(clients: Cidr, lan: Cidr, block: Target, proto: Proto)
    ensures var c, l := Network(clients), Network(lan);
      && Stored(CatchAll(clients, block)) == CatchAll(c, block) && Stored(OutByTunnel(clients)) == OutByTunnel(c)
      && Stored(To(clients, lan)) == To(c, l) && Stored(To(clients, clients)) == To(c, c)
      && Stored(Replies(clients)) == Replies(c) && Stored(NoDns(clients, lan, proto, block)) == NoDns(c, l, proto, block)
  {
  }

  /** Each insert lands where the finished chain wants it. */
  lemma StepRule(clients: Cidr, lan: Cidr, block: Target, i: nat)
    requires i < 6
    ensures Stored(AllowSteps(clients, lan, block)[i]) == OurRules(clients, lan, block)[5 - i]
  {
    StoredForms(clients, lan, block, Udp);
    StoredForms(clients, lan, block, Tcp);
    hide Stored, Network;
  }

  lemma StepLands(clients: Cidr, lan: Cidr, block: Target, i: nat, base: seq<Rule>)
    requires i < 6
    ensures [Stored(AllowSteps(clients, lan, block)[i])] + (OurRules(clients, lan, block)[6 - i..] + base)
         == OurRules(clients, lan, block)[5 - i..] + base
  {
    hide Stored, AllowSteps, OurRules;
    StepRule(clients, lan, block, i);
    SuffixCons(OurRules(clients, lan, block), 5 - i, base);
  }

  lemma SuffixCons(ours: seq<Rule>, k: nat, base: seq<Rule>)
    requires k < |ours|
    ensures [ours[k]] + (ours[k + 1..] + base) == ours[k..] + base
  {
  }

  /** Our chain once the last n of its rules are in. */
  function LastOf(clients: Cidr, lan: Cidr, block: Target, n: nat, base: seq<Rule>): seq<Rule>
    requires 1 <= n <= 7
  {
    OurRules(clients, lan, block)[7 - n..] + base
  }

  /** An insert that keeps a guarded chain guarded. */
  method InsertGuarded(h: Host, r: Rule, clients: Cidr, lan: Cidr) returns (ok: bool)
    requires h.Valid() && h.fw.user.Some? && r.Match?
    requires Guarded(h.fw.user.value, clients, lan) && Guarded([Stored(r)] + h.fw.user.value, clients, lan)
    modifies h
    ensures h.Advanced()
    ensures h.issued == old(h.issued) && (h.rtSteady ==> h.rt == old(h.rt))
    ensures h.fw == old(h.fw) || h.fw == old(h.fw).(user := Some([Stored(r)] + old(h.fw).user.value))
    ensures ok ==> h.fw == old(h.fw).(user := Some([Stored(r)] + old(h.fw).user.value))
    ensures old(Hooked(h.fw)) ==> forall j :: |old(h.trace)| <= j < |h.trace| ==> Shut(h.trace[j].fw, clients, lan)
    ensures h.fw.user.Some? && Guarded(h.fw.user.value, clients, lan)
    ensures h.fwSteady && CanTarget4(h.fw.caps, r.target) ==> ok
  {
    ok := InsertRule(h, r);
  }

  /** The six inserts above the catch-all, each at the top. */
  method InsertAllows(h: Host, clients: Cidr, lan: Cidr, block: Target, ghost base: seq<Rule>) returns (ok: bool)
    requires h.Valid() && block != Accept
    requires h.fw.user == Some(LastOf(clients, lan, block, 1, base))
    modifies h
    ensures h.Advanced()
    ensures h.issued == old(h.issued) && (h.rtSteady ==> h.rt == old(h.rt))
    ensures h.fw == old(h.fw).(user := h.fw.user) && h.fw.user.Some? && Guarded(h.fw.user.value, clients, lan)
    ensures old(Hooked(h.fw)) ==> forall i :: |old(h.trace)| <= i < |h.trace| ==> Shut(h.trace[i].fw, clients, lan)
    ensures ok ==> h.fw.user == Some(OurRules(clients, lan, block) + base)
    ensures h.fwSteady && CanTarget4(h.fw.caps, block) ==> ok
  {
    hide OurRules, AllowSteps, Guarded, Stored;
    TailGuards(clients, lan, block, 6, base);
    for i := 0 to 6
      invariant h.Advanced() && (h.rtSteady ==> h.rt == old(h.rt)) && h.issued == old(h.issued)
      invariant h.fw == old(h.fw).(user := Some(LastOf(clients, lan, block, i + 1, base)))
      invariant Guarded(h.fw.user.value, clients, lan)
      invariant old(Hooked(h.fw)) ==> forall j :: |old(h.trace)| <= j < |h.trace| ==> Shut(h.trace[j].fw, clients, lan)
    {
      StepLands(clients, lan, block, i, base);
      TailGuards(clients, lan, block, 5 - i, base);
      var done := InsertGuarded(h, AllowSteps(clients, lan, block)[i], clients, lan);
      if !done {
        return false;
      }
    }
    assert OurRules(clients, lan, block)[0..] == OurRules(clients, lan, block);
    return true;
  }

  /** What our chain looks like once armed over what was there before. */
  predicate ArmedOver(fw: Firewall, was: Firewall, clients: Cidr, lan: Cidr, exact: bool)
  {
    && fw.user.Some? && |fw.user.value| >= 7
    && fw.user.value[..7] == OurRules(clients, lan, Refusal(fw.caps))
    && PurgedFrom(fw.user.value[7..], if was.user.Some? then was.user.value else [], CidrText(clients), exact)
  }

  /** The chain exists and is hooked, the old rules are gone, and the refusal is chosen. */
  method PrepareChain(h: Host, b: BlockAction, clients: Cidr) returns (ok: bool, block: Target)
    requires h.Valid() && b.Blocks()
    modifies h, b
    ensures h.Advanced()
    ensures h.issued == old(h.issued) && (h.rtSteady ==> h.rt == old(h.rt))
    ensures b.Blocks() && (old(b.once) ==> b.once && b.target == old(b.target))
    ensures h.fwSteady && old(b.Fits(h.fw.caps)) ==> b.Fits(h.fw.caps)
    ensures h.fw.caps == old(h.fw).caps && SameSix(h.fw, old(h.fw))
    ensures forall i :: |old(h.trace)| <= i < |h.trace| ==> NothingNew(h.trace[i].fw, old(h.fw))
    ensures h.fwSteady ==> ok && h.fw.forward == WithChain(old(h.fw)).forward
    ensures ok ==> h.fw.user.Some? && b.once && block == b.target && block != Accept
    ensures ok && old(JumpFirst(h.fw)) ==> Hooked(h.fw)
    ensures |h.trace| > |old(h.trace)|
    ensures h.fwSteady && old(Hooked(h.fw)) ==>
        && old(h.fw).user.Some?
        && h.fw == WithUser(old(h.fw), Purged(old(h.fw).user.value, CidrText(clients), PurgeLimit))
        && forall i :: |old(h.trace)| <= i < |h.trace| ==> Emptying(h.trace[i].fw, old(h.fw), CidrText(clients))
    ensures h.fwSteady ==>
        PurgedFrom(h.fw.user.value, if old(h.fw).user.Some? then old(h.fw).user.value else [], CidrText(clients), true)
  {
    hide PurgedFrom, Emptying, Purged, CidrText;
    ok := EnsureChain(h);
    if !ok {
      return false, Drop;
    }
    ghost var was := h.fw;
    PurgedNone(was, CidrText(clients));
    PurgedLast(was, CidrText(clients));
    PurgeOurRules(h, clients);
    block := RejectArgs(h, b);
  }

  /** The catch-all first, so that it ends up last, then everything above it. */
  method InsertRules(h: Host, clients: Cidr, lan: Cidr, block: Target) returns (ok: bool, ghost armedAt: nat)
    requires h.Valid() && block != Accept && h.fw.user.Some?
    modifies h
    ensures h.Advanced()
    ensures h.issued == old(h.issued) && (h.rtSteady ==> h.rt == old(h.rt))
    ensures h.fw == old(h.fw).(user := h.fw.user) && h.fw.user.Some?
    ensures |old(h.trace)| <= armedAt <= |h.trace|
    ensures forall i :: |old(h.trace)| <= i < armedAt ==> h.trace[i].fw == old(h.fw)
    ensures old(Hooked(h.fw)) ==> forall i :: armedAt <= i < |h.trace| ==> Shut(h.trace[i].fw, clients, lan)
    ensures ok ==> armedAt < |h.trace| && Guarded(h.fw.user.value, clients, lan)
    ensures ok ==> h.fw.user == Some(OurRules(clients, lan, block) + old(h.fw).user.value)
    ensures h.fwSteady && CanTarget4(h.fw.caps, block) ==> ok
  {
    ghost var base := h.fw.user.value;
    StoredForms(clients, lan, block, Udp);
    var last := InsertRule(h, CatchAll(clients, block));
    armedAt := |h.trace|;
    if h.fw != old(h.fw) {
      armedAt := |h.trace| - 1;
    }
    TailGuards(clients, lan, block, 6, base);
    assert [OurRules(clients, lan, block)[6]] == OurRules(clients, lan, block)[6..];
    if !last {
      return false, armedAt;
    }
    ok := InsertAllows(h, clients, lan, block, base);
  }

  /** On the way to an armed machine: up to the first insert the chain is some
      way into its purge, one state is the end of it, and afterwards it is shut. */
  ghost predicate Rearming(trace: seq<Snapshot>, first: nat, armedAt: nat, was: Firewall, clients: Cidr, lan: Cidr)
    requires first <= armedAt <= |trace|
  {
    && was.user.Some?
    && (forall i :: first <= i < armedAt ==> Emptying(trace[i].fw, was, CidrText(clients)))
    && (forall i :: armedAt <= i < |trace| ==> Shut(trace[i].fw, clients, lan))
    && exists i :: first <= i < |trace| && trace[i].fw == WithUser(was, Purged(was.user.value, CidrText(clients), PurgeLimit))
  }

  /** The jump first, our seven rules on top, and nothing below that mentions a
      subnet whose text iptables writes the way the configuration does. */
  predicate ArmedMachine(fw: Firewall, clients: Cidr, lan: Cidr)
  {
    Canonical(clients) && clients.len < 32 && Hooked(fw) && ArmedChain(fw, clients, lan, Refusal(fw.caps))
  }

  /** Re-arming an armed machine opens it exactly when the foreign rules do. */
  lemma RearmingOpens(
    trace: seq<Snapshot>, first: nat, armedAt: nat, was: Firewall, clients: Cidr, lan: Cidr)
    requires first <= armedAt <= |trace| && Rearming(trace, first, armedAt, was, clients, lan)
    requires ArmedMachine(was, clients, lan)
    ensures AllClosed(Firewalls(trace[first..]), clients, lan) <==> FailClosed(Unguarded(was), clients, lan)
    ensures !AllShut(Firewalls(trace[first..]), clients, lan)
  {
    hide Canonical, CidrText, Emptying, Shut, Purged, ArmedChain, Hooked, FailClosed, AllClosed, AllShut, Unguarded;
    var rest, block := trace[first..], Refusal(was.caps);
    var seen := Firewalls(rest);
    PurgedWhole(was, clients, lan, block);
    var at :| first <= at < |trace| && trace[at].fw == WithUser(was, Purged(was.user.value, CidrText(clients), PurgeLimit));
    assert rest[at - first].fw in seen;
    forall fw | fw in seen
      ensures Emptying(fw, was, CidrText(clients)) || Shut(fw, clients, lan)
    {
      var i :| 0 <= i < |rest| && rest[i].fw == fw;
      assert trace[first + i].fw == fw;
    }
    WindowIsExact(seen, was, clients, lan, block);
  }

  /** What follows a re-arming shut leaves it a re-arming. */
  lemma RearmingGrows(
    trace: seq<Snapshot>, more: seq<Snapshot>, first: nat, armedAt: nat, was: Firewall, clients: Cidr, lan: Cidr)
    requires first <= armedAt <= |trace| && trace <= more && Rearming(trace, first, armedAt, was, clients, lan)
    requires forall i :: armedAt <= i < |more| ==> Shut(more[i].fw, clients, lan)
    ensures Rearming(more, first, armedAt, was, clients, lan)
  {
    hide Emptying, Shut, Purged, CidrText;
    var at :| first <= at < |trace| && trace[at].fw == WithUser(was, Purged(was.user.value, CidrText(clients), PurgeLimit));
    assert more[at] == trace[at];
    assert forall i :: first <= i < armedAt ==> more[i] == trace[i];
  }

  /** The two checks the run loop makes would both pass. */
  predicate Armed(fw: Firewall, block: Target, clients: Cidr)
  {
    Exec(fw, Check(CatchAll(clients, block))).1 && Closed6(fw)
  }

  lemma ArmedPasses(fw: Firewall, clients: Cidr, lan: Cidr, block: Target)
    requires fw.user.Some? && |fw.user.value| >= 7 && fw.user.value[..7] == OurRules(clients, lan, block)
    ensures Exec(fw, Check(CatchAll(clients, block))).1
  {
    StoredForms(clients, lan, block, Udp);
    assert OurRules(clients, lan, block)[6] == Stored(CatchAll(clients, block));
    assert fw.user.value[6] == fw.user.value[..7][6];
  }

  /** The IPv4 half: purge, then insert. */
  method ApplyKillSwitch4(h: Host, b: BlockAction, clients: Cidr, lan: Cidr) returns (ok: bool, ghost armedAt: nat)
    requires h.Valid() && b.Blocks()
    modifies h, b
    ensures h.Advanced()
    ensures h.issued == old(h.issued) && (h.rtSteady ==> h.rt == old(h.rt))
    ensures b.Blocks() && (old(b.once) ==> b.once && b.target == old(b.target))
    ensures h.fwSteady && old(b.Fits(h.fw.caps)) ==> b.Fits(h.fw.caps)
    ensures h.fw.caps == old(h.fw).caps && SameSix(h.fw, old(h.fw))
    ensures h.fwSteady ==> h.fw.forward == WithChain(old(h.fw)).forward
    ensures |old(h.trace)| <= armedAt <= |h.trace|
    ensures forall i :: |old(h.trace)| <= i < armedAt ==> NothingNew(h.trace[i].fw, old(h.fw))
    ensures old(JumpFirst(h.fw)) ==> forall i :: armedAt <= i < |h.trace| ==> Shut(h.trace[i].fw, clients, lan)
    ensures ok ==> armedAt < |h.trace| && b.once && Exec(h.fw, Check(CatchAll(clients, b.target))).1
    ensures ok && old(JumpFirst(h.fw)) ==> Shut(h.fw, clients, lan)
    ensures h.fwSteady && old(b.Fits(h.fw.caps)) ==> ok && b.once && ArmedOver(h.fw, old(h.fw), clients, lan, true)
    ensures h.fwSteady && old(Hooked(h.fw)) ==> Rearming(h.trace, |old(h.trace)|, armedAt, old(h.fw), clients, lan)
  {
    hide Emptying, Purged, CidrText, PurgedFrom, Guarded, OurRules, NothingNew, JumpFirst, WithUser;
    if h.fw.user.Some? {
      PurgedLast(h.fw, CidrText(clients));
    }
    var prepared, block := PrepareChain(h, b, clients);
    if !prepared {
      return false, |h.trace|;
    }
    ghost var base := h.fw.user.value;
    ok, armedAt := InsertRules(h, clients, lan, block);
    if ok {
      assert h.fw.user.value[..7] == OurRules(clients, lan, block) && h.fw.user.value[7..] == base;
      ArmedPasses(h.fw, clients, lan, block);
    }
  }

  /** What the IPv6 half changes does not show in the IPv4 chains. */
  lemma OtherSixSameFour(fw: Firewall, mid: Firewall, was: Firewall, clients: Cidr, lan: Cidr, block: Target)
    requires SameFour(fw, mid)
    ensures ArmedOver(fw, was, clients, lan, true) <==> ArmedOver(mid, was, clients, lan, true)
    ensures Shut(fw, clients, lan) <==> Shut(mid, clients, lan)
    ensures Exec(fw, Check(CatchAll(clients, block))).1 <==> Exec(mid, Check(CatchAll(clients, block))).1
  {
  }

  lemma SameSixSameClosing(fw: Firewall, was: Firewall)
    requires SameSix(fw, was) && fw.caps == was.caps
    ensures Closed6(fw) <==> Closed6(was)
    ensures Closable6(fw) <==> Closable6(was)
    ensures forall x :: ArmedSix(x, fw) <==> ArmedSix(x, was)
  {
  }

  /** Arms the kill switch. Up to the first insert the chain only loses rules;
      from then on every state lets nothing escape, even when a later command
      fails. When commands work, the result is exactly our seven rules above
      what remains of the old chain. */
  method ApplyKillSwitch(h: Host, b: BlockAction, clients: Cidr, lan: Cidr) returns (ok: bool, ghost armedAt: nat)
    requires h.Valid() && b.Blocks()
    modifies h, b
    ensures h.Advanced()
    ensures h.issued == old(h.issued) && (h.rtSteady ==> h.rt == old(h.rt))
    ensures b.Blocks() && (old(b.once) ==> b.once && b.target == old(b.target))
    ensures h.fwSteady && old(b.Fits(h.fw.caps)) ==> b.Fits(h.fw.caps)
    ensures h.fw.caps == old(h.fw).caps && (h.fwSteady ==> h.fw.forward == WithChain(old(h.fw)).forward)
    ensures |old(h.trace)| <= armedAt <= |h.trace|
    ensures forall i :: |old(h.trace)| <= i < armedAt ==> NothingNew(h.trace[i].fw, old(h.fw))
    ensures old(JumpFirst(h.fw)) ==> forall i :: armedAt <= i < |h.trace| ==> Shut(h.trace[i].fw, clients, lan)
    ensures ok ==> armedAt < |h.trace| && b.once && Armed(h.fw, b.target, clients)
    ensures ok && old(JumpFirst(h.fw)) ==> Shut(h.fw, clients, lan)
    ensures h.fwSteady && old(b.Fits(h.fw.caps)) ==> ArmedOver(h.fw, old(h.fw), clients, lan, true) && b.once
    ensures h.fwSteady && old(b.Fits(h.fw.caps)) ==> (ok <==> Closed6(h.fw)) && (ok <==> old(Closable6(h.fw)))
    ensures h.fwSteady && old(b.Fits(h.fw.caps)) && (Has6(h.fw, Reject) || Has6(h.fw, Drop)) ==> Jump in h.fw.forward6
    ensures h.fwSteady && ok && h.fw.caps.forwards6 ==> ArmedSix(h.fw, old(h.fw))
    ensures h.fwSteady && old(Hooked(h.fw)) ==> Rearming(h.trace, |old(h.trace)|, armedAt, old(h.fw), clients, lan)
  {
    hide ArmedSix, ArmedOver, Closed6, Closable6, NothingNew, JumpFirst, Has6, Shut, Rearming, Exec, WithChain, Hooked;
    ghost var was, first := h.fw, |h.trace|;
    ok, armedAt := ApplyKillSwitch4(h, b, clients, lan);
    if !ok {
      return false, armedAt;
    }
    ghost var mid, sofar := h.fw, h.trace;
    SameSixSameClosing(mid, was);
    ok := ApplyKillSwitch6(h);
    OtherSixSameFour(h.fw, mid, was, clients, lan, b.target);
    assert old(JumpFirst(h.fw)) ==> forall i :: armedAt <= i < |h.trace| ==> Shut(h.trace[i].fw, clients, lan) by {
      forall i | |sofar| <= i < |h.trace|
        ensures Shut(h.trace[i].fw, clients, lan) <==> Shut(mid, clients, lan)
      {
        OtherSixSameFour(h.trace[i].fw, mid, was, clients, lan, b.target);
      }
    }
    if h.fwSteady && Hooked(was) {
      HookedIsFirst(was);
      RearmingGrows(sofar, h.trace, first, armedAt, was, clients, lan);
    }
  }

  lemma HookedIsFirst(fw: Firewall)
    requires Hooked(fw)
    ensures JumpFirst(fw)
  {
  }

  // Re-arming

  /** Our own seven rules mention the subnet, all of them. */
  lemma OursAllMention(clients: Cidr, lan: Cidr, block: Target, tail: seq<Rule>)
    requires Canonical(clients) && clients.len < 32
    ensures Unmentioned(OurRules(clients, lan, block) + tail, CidrText(clients)) == Unmentioned(tail, CidrText(clients))
    ensures Mentioning(OurRules(clients, lan, block) + tail, CidrText(clients)) == 7 + Mentioning(tail, CidrText(clients))
  {
    var ours, text := OurRules(clients, lan, block), CidrText(clients);
    forall r | r in ours
      ensures Mentions(r, text)
    {
      OursMention(clients, lan, block, r);
    }
    FilterConcat(ours, tail, (r: Rule) => !Mentions(r, text));
    FilterConcat(ours, tail, (r: Rule) => Mentions(r, text));
    FilterNone(ours, (r: Rule) => !Mentions(r, text));
    FilterAll(ours, (r: Rule) => Mentions(r, text));
  }

  /** Arming over an armed chain replaces the seven rules and nothing else, even
      when the LAN moved in between. */
  lemma RearmReplaces(fw: Firewall, was: Firewall, clients: Cidr, lan: Cidr, oldLan: Cidr, oldBlock: Target, tail: seq<Rule>)
    requires Canonical(clients) && clients.len < 32
    requires was.user == Some(OurRules(clients, oldLan, oldBlock) + tail) && Mentioning(tail, CidrText(clients)) == 0
    requires ArmedOver(fw, was, clients, lan, true)
    ensures fw.user == Some(OurRules(clients, lan, Refusal(fw.caps)) + tail)
  {
    OursAllMention(clients, oldLan, oldBlock, tail);
    NoMention(tail, CidrText(clients));
    var rest := fw.user.value[7..];
    NoMention(rest, CidrText(clients));
    assert fw.user.value == fw.user.value[..7] + rest;
  }

  /** Over any history of restarts and LAN changes the chain is our seven rules
      for the latest LAN, then everybody else's rules in their first order. */
  lemma {:induction false} RearmHistory(fws: seq<Firewall>, clients: Cidr, lans: seq<Cidr>, n: nat)
    requires Canonical(clients) && clients.len < 32
    requires |fws| == |lans| + 1 && 0 < n <= |lans|
    requires fws[0].user.Some? && Mentioning(fws[0].user.value, CidrText(clients)) <= PurgeLimit
    requires forall i :: 0 <= i < |lans| ==> ArmedOver(fws[i + 1], fws[i], clients, lans[i], true)
    ensures fws[n].user
         == Some(OurRules(clients, lans[n - 1], Refusal(fws[n].caps)) + Unmentioned(fws[0].user.value, CidrText(clients)))
  {
    var text := CidrText(clients);
    var tail := Unmentioned(fws[0].user.value, text);
    if n == 1 {
      var rest := fws[1].user.value[7..];
      NoMention(rest, text);
      assert fws[1].user.value == fws[1].user.value[..7] + rest;
    } else {
      RearmHistory(fws, clients, lans, n - 1);
      NoMention(tail, text);
      RearmReplaces(fws[n], fws[n - 1], clients, lans[n - 1], lans[n - 2], Refusal(fws[n - 1].caps), tail);
    }
  }

  /** Whatever is deleted from a chain that was armed, as long as the run loop's
      check still passes no new connection of a client escapes. */
  lemma CheckAfterDeletions(fw: Firewall, armed: Firewall, was: Firewall, clients: Cidr, lan: Cidr)
    requires Canonical(clients) && clients.len < 32
    requires ArmedOver(armed, was, clients, lan, true)
    requires was.user.Some? ==> Mentioning(was.user.value, CidrText(clients)) <= PurgeLimit
    requires Hooked(fw) && Subsequence(fw.user.value, armed.user.value) && fw.caps == armed.caps
    requires Exec(fw, Check(CatchAll(clients, Refusal(fw.caps)))).1
    ensures FailClosed(fw, clients, lan)
  {
    hide Subsequence, Exec, FailClosed, OurRules, Mentioning, Unmentioned, Canonical, CidrText, Refusal;
    var tail := armed.user.value[7..];
    NothingIsMentioned(CidrText(clients));
    TailHasNoCatchAll(clients, lan, tail);
    assert armed.user.value == armed.user.value[..7] + tail;
    ArmedCheckIsSound(fw, armed.user.value, tail, clients, lan, Refusal(fw.caps));
  }

  lemma NothingIsMentioned(text: string)
    ensures Mentioning([], text) == 0
  {
  }

  // Repair

  /** The catch-all is there, in the form this machine installs. */
  predicate Guarding(fw: Firewall, clients: Cidr)
  {
    Exec(fw, Check(CatchAll(clients, Refusal(fw.caps)))).1
  }

  lemma ArmedIsGuarding(fw: Firewall, was: Firewall, clients: Cidr, lan: Cidr)
    ensures ArmedOver(fw, was, clients, lan, true) ==> Guarding(fw, clients)
    ensures Armed(fw, Refusal(fw.caps), clients) ==> Guarding(fw, clients)
  {
    if ArmedOver(fw, was, clients, lan, true) {
      ArmedPasses(fw, clients, lan, Refusal(fw.caps));
    }
  }

  /** A machine just armed passes both checks, whatever its firewall can do. */
  lemma ArmedPassesChecks(fw: Firewall, was: Firewall, clients: Cidr, lan: Cidr)
    requires ArmedOver(fw, was, clients, lan, true) && Closed6(fw)
    ensures Armed(fw, Refusal(fw.caps), clients)
  {
    ArmedPasses(fw, clients, lan, Refusal(fw.caps));
  }

  /** The two checks, the second asked only when the first passes. */
  method ChecksPass(h: Host, b: BlockAction, clients: Cidr) returns (fine: bool)
    requires h.Valid() && b.Blocks()
    modifies h, b
    ensures h.Untouched() && |h.trace| > |old(h.trace)|
    ensures b.once && b.Blocks() && (old(b.once) ==> b.target == old(b.target))
    ensures h.fwSteady && old(b.Fits(h.fw.caps)) ==> b.Fits(h.fw.caps)
    ensures h.Truthful() ==> (fine <==> Armed(h.fw, b.target, clients))
  {
    hide Exec, Closed6;
    fine := KillSwitchArmed(h, b, clients);
    if fine {
      fine := Ipv6Blocked(h);
    }
  }

  /** Puts back what has been removed. Where both checks pass and are answered
      truthfully it changes nothing, ever. Where one of them fails it purges the
      other's rules too: from an armed chain every state on the way is shut
      exactly when the IPv6 rule was there, and without it lets nothing out
      exactly when the foreign rules alone let nothing out. */
  method RepairFirewall(h: Host, b: BlockAction, clients: Cidr, lan: Cidr)
    requires h.Valid() && b.Blocks()
    modifies h, b
    ensures h.Advanced() && h.issued == old(h.issued) && (h.rtSteady ==> h.rt == old(h.rt))
    ensures |h.trace| > |old(h.trace)|
    ensures b.Blocks() && (old(b.once) ==> b.once && b.target == old(b.target))
    ensures h.fwSteady && old(b.Fits(h.fw.caps)) ==> b.Fits(h.fw.caps)
    ensures h.Truthful() && old(b.once && Armed(h.fw, b.target, clients)) ==> h.FwKept()
    ensures h.fwSteady && old(b.Fits(h.fw.caps)) && old(Armed(h.fw, Refusal(h.fw.caps), clients)) ==> h.FwKept()
    ensures h.fwSteady && old(b.Fits(h.fw.caps)) && !old(Armed(h.fw, Refusal(h.fw.caps), clients)) ==>
        ArmedOver(h.fw, old(h.fw), clients, lan, true)
    ensures h.fwSteady && old(b.Fits(h.fw.caps)) && old(ArmedMachine(h.fw, clients, lan)) ==>
        WindowShows(h.trace, |old(h.trace)|, old(h.fw), clients, lan)
  {
    hide Closed6, ArmedOver, ArmedMachine, WindowShows, Rearming, Exec, JumpFirst, Shut, NothingNew, Has6;
    ghost var was, first := h.fw, |h.trace|;
    ghost var exact := h.fwSteady && b.Fits(h.fw.caps) && ArmedMachine(h.fw, clients, lan);
    if exact {
      MachinePasses(was, clients, lan);
    }
    var fine := ChecksPass(h, b, clients);
    if !fine {
      ghost var second := |h.trace|;
      var _, armedAt := ApplyKillSwitch(h, b, clients, lan);
      if exact {
        RepairedOver(h.trace, first, second, armedAt, was, clients, lan);
      }
    } else if exact {
      NothingMoves(h.trace, first, was, clients, lan);
    }
  }

  /** What re-arming an armed machine shows: nothing gets out on the way exactly
      when the foreign rules alone let nothing out, and it is never shut throughout. */
  ghost predicate Reopened(trace: seq<Snapshot>, first: nat, was: Firewall, clients: Cidr, lan: Cidr)
    requires first <= |trace| && ArmedMachine(was, clients, lan)
  {
    var seen := Firewalls(trace[first..]);
    && (AllClosed(seen, clients, lan) <==> FailClosed(Unguarded(was), clients, lan))
    && !AllShut(seen, clients, lan)
  }

  lemma RearmingReopens(trace: seq<Snapshot>, first: nat, armedAt: nat, was: Firewall, clients: Cidr, lan: Cidr)
    requires first <= armedAt <= |trace| && Rearming(trace, first, armedAt, was, clients, lan)
    requires ArmedMachine(was, clients, lan)
    ensures Reopened(trace, first, was, clients, lan)
  {
    hide ArmedMachine, Rearming, AllClosed, AllShut, Firewalls, FailClosed;
    RearmingOpens(trace, first, armedAt, was, clients, lan);
  }

  lemma MachineHooked(fw: Firewall, clients: Cidr, lan: Cidr)
    requires ArmedMachine(fw, clients, lan)
    ensures Hooked(fw) && JumpFirst(fw)
  {
  }

  lemma MachinePasses(fw: Firewall, clients: Cidr, lan: Cidr)
    requires ArmedMachine(fw, clients, lan)
    ensures Exec(fw, Check(CatchAll(clients, Refusal(fw.caps)))).1 && Hooked(fw) && fw.user.Some? && |fw.user.value| >= 7
  {
    ArmedPasses(fw, clients, lan, Refusal(fw.caps));
  }

  /** A re-arming is one still when the machine stood unchanged before it. */
  lemma RearmingFrom(
    trace: seq<Snapshot>, first: nat, second: nat, armedAt: nat, was: Firewall, clients: Cidr, lan: Cidr)
    requires first <= second <= armedAt <= |trace| && Rearming(trace, second, armedAt, was, clients, lan)
    requires forall i :: first <= i < second ==> trace[i].fw == was
    ensures Rearming(trace, first, armedAt, was, clients, lan)
  {
    hide Emptying, Shut, Purged, CidrText;
    PurgedNone(was, CidrText(clients));
  }

  /** From an armed machine on: every state is shut exactly when the IPv6 rule was
      there, and without it nothing gets out exactly when the foreign rules
      alone let nothing out. */
  ghost predicate WindowShows(trace: seq<Snapshot>, first: nat, was: Firewall, clients: Cidr, lan: Cidr)
    requires first <= |trace| && ArmedMachine(was, clients, lan)
  {
    var seen := Firewalls(trace[first..]);
    && (AllShut(seen, clients, lan) <==> Closed6(was))
    && (AllClosed(seen, clients, lan) <==> Closed6(was) || FailClosed(Unguarded(was), clients, lan))
  }

  lemma RepairedOver(
    trace: seq<Snapshot>, first: nat, second: nat, armedAt: nat, was: Firewall, clients: Cidr, lan: Cidr)
    requires first <= second <= armedAt <= |trace| && Rearming(trace, second, armedAt, was, clients, lan)
    requires forall i :: first <= i < second ==> trace[i].fw == was
    requires ArmedMachine(was, clients, lan) && !Closed6(was)
    ensures WindowShows(trace, first, was, clients, lan)
  {
    hide Closed6, Rearming, ArmedMachine, AllShut, AllClosed, FailClosed, Firewalls;
    RearmingFrom(trace, first, second, armedAt, was, clients, lan);
    RearmingOpens(trace, first, armedAt, was, clients, lan);
  }

  /** An armed machine that does not change is shut all the while. */
  lemma NothingMoves(trace: seq<Snapshot>, first: nat, was: Firewall, clients: Cidr, lan: Cidr)
    requires first <= |trace| && forall i :: first <= i < |trace| ==> trace[i].fw == was
    requires ArmedMachine(was, clients, lan) && Closed6(was)
    ensures WindowShows(trace, first, was, clients, lan)
  {
    hide OurRules, Guarded, FailClosed, CidrText, Mentioning, Closed6;
    var block := Refusal(was.caps);
    TailGuards(clients, lan, block, 0, was.user.value[7..]);
    assert was.user.value == was.user.value[..7] + was.user.value[7..];
    assert OurRules(clients, lan, block)[0..] == OurRules(clients, lan, block);
    GuardedFailsClosed(was, clients, lan);
    forall fw | fw in Firewalls(trace[first..])
      ensures fw == was
    {
      var i :| 0 <= i < |trace[first..]| && trace[first..][i].fw == fw;
      assert trace[first + i].fw == fw;
    }
  }

  /** Foreign rules that may do anything let something out, so without the IPv6
      rule the repair opens an armed machine for a moment. */
  lemma RepairOpens(fw: Firewall, clients: Cidr, lan: Cidr, block: Target, p: Packet, dev: string)
    requires ArmedChain(fw, clients, lan, block) && Unknowns(fw.forward) && Unknowns(fw.user.value[7..])
    requires Outbound(p, clients, lan) && !IsTunnel(dev)
    ensures !FailClosed(Unguarded(fw), clients, lan)
  {
    OthersAloneLetOut(Unguarded(fw), clients, lan, p, dev);
  }
}
