/** What a purge passes through, rule by rule, and what an armed chain lets out on the way. */
module Purge {
  import opened Prelude
  import opened Net
  import opened Decimal
  import opened Firewall
  import opened Chain

  const PurgeLimit: nat := 64

  /** The chain without its first rule that mentions the text. */
  function DropFirst(chain: seq<Rule>, text: string): seq<Rule>
  {
    if chain == [] then []
    else if Mentions(chain[0], text) then chain[1..]
    else [chain[0]] + DropFirst(chain[1..], text)
  }

  function Purged(chain: seq<Rule>, text: string, k: nat): seq<Rule>
  {
    if k == 0 then chain else DropFirst(Purged(chain, text, k - 1), text)
  }

  lemma WithoutCons(chain: seq<Rule>, num: nat)
    requires 0 < num < |chain|
    ensures chain[..num] + chain[num + 1..] == [chain[0]] + (chain[1..][..num - 1] + chain[1..][num..])
  {
  }

  lemma {:induction false} DropFirstAt(chain: seq<Rule>, text: string, num: nat)
    requires num <= |chain| && forall j :: 0 <= j < num ==> !Mentions(chain[j], text)
    requires num < |chain| ==> Mentions(chain[num], text)
    ensures DropFirst(chain, text) == if num < |chain| then chain[..num] + chain[num + 1..] else chain
  {
    hide Mentions;
    if num == 0 {
      assert num < |chain| ==> chain[..0] + chain[1..] == chain[1..];
    } else {
      var rest := chain[1..];
      assert forall j :: 0 <= j < num - 1 ==> rest[j] == chain[j + 1];
      assert num < |chain| ==> rest[num - 1] == chain[num];
      DropFirstAt(rest, text, num - 1);
      if num < |chain| {
        WithoutCons(chain, num);
      } else {
        assert chain == [chain[0]] + rest;
      }
    }
  }

  lemma {:induction false} NothingToDrop(chain: seq<Rule>, text: string)
    requires forall r :: r in chain ==> !Mentions(r, text)
    ensures DropFirst(chain, text) == chain
  {
    hide Mentions;
    assert forall j :: 0 <= j < |chain| ==> chain[j] in chain;
    DropFirstAt(chain, text, |chain|);
  }

  lemma DropTop(ours: seq<Rule>, tail: seq<Rule>, text: string, k: nat)
    requires k < |ours| && Mentions(ours[k], text)
    ensures DropFirst(ours[k..] + tail, text) == ours[k + 1..] + tail
  {
    hide Mentions;
    var chain := ours[k..] + tail;
    DropFirstAt(chain, text, 0);
    assert chain[..0] + chain[1..] == ours[k + 1..] + tail;
  }

  /** A purge of rules that all mention the text, above rules that do not, eats
      the former from the top and stops. */
  lemma {:induction false} PurgedFromTop(ours: seq<Rule>, tail: seq<Rule>, text: string, k: nat)
    requires (forall r :: r in ours ==> Mentions(r, text)) && forall r :: r in tail ==> !Mentions(r, text)
    ensures Purged(ours + tail, text, k) == if k < |ours| then ours[k..] + tail else tail
  {
    hide Mentions, DropFirst;
    assert ours[0..] == ours && ours[|ours|..] + tail == tail;
    if k > 0 {
      PurgedFromTop(ours, tail, text, k - 1);
      if k - 1 < |ours| {
        assert ours[k - 1] in ours;
        DropTop(ours, tail, text, k - 1);
      } else {
        NothingToDrop(tail, text);
      }
    }
  }

  /** The state of a firewall some way into a purge. */
  ghost predicate Emptying(fw: Firewall, was: Firewall, text: string)
  {
    was.user.Some? && exists k: nat :: k <= PurgeLimit && fw == WithUser(was, Purged(was.user.value, text, k))
  }

  function WithUser(fw: Firewall, chain: seq<Rule>): Firewall
  {
    fw.(user := Some(chain))
  }

  lemma PurgedNone(was: Firewall, text: string)
    requires was.user.Some?
    ensures Purged(was.user.value, text, 0) == was.user.value && Emptying(was, was, text)
  {
    assert was == WithUser(was, Purged(was.user.value, text, 0));
  }

  lemma PurgedNext(was: Firewall, text: string, k: nat)
    requires was.user.Some? && k < PurgeLimit
    ensures Purged(was.user.value, text, k + 1) == DropFirst(Purged(was.user.value, text, k), text)
    ensures Emptying(WithUser(was, Purged(was.user.value, text, k + 1)), was, text)
  {
  }

  lemma PurgedLast(was: Firewall, text: string)
    requires was.user.Some?
    ensures Emptying(WithUser(was, Purged(was.user.value, text, PurgeLimit)), was, text)
  {
  }

  lemma {:induction false} PurgedStays(chain: seq<Rule>, text: string, i: nat, k: nat)
    requires i <= k && Mentioning(Purged(chain, text, i), text) == 0
    ensures Purged(chain, text, k) == Purged(chain, text, i)
  {
    hide Mentions, DropFirst, Mentioning;
    if k > i {
      PurgedStays(chain, text, i, k - 1);
      NoMention(Purged(chain, text, i), text);
      NothingToDrop(Purged(chain, text, i), text);
    }
  }

  /** Our seven rules above rules that do not mention the subnet. */
  predicate ArmedChain(fw: Firewall, clients: Cidr, lan: Cidr, block: Target)
  {
    && fw.user.Some? && |fw.user.value| >= 7
    && fw.user.value[..7] == OurRules(clients, lan, block)
    && Mentioning(fw.user.value[7..], CidrText(clients)) == 0
  }

  /** The same machine with nothing but the foreign rules in the chain. */
  function Unguarded(fw: Firewall): Firewall
    requires fw.user.Some? && |fw.user.value| >= 7
  {
    WithUser(fw, fw.user.value[7..])
  }

  lemma OursMentionAll(clients: Cidr, lan: Cidr, block: Target)
    requires Canonical(clients) && clients.len < 32
    ensures forall r :: r in OurRules(clients, lan, block) ==> Mentions(r, CidrText(clients))
  {
    forall r | r in OurRules(clients, lan, block)
      ensures Mentions(r, CidrText(clients))
    {
      OursMention(clients, lan, block, r);
    }
  }

  /** Purging an armed chain leaves the last of our rules above the foreign ones,
      or the foreign ones alone. */
  lemma PurgedArmed(fw: Firewall, clients: Cidr, lan: Cidr, block: Target, k: nat)
    requires Canonical(clients) && clients.len < 32 && ArmedChain(fw, clients, lan, block)
    ensures Purged(fw.user.value, CidrText(clients), k)
         == if k < 7 then OurRules(clients, lan, block)[k..] + fw.user.value[7..] else fw.user.value[7..]
  {
    var tail, text := fw.user.value[7..], CidrText(clients);
    OursMentionAll(clients, lan, block);
    NoMention(tail, text);
    hide Mentions, OurRules, CidrText, Canonical;
    assert fw.user.value == OurRules(clients, lan, block) + tail;
    PurgedFromTop(OurRules(clients, lan, block), tail, text, k);
  }

  /** The jump first, and nothing escapes. */
  ghost predicate Shut(fw: Firewall, clients: Cidr, lan: Cidr)
  {
    Hooked(fw) && Guarded(fw.user.value, clients, lan)
  }

  lemma TailGuards(clients: Cidr, lan: Cidr, block: Target, k: nat, base: seq<Rule>)
    requires k <= 6 && block != Accept
    ensures Guarded(OurRules(clients, lan, block)[k..] + base, clients, lan)
  {
    var ours := OurRules(clients, lan, block);
    var chain := ours[k..] + base;
    assert forall j :: 0 <= j <= 6 - k ==> chain[j] == ours[j + k] && ours[j + k] in ours;
    assert GuardedAt(chain, clients, lan, 6 - k);
  }

  /** Some way into the purge of an armed machine it is still shut, or it has only
      the foreign rules left. */
  lemma EmptyingArmed(fw: Firewall, was: Firewall, clients: Cidr, lan: Cidr, block: Target)
    requires Canonical(clients) && clients.len < 32 && block != Accept
    requires Hooked(was) && ArmedChain(was, clients, lan, block) && Emptying(fw, was, CidrText(clients))
    ensures Shut(fw, clients, lan) || fw == Unguarded(was)
  {
    hide OurRules, CidrText, Canonical, Guarded;
    var k: nat :| k <= PurgeLimit && fw == WithUser(was, Purged(was.user.value, CidrText(clients), k));
    PurgedArmed(was, clients, lan, block, k);
    if k < 7 {
      TailGuards(clients, lan, block, k, was.user.value[7..]);
    }
  }

  /** What is left after a whole purge. */
  lemma PurgedWhole(was: Firewall, clients: Cidr, lan: Cidr, block: Target)
    requires Canonical(clients) && clients.len < 32 && ArmedChain(was, clients, lan, block)
    ensures WithUser(was, Purged(was.user.value, CidrText(clients), PurgeLimit)) == Unguarded(was)
  {
    PurgedArmed(was, clients, lan, block, PurgeLimit);
  }

  /** Foreign rules hold no catch-all of ours, so they never make a chain count as shut. */
  lemma UnguardedIsNotShut(was: Firewall, clients: Cidr, lan: Cidr, block: Target)
    requires Canonical(clients) && clients.len < 32 && ArmedChain(was, clients, lan, block)
    ensures !Shut(Unguarded(was), clients, lan)
  {
    var tail := was.user.value[7..];
    TailHasNoCatchAll(clients, lan, tail);
    hide IsCatchAll, IsOurs, Canonical, CidrText;
    assert forall k :: 0 <= k < |tail| ==> tail[k] in tail;
  }

  /** What lies below our rules holds no catch-all of ours, so that an armed check
      that succeeds has found the right one. */
  lemma TailHasNoCatchAll(clients: Cidr, lan: Cidr, tail: seq<Rule>)
    requires Canonical(clients) && clients.len < 32 && Mentioning(tail, CidrText(clients)) == 0
    ensures forall r :: r in tail ==> !IsCatchAll(r, clients)
  {
    NoMention(tail, CidrText(clients));
    CanonicalIsNetwork(clients);
    OursMention(clients, lan, Reject, CatchAll(Network(clients), Reject));
    OursMention(clients, lan, Drop, CatchAll(Network(clients), Drop));
  }

  /** Only other people's rules, and jumps. */
  predicate Unknowns(chain: seq<Rule>)
  {
    forall r :: r in chain ==> !r.Match?
  }

  function PassAll(): Others
  {
    (id, p, dev) => Passed
  }

  lemma {:induction false} OthersPass(chain: seq<Rule>, p: Packet, dev: string)
    requires Unknowns(chain)
    ensures ChainVerdict(chain, p, dev, PassAll()) == Passed
  {
    if chain != [] {
      assert chain[0] in chain;
      OthersPass(chain[1..], p, dev);
    }
  }

  lemma {:induction false} OthersPassTop(top: seq<Rule>, user: seq<Rule>, p: Packet, dev: string)
    requires Unknowns(top) && Unknowns(user)
    ensures TopVerdict(top, user, p, dev, PassAll()) == Passed
  {
    if top != [] {
      assert top[0] in top;
      OthersPass(user, p, dev);
      OthersPass([top[0]], p, dev);
      OthersPassTop(top[1..], user, p, dev);
    }
  }

  /** Rules nobody knows anything about keep nobody in. */
  lemma OthersAloneLetOut(fw: Firewall, clients: Cidr, lan: Cidr, p: Packet, dev: string)
    requires Unknowns(fw.forward) && (fw.user.Some? ==> Unknowns(fw.user.value))
    requires Outbound(p, clients, lan) && !IsTunnel(dev)
    ensures !FailClosed(fw, clients, lan)
  {
    OthersPassTop(fw.forward, if fw.user.Some? then fw.user.value else [], p, dev);
    assert ForwardVerdict(fw, p, dev, PassAll()) == Passed;
  }

  ghost predicate AllClosed(seen: seq<Firewall>, clients: Cidr, lan: Cidr)
  {
    forall fw :: fw in seen ==> FailClosed(fw, clients, lan)
  }

  ghost predicate AllShut(seen: seq<Firewall>, clients: Cidr, lan: Cidr)
  {
    forall fw :: fw in seen ==> Shut(fw, clients, lan)
  }

  /** Re-arming an armed machine: no state on the way lets anything out exactly
      when the foreign rules alone let nothing out. */
  lemma WindowIsExact(seen: seq<Firewall>, was: Firewall, clients: Cidr, lan: Cidr, block: Target)
    requires Canonical(clients) && clients.len < 32 && block != Accept
    requires Hooked(was) && ArmedChain(was, clients, lan, block)
    requires forall fw :: fw in seen ==> Emptying(fw, was, CidrText(clients)) || Shut(fw, clients, lan)
    requires Unguarded(was) in seen
    ensures AllClosed(seen, clients, lan) <==> FailClosed(Unguarded(was), clients, lan)
    ensures !AllShut(seen, clients, lan)
  {
    hide Canonical, CidrText, FailClosed, Emptying, OurRules, Mentioning, Guarded;
    UnguardedIsNotShut(was, clients, lan, block);
    forall fw | fw in seen
      ensures FailClosed(fw, clients, lan) || fw == Unguarded(was)
    {
      if Emptying(fw, was, CidrText(clients)) {
        EmptyingArmed(fw, was, clients, lan, block);
      }
      if Shut(fw, clients, lan) {
        GuardedFailsClosed(fw, clients, lan);
      }
    }
  }
}
