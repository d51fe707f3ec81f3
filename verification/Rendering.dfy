/** The plan rendered as text, which the run loop compares to tell whether
    anything changed. */
module Rendering {
  import opened Prelude
  import opened Net
  import opened Decimal
  import opened Sorting
  import opened Config
  import opened Tunnels
  import opened Plan

  predicate Before(a: Addr, b: Addr)
  {
    Less(AddrText(a), AddrText(b))
  }

  ghost predicate InTextOrder(order: seq<Addr>)
  {
    forall i, j :: 0 <= i < j < |order| ==> Before(order[i], order[j])
  }

  /** The keys of a map in text order, each once. */
  ghost predicate SortedKeys(order: seq<Addr>, pins: map<Addr, string>)
  {
    InTextOrder(order) && forall ip :: ip in order <==> ip in pins
  }

  function Join(names: seq<string>): string
  {
    if names == [] then "" else if |names| == 1 then names[0] else names[0] + [' '] + Join(names[1..])
  }

  function Entry(ip: Addr, name: string): string
  {
    EntryText("; ", AddrText(ip), "pinned to ", name)
  }

  function EntryText(open: string, ip: string, verb: string, name: string): string
  {
    open + (ip + [' '] + (verb + name))
  }

  function Entries(order: seq<Addr>, pins: map<Addr, string>): string
    requires forall ip :: ip in order ==> ip in pins
  {
    if order == [] then ""
    else
      assert order[0] in order;
      Entry(order[0], pins[order[0]]) + Entries(order[1..], pins)
  }

  function Render(p: Plan, order: seq<Addr>): string
    requires forall ip :: ip in order ==> ip in p.pins
  {
    if p.live == [] then "no " + "live tunnels - all client traffic is blocked"
    else Sentence("bonded ", Digits(|p.bond|), "tunnel(s): ", Join(p.bond), Entries(order, p.pins))
  }

  function Sentence(open: string, count: string, verb: string, names: string, rest: string): string
  {
    open + (count + [' '] + (verb + (names + rest)))
  }

  /** s is the text of p. */
  ghost predicate IsSignature(s: string, p: Plan)
  {
    exists order :: SortedKeys(order, p.pins) && s == Render(p, order)
  }

  function SortKeys(walk: seq<Addr>): (r: seq<Addr>)
    ensures forall x :: x in r <==> x in walk
  {
    Sort(walk, AddrText)
  }

  lemma SortAscends(walk: seq<Addr>)
    requires Distinct(walk)
    ensures InTextOrder(SortKeys(walk))
  {
    forall a, b | AddrText(a) == AddrText(b)
      ensures a == b
    {
      AddrTextInjective(a, b);
    }
    SortIsAscending(walk, AddrText);
  }

  lemma {:induction false} EntriesSnoc(order: seq<Addr>, i: nat, pins: map<Addr, string>)
    requires i < |order| && forall ip :: ip in order ==> ip in pins
    ensures order[i] in pins
    ensures Entries(order[..i + 1], pins) == Entries(order[..i], pins) + Entry(order[i], pins[order[i]])
  {
    hide Entry;
    assert order[i] in order;
    if i == 0 {
      assert order[..1] == [order[0]] && [order[0]][1..] == [] && order[..0] == [];
    } else {
      EntriesSnoc(order[1..], i - 1, pins);
      assert order[..i + 1][1..] == order[1..][..i] && order[..i][1..] == order[1..][..i - 1];
    }
  }

  /** Renders the plan. walk is the order the map happens to be walked in. */
  method Describe(p: Plan, walk: seq<Addr>) returns (s: string)
    requires Distinct(walk) && forall ip :: ip in walk <==> ip in p.pins
    ensures IsSignature(s, p)
  {
    var order := SortKeys(walk);
    SortAscends(walk);
    assert SortedKeys(order, p.pins);
    if p.live == [] {
      return "no " + "live tunnels - all client traffic is blocked";
    }
    var pins := "";
    for i := 0 to |order|
      invariant pins == Entries(order[..i], p.pins)
    {
      EntriesSnoc(order, i, p.pins);
      pins := pins + Entry(order[i], p.pins[order[i]]);
    }
    assert order[..|order|] == order;
    s := Sentence("bonded ", Digits(|p.bond|), "tunnel(s): ", Join(p.bond), pins);
  }

  // Deterministic

  lemma {:induction false} AscendingUnique(a: seq<Addr>, b: seq<Addr>)
    requires InTextOrder(a) && InTextOrder(b) && forall ip :: ip in a <==> ip in b
    ensures a == b
  {
    assert b != [] ==> b[0] in b;
    if a != [] {
      assert a[0] in a && b != [];
      FirstAgrees(a, b);
      assert forall i :: 0 <= i < |a[1..]| ==> a[1..][i] == a[i + 1];
      assert forall i :: 0 <= i < |b[1..]| ==> b[1..][i] == b[i + 1];
      forall ip
        ensures ip in a[1..] <==> ip in b[1..]
      {
        NotRepeated(a);
        NotRepeated(b);
        assert ip in a <==> ip == a[0] || ip in a[1..];
        assert ip in b <==> ip == b[0] || ip in b[1..];
      }
      AscendingUnique(a[1..], b[1..]);
    }
  }

  lemma NotRepeated(a: seq<Addr>)
    requires InTextOrder(a) && a != []
    ensures a[0] !in a[1..]
  {
    if a[0] in a[1..] {
      var i :| 0 <= i < |a[1..]| && a[1..][i] == a[0];
      LessAsymmetric(AddrText(a[0]), AddrText(a[i + 1]));
    }
  }

  lemma FirstAgrees(a: seq<Addr>, b: seq<Addr>)
    requires InTextOrder(a) && InTextOrder(b) && (forall ip :: ip in a <==> ip in b) && a != [] && b != []
    ensures a[0] == b[0]
  {
    assert a[0] in a && b[0] in b;
    var i :| 0 <= i < |b| && b[i] == a[0];
    var j :| 0 <= j < |a| && a[j] == b[0];
    if i > 0 && j > 0 {
      LessAsymmetric(AddrText(b[0]), AddrText(b[i]));
    }
  }

  /** The text does not depend on the order the map was walked in. */
  lemma SignatureIsDeterministic(s: string, t: string, p: Plan)
    requires IsSignature(s, p) && IsSignature(t, p)
    ensures s == t
  {
    var a :| SortedKeys(a, p.pins) && s == Render(p, a);
    var b :| SortedKeys(b, p.pins) && t == Render(p, b);
    AscendingUnique(a, b);
  }

  // Injective

  predicate Plain(name: string)
  {
    ' ' !in name && ';' !in name
  }

  ghost predicate PlainNames(p: Plan)
  {
    && (forall n :: n in p.bond ==> Plain(n))
    && (forall ip :: ip in p.pins ==> p.pins[ip] in p.bond)
  }

  /** Text after a name: nothing, or the next entry. */
  predicate Continues(s: string)
  {
    s == "" || s[0] == ';'
  }

  lemma CutAtSemicolon(a: string, x: string, b: string, y: string)
    requires ';' !in a && ';' !in b && Continues(x) && Continues(y) && a + x == b + y
    ensures a == b && x == y
  {
    var s, t := a + x, b + y;
    assert forall i :: 0 <= i < |a| ==> s[i] == a[i] != ';';
    assert forall i :: 0 <= i < |b| ==> t[i] == b[i] != ';';
    assert |a| < |s| ==> s[|a|] == ';';
    assert |b| < |t| ==> t[|b|] == ';';
    assert |a| == |b|;
    assert a == s[..|a|] && b == t[..|b|] && x == s[|a|..] && y == t[|b|..];
  }

  lemma {:induction false} JoinPlain(names: seq<string>)
    requires forall n :: n in names ==> Plain(n)
    ensures ';' !in Join(names)
  {
    if names != [] {
      assert names[0] in names;
      assert forall n :: n in names[1..] ==> n in names;
      JoinPlain(names[1..]);
    }
  }

  lemma {:induction false} JoinInjective(a: seq<string>, b: seq<string>)
    requires (forall n :: n in a ==> Plain(n)) && (forall n :: n in b ==> Plain(n))
    requires |a| == |b| && Join(a) == Join(b)
    ensures a == b
  {
    if a == [] {
    } else {
      assert a[0] in a && b[0] in b;
      if |a| == 1 {
        assert a == [a[0]] && b == [b[0]];
      } else {
        SplitAt(a[0], b[0], Join(a[1..]), Join(b[1..]), ' ');
        assert (forall n :: n in a[1..] ==> n in a) && (forall n :: n in b[1..] ==> n in b);
        JoinInjective(a[1..], b[1..]);
        assert a == [a[0]] + a[1..] && b == [b[0]] + b[1..];
      }
    }
  }

  lemma EntriesContinue(order: seq<Addr>, pins: map<Addr, string>)
    requires forall ip :: ip in order ==> ip in pins
    ensures Continues(Entries(order, pins)) && (Entries(order, pins) == "" <==> order == [])
  {
    if order != [] {
      assert order[0] in order;
      assert Entry(order[0], pins[order[0]])[0] == ';';
    }
  }

  lemma DropPrefix(open: string, x: string, y: string)
    requires open + x == open + y
    ensures x == y
  {
    assert (open + x)[|open|..] == x && (open + y)[|open|..] == y;
  }

  lemma EntryParts(open: string, verb: string, ip: string, n: string, x: string, ip': string, n': string, x': string)
    requires ' ' !in ip && ' ' !in ip' && ';' !in n && ';' !in n' && Continues(x) && Continues(x')
    requires EntryText(open, ip, verb, n) + x == EntryText(open, ip', verb, n') + x'
    ensures ip == ip' && n == n' && x == x'
  {
    var t, t' := verb + (n + x), verb + (n' + x');
    assert EntryText(open, ip, verb, n) + x == open + (ip + [' '] + t);
    assert EntryText(open, ip', verb, n') + x' == open + (ip' + [' '] + t');
    DropPrefix(open, ip + [' '] + t, ip' + [' '] + t');
    SplitAt(ip, ip', t, t', ' ');
    DropPrefix(verb, n + x, n' + x');
    CutAtSemicolon(n, x, n', x');
  }

  lemma EntryInjective(ip: Addr, n: string, x: string, ip': Addr, n': string, x': string)
    requires Plain(n) && Plain(n') && Continues(x) && Continues(x')
    requires Entry(ip, n) + x == Entry(ip', n') + x'
    ensures ip == ip' && n == n' && x == x'
  {
    EntryParts("; ", "pinned to ", AddrText(ip), n, x, AddrText(ip'), n', x');
    AddrTextInjective(ip, ip');
  }

  lemma {:induction false} EntriesInjective(a: seq<Addr>, p: map<Addr, string>, b: seq<Addr>, q: map<Addr, string>)
    requires (forall ip :: ip in a ==> ip in p && Plain(p[ip])) && (forall ip :: ip in b ==> ip in q && Plain(q[ip]))
    requires Entries(a, p) == Entries(b, q)
    ensures a == b && forall ip :: ip in a ==> p[ip] == q[ip]
  {
    EntriesContinue(a, p);
    EntriesContinue(b, q);
    if a != [] && b != [] {
      assert a[0] in a && b[0] in b;
      EntriesContinue(a[1..], p);
      EntriesContinue(b[1..], q);
      EntryInjective(a[0], p[a[0]], Entries(a[1..], p), b[0], q[b[0]], Entries(b[1..], q));
      EntriesInjective(a[1..], p, b[1..], q);
      assert a == [a[0]] + a[1..] && b == [b[0]] + b[1..];
    }
  }

  lemma SentenceParts(
    open: string, verb: string, c: string, n: string, x: string, c': string, n': string, x': string)
    requires ' ' !in c && ' ' !in c' && ';' !in n && ';' !in n' && Continues(x) && Continues(x')
    requires Sentence(open, c, verb, n, x) == Sentence(open, c', verb, n', x')
    ensures c == c' && n == n' && x == x'
  {
    var t, t' := verb + (n + x), verb + (n' + x');
    DropPrefix(open, c + [' '] + t, c' + [' '] + t');
    SplitAt(c, c', t, t', ' ');
    DropPrefix(verb, n + x, n' + x');
    CutAtSemicolon(n, x, n', x');
  }

  lemma LivePlansDiffer(p: Plan, a: seq<Addr>, q: Plan, b: seq<Addr>)
    requires PlainNames(p) && PlainNames(q) && p.live != [] && q.live != []
    requires SortedKeys(a, p.pins) && SortedKeys(b, q.pins) && Render(p, a) == Render(q, b)
    ensures p.bond == q.bond && p.pins == q.pins
  {
    hide Digits, Sentence, Join, Entries, AddrText, Before;
    JoinPlain(p.bond);
    JoinPlain(q.bond);
    EntriesContinue(a, p.pins);
    EntriesContinue(b, q.pins);
    SentenceParts("bonded ", "tunnel(s): ", Digits(|p.bond|), Join(p.bond), Entries(a, p.pins),
                  Digits(|q.bond|), Join(q.bond), Entries(b, q.pins));
    ValueOfDigits(|p.bond|);
    ValueOfDigits(|q.bond|);
    JoinInjective(p.bond, q.bond);
    EntriesInjective(a, p.pins, b, q.pins);
    assert p.pins.Keys == q.pins.Keys;
  }

  lemma FirstLetter(p: Plan, order: seq<Addr>)
    requires forall ip :: ip in order ==> ip in p.pins
    ensures Render(p, order) != [] && Render(p, order)[0] == if p.live == [] then 'n' else 'b'
  {
    var open := "bonded ";
    assert open[0] == 'b';
    assert p.live != [] ==> Render(p, order)[0] == open[0];
    var closed := "no ";
    assert closed[0] == 'n';
    assert p.live == [] ==> Render(p, order)[0] == closed[0];
  }

  /** The tables depend only on the clients and on how many tunnels are live. */
  lemma SameTables(c: Settings, ts: seq<Tunnel>, p: Plan, us: seq<Tunnel>, q: Plan)
    requires IsPlan(p, c, ts) && IsPlan(q, c, us) && |p.live| == |q.live|
    ensures p.pinTable == q.pinTable
  {
    hide LiveOnes, LastIndex, Slot;
    forall ip
      ensures ip in p.pinTable <==> ip in q.pinTable
      ensures ip in p.pinTable ==> q.pinTable[ip] == p.pinTable[ip]
    {
      if ip in p.pinTable {
        assert ip in p.pins && ip in q.pins;
        assert (p.pins[ip], p.pinTable[ip]) == Hand(c.pinned, p.live, ip);
        assert (q.pins[ip], q.pinTable[ip]) == Hand(c.pinned, q.live, ip);
      }
    }
    assert p.pinTable.Keys == q.pinTable.Keys;
  }

  /** Equal texts mean equal plans: bond, pins and tables. That is what makes it
      sound to skip a plan whose text has not changed. */
  lemma SignatureIsInjective(s: string, c: Settings, ts: seq<Tunnel>, p: Plan, us: seq<Tunnel>, q: Plan)
    requires IsPlan(p, c, ts) && IsPlan(q, c, us) && IsSignature(s, p) && IsSignature(s, q)
    requires PlainNames(p) && PlainNames(q)
    ensures p.bond == q.bond && p.pins == q.pins && p.pinTable == q.pinTable
  {
    hide LiveOnes, LastIndex, Slot, Hand, Render, Before;
    var a :| SortedKeys(a, p.pins) && s == Render(p, a);
    var b :| SortedKeys(b, q.pins) && s == Render(q, b);
    FirstLetter(p, a);
    FirstLetter(q, b);
    if p.live != [] {
      LivePlansDiffer(p, a, q, b);
      SameTables(c, ts, p, us, q);
    } else {
      assert q.live == [];
      assert p.pins == map[] && q.pins == map[] && p.pinTable == map[] && q.pinTable == map[];
    }
  }
}
