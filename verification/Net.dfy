/** IPv4 addresses and prefixes (section 3.1 of RFC 4632), as Go's net.IPNet
    compares them: two addresses are in the same network when they agree after
    the host bits are dropped. */
module Net {

  type Addr = a: int | 0 <= a < 0x1_0000_0000

  datatype Prefix = Prefix(base: Addr, len: nat)

  type Cidr = p: Prefix | p.len <= 32 witness Prefix(0, 0)

  function Pow2(n: nat): (r: nat)
    ensures r > 0
  {
    if n == 0 then 1 else 2 * Pow2(n - 1)
  }

  /** How many addresses a prefix covers. */
  function Size(p: Cidr): (r: nat)
    ensures r > 0
  {
    Pow2(32 - p.len)
  }

  predicate Contains(p: Cidr, a: Addr)
  {
    a / Size(p) == p.base / Size(p)
  }

  /** The prefix with its host bits cleared: what net.ParseCIDR and the kernel keep. */
  function Network(p: Cidr): (r: Cidr)
    ensures r.len == p.len && Canonical(r)
  {
    var base := p.base - p.base % Size(p);
    SameBlock(p.base, Size(p));
    Prefix(base, p.len)
  }

  lemma NetworkAgrees(p: Cidr)
    ensures forall a :: Contains(Network(p), a) <==> Contains(p, a)
  {
    SameBlock(p.base, Size(p));
  }

  predicate Canonical(p: Cidr)
  {
    p.base % Size(p) == 0
  }

  function Single(a: Addr): Cidr
  {
    Prefix(a, 32)
  }

  lemma SingleIsOne(a: Addr, b: Addr)
    ensures Contains(Single(a), b) <==> b == a
  {
    assert Size(Single(a)) == 1;
  }

  lemma SameBlock(a: int, size: nat)
    requires a >= 0 && size > 0
    ensures (a - a % size) / size == a / size
    ensures (a - a % size) % size == 0
    ensures 0 <= a - a % size <= a
  {
    var q := a / size;
    assert a - a % size == q * size + 0;
    DivUnique(a - a % size, size, q, 0);
  }

  lemma TimesAtLeast(a: int, m: int)
    requires a >= 1 && m > 0
    ensures a * m >= m
  {
    assert a * m == (a - 1) * m + m;
  }

  /** Quotient and remainder are unique. */
  lemma DivUnique(x: int, m: int, q: int, r: int)
    requires m > 0 && 0 <= r < m && x == q * m + r
    ensures x / m == q && x % m == r
  {
    var d, e := x / m, x % m;
    assert x == d * m + e;
    assert (q - d) * m == e - r;
    assert (d - q) * m == r - e;
    if q > d {
      TimesAtLeast(q - d, m);
    } else if q < d {
      TimesAtLeast(d - q, m);
    }
  }

  lemma {:induction false} Pow2Sum(m: nat, n: nat)
    ensures Pow2(m + n) == Pow2(m) * Pow2(n)
  {
    if m > 0 {
      Pow2Sum(m - 1, n);
    }
  }

  lemma Regroup(q: int, k: int, r: int, m: int)
    ensures (q * k + r) * m == q * (m * k) + r * m
  {
    assert (q * k + r) * m == (q * k) * m + r * m;
    assert (q * k) * m == q * (k * m);
  }

  lemma DivDiv(x: int, m: nat, k: nat)
    requires x >= 0 && m > 0 && k > 0
    ensures m * k > 0 && x / (m * k) == (x / m) / k
  {
    var q, r := x / m, x % m;
    var q2, r2 := q / k, q % k;
    var rest := r2 * m + r;
    TimesAtLeast(m, k);
    Regroup(q2, k, r2, m);
    Regroup(1, k, -r2 - 1, m);
    if r2 >= 1 {
      TimesAtLeast(r2, m);
    }
    if k - r2 - 1 >= 1 {
      TimesAtLeast(k - r2 - 1, m);
    }
    DivUnique(x, m * k, q2, rest);
  }

  /** A longer prefix lies inside any shorter one it touches. */
  lemma Nested(p: Cidr, q: Cidr, a: Addr, b: Addr)
    requires p.len <= q.len && a / Size(q) == b / Size(q)
    ensures a / Size(p) == b / Size(p)
  {
    var k := Pow2(q.len - p.len);
    Pow2Sum(32 - q.len, q.len - p.len);
    DivDiv(a, Size(q), k);
    DivDiv(b, Size(q), k);
  }

  ghost predicate Overlap(p: Cidr, q: Cidr)
  {
    exists a: Addr :: Contains(p, a) && Contains(q, a)
  }

  /** Testing each network's first address against the other one is enough: the
      two tests detect an overlap exactly when the networks share an address. */
  lemma OverlapTestExact(p: Cidr, q: Cidr)
    ensures Contains(p, Network(q).base) || Contains(q, Network(p).base) <==> Overlap(p, q)
  {
    NetworkAgrees(p);
    NetworkAgrees(q);
    assert Contains(q, Network(q).base) && Contains(p, Network(p).base);
    forall a: Addr | Contains(p, a) && Contains(q, a)
      ensures Contains(p, Network(q).base) || Contains(q, Network(p).base)
    {
      if p.len <= q.len {
        Nested(p, q, Network(q).base, a);
      } else {
        Nested(q, p, Network(p).base, a);
      }
    }
  }
}
