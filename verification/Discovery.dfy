/** Discovery: which normalised copies a pass over the tunnel directory yields,
    and exactly when they are the right ones on every pass. */
module Discovery {
  import opened Prelude
  import opened Normalise
  import opened SafeNames

  /** A file's text and modification time. */
  datatype File = File(text: string, at: int)

  /** Copies are named by safe name. The clock is the newest time given out; each
      write gets a later one. */
  datatype Dir = Dir(sources: map<string, File>, copies: map<string, File>, clock: int)

  datatype Refusal = BadName(name: NameError) | Unusable(why: Rejection)

  function PutSource(d: Dir, name: string, text: string): Dir
  {
    d.(sources := d.sources[name := File(text, d.clock + 1)], clock := d.clock + 1)
  }

  function PutCopy(d: Dir, name: string, text: string): Dir
  {
    d.(copies := d.copies[name := File(text, d.clock + 1)], clock := d.clock + 1)
  }

  /** A copy at least as new as its source is taken as it is. */
  predicate UpToDate(d: Dir, src: string, name: string)
    requires src in d.sources
  {
    name in d.copies && d.sources[src].at <= d.copies[name].at
  }

  /** The usable copy of one source, made or refreshed only when the source is newer. */
  function Copied(d: Dir, src: string, w: Wording): (r: (Dir, Result<string, Refusal>))
    requires src in d.sources
    ensures r.0.sources == d.sources
  {
    match SafeName(src)
    case Err(e) => (d, Err(BadName(e)))
    case Ok(name) =>
      if UpToDate(d, src, name) then (d, Ok(name))
      else
        var text := d.sources[src].text;
        match Fault(text)
        case Some(why) => (d, Err(Unusable(why)))
        case None => (PutCopy(d, name, Normalised(text, w)), Ok(name))
  }

  /** Every listed .conf file in turn; what is refused is left out. */
  function Discovered(d: Dir, entries: seq<string>, w: Wording): (r: (Dir, seq<string>))
    requires forall s :: s in entries ==> s in d.sources
    ensures r.0.sources == d.sources
    decreases |entries|
  {
    if entries == [] then (d, [])
    else
      var src := entries[|entries| - 1];
      var (d', found) := Discovered(d, entries[..|entries| - 1], w);
      if !IsConf(src) then (d', found)
      else
        var (d'', r) := Copied(d', src, w);
        (d'', if r.Ok? then found + [r.value] else found)
  }

  // Coherence

  /** A source the daemon can run. */
  predicate Usable(src: string, text: string)
  {
    SafeName(src).Ok? && Fault(text) == None
  }

  predicate Stamped(d: Dir)
  {
    (forall s :: s in d.sources ==> d.sources[s].at <= d.clock) && (forall n :: n in d.copies ==> d.copies[n].at <= d.clock)
  }

  /** Two files the daemon looks at come down to one safe name. */
  predicate Shares(s: string, t: string)
  {
    s != t && IsConf(s) && IsConf(t) && SafeName(s).Ok? && SafeName(s) == SafeName(t)
  }

  predicate DistinctNames(sources: map<string, File>)
  {
    forall s, t :: s in sources && t in sources ==> !Shares(s, t)
  }

  /** A file that shares a usable file's name is itself no use, and the usable
      one's copy is already there. */
  predicate NoClash(d: Dir)
  {
    forall s, t :: s in d.sources && t in d.sources && Shares(s, t) && Usable(s, d.sources[s].text) ==>
      !Usable(t, d.sources[t].text) && UpToDate(d, s, SafeName(s).value)
  }

  /** A copy that counts as current is what normalising its source now would give. */
  predicate Current(d: Dir, src: string, w: Wording)
    requires src in d.sources
  {
    SafeName(src).Ok? && UpToDate(d, src, SafeName(src).value) ==>
      Fault(d.sources[src].text) == None && d.copies[SafeName(src).value].text == Normalised(d.sources[src].text, w)
  }

  predicate Coherent(d: Dir, w: Wording)
  {
    Stamped(d) && NoClash(d) && forall s :: s in d.sources && IsConf(s) ==> Current(d, s, w)
  }

  /** Distinct names cannot clash, so that keeping them distinct keeps the directory
      coherent. */
  lemma UnlessNamesClash(d: Dir)
    ensures DistinctNames(d.sources) ==> NoClash(d)
  {
    hide SafeName, Shares, Usable;
  }

  lemma StillDistinct(d: Dir, name: string, copies: set<string>)
    ensures DistinctNames(d.sources) ==>
        DistinctNames(d.sources - {name}) && NoClash(d.(sources := d.sources - {name}, copies := d.copies - copies))
  {
    hide SafeName, Shares, Usable;
    UnlessNamesClash(d.(sources := d.sources - {name}, copies := d.copies - copies));
  }

  /** Dropping a file in, or editing one, leaves every copy in step or behind. */
  lemma PutKeepsCoherent(d: Dir, name: string, text: string, w: Wording)
    requires Stamped(d)
    ensures Stamped(PutSource(d, name, text))
    ensures Coherent(d, w) && NoClash(PutSource(d, name, text)) ==> Coherent(PutSource(d, name, text), w)
  {
    hide SafeName, Fault, Normalised, NoClash, IsConf;
    var d' := PutSource(d, name, text);
    if Coherent(d, w) && NoClash(d') {
      forall s | s in d'.sources && IsConf(s)
        ensures Current(d', s, w)
      {
        if s != name {
          assert Current(d, s, w);
        }
      }
    }
  }

  /** So does removing one, with or without its copy. */
  lemma RemovalKeepsCoherent(d: Dir, name: string, copies: set<string>, w: Wording)
    requires Stamped(d)
    ensures var d' := d.(sources := d.sources - {name}, copies := d.copies - copies);
      Stamped(d') && (Coherent(d, w) && NoClash(d') ==> Coherent(d', w))
  {
    hide SafeName, Fault, Normalised, NoClash, IsConf;
    var d' := d.(sources := d.sources - {name}, copies := d.copies - copies);
    if Coherent(d, w) && NoClash(d') {
      forall s | s in d'.sources && IsConf(s)
        ensures Current(d', s, w)
      {
        assert Current(d, s, w);
      }
    }
  }

  /** By time alone: a copy no older than its file is left as it is; an older one, or
      none, is made anew from a file that can be used, and any other file writes
      nothing. */
  lemma CopiedByTime(d: Dir, src: string, n: string, w: Wording)
    requires src in d.sources && SafeName(src) == Ok(n)
    ensures var (d', r) := Copied(d, src, w);
      if n in d.copies && d.copies[n].at >= d.sources[src].at then d' == d && r == Ok(n)
      else if !Acceptable(d.sources[src].text) then d' == d && r.Err?
      else
        && r == Ok(n) && d'.sources == d.sources && d'.clock > d.clock
        && d'.copies == d.copies[n := File(Normalised(d.sources[src].text, w), d'.clock)]
  {
    FaultExactly(d.sources[src].text);
    hide SafeName, Fault, Normalised, Acceptable, FirstWrong, UpToDate, Copied;
    CopiedCases(d, src, n, w);
    assert UpToDate(d, src, n) <==> n in d.copies && d.copies[n].at >= d.sources[src].at by {
      UpToDateMeans(d, src, n);
    }
  }

  lemma UpToDateMeans(d: Dir, src: string, n: string)
    requires src in d.sources
    ensures UpToDate(d, src, n) <==> n in d.copies && d.copies[n].at >= d.sources[src].at
  {
  }

  lemma CopiedCases(d: Dir, src: string, n: string, w: Wording)
    requires src in d.sources && SafeName(src) == Ok(n)
    ensures UpToDate(d, src, n) ==> Copied(d, src, w) == (d, Ok(n))
    ensures !UpToDate(d, src, n) && Fault(d.sources[src].text).Some? ==>
        Copied(d, src, w).0 == d && Copied(d, src, w).1.Err?
    ensures !UpToDate(d, src, n) && Fault(d.sources[src].text) == None ==>
        Copied(d, src, w) == (PutCopy(d, n, Normalised(d.sources[src].text, w)), Ok(n))
  {
    hide SafeName, Fault, Normalised, UpToDate;
  }

  /** Taking up a source makes no copy stale. */
  lemma CopiedOnlyRefreshes(d: Dir, src: string, w: Wording)
    requires Stamped(d) && src in d.sources
    ensures var d' := Copied(d, src, w).0;
      && Stamped(d') && d.clock <= d'.clock
      && (forall t, n :: t in d.sources && UpToDate(d, t, n) ==> UpToDate(d', t, n))
      && (forall n :: n in d'.copies && (n !in d.copies || d'.copies[n] != d.copies[n]) ==> d.clock < d'.copies[n].at)
  {
    hide SafeName, Fault, Normalised;
  }

  /** Taking up one source: it succeeds exactly for a usable source, leaves its
      copy current, and writes nothing when the copy was. */
  lemma CopiedIsCurrent(d: Dir, src: string, w: Wording)
    requires Coherent(d, w) && src in d.sources && IsConf(src)
    ensures var (d', r) := Copied(d, src, w);
      && Coherent(d', w)
      && (r.Ok? <==> Usable(src, d.sources[src].text))
      && (r.Ok? ==> SafeName(src) == Ok(r.value) && UpToDate(d', src, r.value))
      && (SafeName(src).Ok? && UpToDate(d, src, SafeName(src).value) ==> d' == d)
  {
    hide SafeName, Fault, Normalised, IsConf, NoClash, Stamped;
    assert Current(d, src, w);
    CopiedOnlyRefreshes(d, src, w);
    CopiedKeepsNoClash(d, src, w);
    var (d', r) := Copied(d, src, w);
    if r.Ok? {
      CopiedTakes(d, src, r.value, w);
    }
    forall s | s in d'.sources && IsConf(s)
      ensures Current(d', s, w)
    {
      assert Current(d, s, w);
      if s != src && SafeName(s) == SafeName(src) && d' != d {
        ClashMeansUpToDate(d, src, s);
      }
    }
  }

  lemma ClashMeansUpToDate(d: Dir, s: string, t: string)
    requires NoClash(d) && s in d.sources && t in d.sources && Shares(s, t) && Usable(s, d.sources[s].text)
    ensures UpToDate(d, s, SafeName(s).value) && !Usable(t, d.sources[t].text)
  {
    hide Shares, Usable;
  }

  lemma CopiedKeepsNoClash(d: Dir, src: string, w: Wording)
    requires Stamped(d) && NoClash(d) && src in d.sources
    ensures NoClash(Copied(d, src, w).0)
  {
    CopiedOnlyRefreshes(d, src, w);
    hide SafeName, Shares, Usable, UpToDate, Copied, Stamped;
  }

  /** Source s is what the copy named n is for. */
  predicate Serves(d: Dir, s: string, n: string)
  {
    s in d.sources && IsConf(s) && Usable(s, d.sources[s].text) && SafeName(s) == Ok(n)
  }

  lemma ServersDoNotShare(d: Dir, s: string, t: string, n: string)
    requires NoClash(d) && Serves(d, s, n) && Serves(d, t, n)
    ensures s == t
  {
    hide IsConf, UpToDate, SafeName, Fault;
  }

  lemma ServedSnoc(d: Dir, before: seq<string>, src: string, n: string)
    ensures (exists s :: s in before + [src] && Serves(d, s, n)) <==>
      (exists s :: s in before && Serves(d, s, n)) || Serves(d, src, n)
  {
    hide Serves;
    if s :| s in before && Serves(d, s, n) {
      assert s in before + [src];
    }
    assert src in before + [src];
  }

  /** One pass over a coherent directory: each usable file's copy once, and nothing else. */
  lemma {:induction false} DiscoveryIsExact(d: Dir, entries: seq<string>, w: Wording)
    requires Coherent(d, w) && Distinct(entries) && forall s :: s in entries ==> s in d.sources
    ensures var (d', found) := Discovered(d, entries, w);
      && Coherent(d', w) && Distinct(found)
      && forall n :: n in found <==> exists s :: s in entries && Serves(d, s, n)
    decreases |entries|
  {
    hide SafeName, Fault, Normalised, IsConf, NoClash, Stamped, Coherent, Current, UpToDate, Copied, Usable;
    if entries != [] {
      var before, src := entries[..|entries| - 1], entries[|entries| - 1];
      assert entries == before + [src] && src in entries && src !in before;
      assert forall s :: s in before ==> s in entries;
      DiscoveryIsExact(d, before, w);
      var (d1, found1) := Discovered(d, before, w);
      CoherentMeans(d, w);
      if IsConf(src) {
        CopiedIsCurrent(d1, src, w);
        var (d2, r) := Copied(d1, src, w);
        if r.Ok? {
          assert Serves(d, src, r.value);
          if r.value in found1 {
            var s :| s in before && Serves(d, s, r.value);
            ServersDoNotShare(d, s, src, r.value);
          }
        }
      }
      forall n
        ensures n in Discovered(d, entries, w).1 <==> exists s :: s in entries && Serves(d, s, n)
      {
        ServedSnoc(d, before, src, n);
      }
    }
  }

  lemma CoherentMeans(d: Dir, w: Wording)
    requires Coherent(d, w)
    ensures Stamped(d) && NoClash(d)
  {
  }

  /** With every copy up to date, looking writes nothing. */
  lemma {:induction false} DiscoveryIsQuiet(d: Dir, entries: seq<string>, w: Wording)
    requires Coherent(d, w) && forall s :: s in entries ==> s in d.sources
    requires forall s, n :: s in entries && Serves(d, s, n) ==> UpToDate(d, s, n)
    ensures Discovered(d, entries, w).0 == d
    decreases |entries|
  {
    hide SafeName, Fault, Normalised, IsConf, Coherent, Current, Copied;
    if entries != [] {
      var before, src := entries[..|entries| - 1], entries[|entries| - 1];
      assert src in entries && forall s :: s in before ==> s in entries;
      DiscoveryIsQuiet(d, before, w);
      if IsConf(src) {
        CopiedIsCurrent(d, src, w);
        RefusedWritesNothing(d, src, w);
        if Copied(d, src, w).1.Ok? {
          assert Serves(d, src, Copied(d, src, w).1.value);
        }
      }
    }
  }

  lemma RefusedWritesNothing(d: Dir, src: string, w: Wording)
    requires src in d.sources
    ensures Copied(d, src, w).1.Err? ==> Copied(d, src, w).0 == d
  {
    hide SafeName, Fault, Normalised;
  }

  // Right on every pass

  /** What reading the directory lists: each file once. */
  ghost predicate Listing(entries: seq<string>, sources: map<string, File>)
  {
    Distinct(entries) && forall s :: s in entries <==> s in sources
  }

  /** The pass yields each usable file's own copy, once, and nothing else. */
  ghost predicate Right(d: Dir, entries: seq<string>, w: Wording)
    requires Listing(entries, d.sources)
  {
    var (d', found) := Discovered(d, entries, w);
    && Distinct(found)
    && (forall n :: n in found <==> exists s :: Serves(d, s, n))
    && forall s, n :: Serves(d, s, n) ==> n in d'.copies && d'.copies[n].text == Normalised(d.sources[s].text, w)
  }

  lemma CoherentIsRight(d: Dir, entries: seq<string>, w: Wording)
    requires Coherent(d, w) && Listing(entries, d.sources)
    ensures Right(d, entries, w) && Coherent(Discovered(d, entries, w).0, w)
  {
    hide SafeName, Fault, Normalised, IsConf, Discovered, Coherent, Usable;
    DiscoveryIsExact(d, entries, w);
    var (d', found) := Discovered(d, entries, w);
    forall s, n | Serves(d, s, n)
      ensures n in d'.copies && d'.copies[n].text == Normalised(d.sources[s].text, w)
    {
      assert s in entries;
      CoherentMeans(d, w);
      ServesTakes(d, s, n);
      TakenIsListed(d, entries, s, n, w);
      CoherentIsCurrent(d', s, w);
    }
    forall n
      ensures n in found <==> exists s :: Serves(d, s, n)
    {
      if s :| Serves(d, s, n) {
        assert s in entries;
      }
    }
  }

  lemma CoherentIsCurrent(d: Dir, s: string, w: Wording)
    requires Coherent(d, w) && s in d.sources && IsConf(s)
    ensures Current(d, s, w)
  {
    hide Current;
  }

  /** The source would be taken up under this name. */
  predicate Takes(d: Dir, s: string, n: string)
  {
    s in d.sources && IsConf(s) && SafeName(s) == Ok(n) && (UpToDate(d, s, n) || Fault(d.sources[s].text) == None)
  }

  lemma CopiedTakes(d: Dir, src: string, n: string, w: Wording)
    requires Stamped(d) && Takes(d, src, n)
    ensures Copied(d, src, w).1 == Ok(n) && UpToDate(Copied(d, src, w).0, src, n)
  {
    hide SafeName, Fault, Normalised, IsConf;
  }

  lemma CopiedWrites(d: Dir, src: string, n: string, w: Wording)
    requires src in d.sources && (SafeName(src) == Ok(n) && Usable(src, d.sources[src].text) ==> UpToDate(d, src, n))
    ensures n in d.copies ==> n in Copied(d, src, w).0.copies && Copied(d, src, w).0.copies[n] == d.copies[n]
  {
    hide SafeName, Fault, Normalised;
  }

  /** A pass refreshes copies and takes none away. */
  lemma {:induction false} DiscoveryOnlyRefreshes(d: Dir, entries: seq<string>, w: Wording)
    requires Stamped(d) && forall s :: s in entries ==> s in d.sources
    ensures var d' := Discovered(d, entries, w).0;
      && Stamped(d') && d.clock <= d'.clock
      && (forall t, n :: t in d.sources && UpToDate(d, t, n) ==> UpToDate(d', t, n))
      && (forall n :: n in d'.copies && (n !in d.copies || d'.copies[n] != d.copies[n]) ==> d.clock < d'.copies[n].at)
    decreases |entries|
  {
    hide IsConf, Stamped, UpToDate, Copied;
    if entries != [] {
      var before, src := entries[..|entries| - 1], entries[|entries| - 1];
      assert src in entries && forall s :: s in before ==> s in entries;
      DiscoveryOnlyRefreshes(d, before, w);
      if IsConf(src) {
        CopiedOnlyRefreshes(Discovered(d, before, w).0, src, w);
      }
    }
  }

  lemma StillTakes(d: Dir, entries: seq<string>, s: string, n: string, w: Wording)
    requires Stamped(d) && (forall x :: x in entries ==> x in d.sources) && Takes(d, s, n)
    ensures Takes(Discovered(d, entries, w).0, s, n) && Stamped(Discovered(d, entries, w).0)
  {
    hide IsConf, SafeName, Fault, UpToDate, Discovered;
    DiscoveryOnlyRefreshes(d, entries, w);
  }

  lemma {:induction false} TakenIsListed(d: Dir, entries: seq<string>, s: string, n: string, w: Wording)
    requires Stamped(d) && (forall x :: x in entries ==> x in d.sources) && s in entries && Takes(d, s, n)
    ensures n in Discovered(d, entries, w).1 && UpToDate(Discovered(d, entries, w).0, s, n)
    decreases |entries|
  {
    hide Takes, UpToDate, Stamped, Copied;
    var before, src := entries[..|entries| - 1], entries[|entries| - 1];
    assert entries == before + [src] && forall x :: x in before ==> x in entries;
    StillTakes(d, before, s, n, w);
    var d1 := Discovered(d, before, w).0;
    TakesConf(d, s, n);
    if s == src {
      CopiedTakes(d1, src, n, w);
    } else {
      TakenIsListed(d, before, s, n, w);
      CopiedOnlyRefreshes(d1, src, w);
    }
  }

  lemma TakesConf(d: Dir, s: string, n: string)
    requires Takes(d, s, n)
    ensures s in d.sources && IsConf(s)
  {
  }

  /** Two files taken up under one name list it twice. */
  lemma {:induction false} TakenTwice(d: Dir, entries: seq<string>, s: string, t: string, n: string, w: Wording)
    requires Stamped(d) && (forall x :: x in entries ==> x in d.sources)
    requires s in entries && t in entries && s != t && Takes(d, s, n) && Takes(d, t, n)
    ensures !Distinct(Discovered(d, entries, w).1)
    decreases |entries|
  {
    hide Takes, UpToDate, Stamped, Copied;
    var before, src := entries[..|entries| - 1], entries[|entries| - 1];
    assert entries == before + [src] && forall x :: x in before ==> x in entries;
    var (d1, found1) := Discovered(d, before, w);
    if s in before && t in before {
      TakenTwice(d, before, s, t, n, w);
      var i, j :| 0 <= i < j < |found1| && found1[i] == found1[j];
      assert Discovered(d, entries, w).1[i] == found1[i] && Discovered(d, entries, w).1[j] == found1[j];
    } else {
      var first := if src == s then t else s;
      assert first in before && (src == s || src == t);
      TakenIsListed(d, before, first, n, w);
      StillTakes(d, before, src, n, w);
      TakesConf(d1, src, n);
      CopiedTakes(d1, src, n, w);
      var i :| 0 <= i < |found1| && found1[i] == n;
      assert Discovered(d, entries, w).1 == found1 + [n];
      assert Discovered(d, entries, w).1[i] == Discovered(d, entries, w).1[|found1|];
    }
  }

  /** A copy is left as it is when every usable file of its name is up to date. */
  lemma {:induction false} CopyStays(d: Dir, entries: seq<string>, n: string, w: Wording)
    requires Stamped(d) && (forall x :: x in entries ==> x in d.sources) && n in d.copies
    requires forall s :: s in entries && Serves(d, s, n) ==> UpToDate(d, s, n)
    ensures n in Discovered(d, entries, w).0.copies && Discovered(d, entries, w).0.copies[n] == d.copies[n]
    decreases |entries|
  {
    hide Usable, UpToDate, Stamped, Copied, SafeName, IsConf;
    if entries != [] {
      var before, src := entries[..|entries| - 1], entries[|entries| - 1];
      assert src in entries && forall x :: x in before ==> x in entries;
      CopyStays(d, before, n, w);
      if IsConf(src) {
        DiscoveryOnlyRefreshes(d, before, w);
        CopiedWrites(Discovered(d, before, w).0, src, n, w);
      }
    }
  }

  lemma ServesTakes(d: Dir, s: string, n: string)
    requires Serves(d, s, n)
    ensures Takes(d, s, n)
  {
    hide SafeName, Fault, IsConf, UpToDate;
  }

  /** A file taken up in a pass that is right is the one that serves its name. */
  lemma TakenServes(d: Dir, entries: seq<string>, s: string, n: string, w: Wording)
    requires Stamped(d) && Listing(entries, d.sources) && Right(d, entries, w) && Takes(d, s, n)
    ensures Serves(d, s, n) && forall t :: Serves(d, t, n) ==> t == s
  {
    TakesConf(d, s, n);
    hide Takes, Serves, Stamped, Discovered;
    TakenIsListed(d, entries, s, n, w);
    forall t | Serves(d, t, n)
      ensures t == s
    {
      ServesTakes(d, t, n);
      TakesConf(d, t, n);
      if t != s {
        TakenTwice(d, entries, s, t, n, w);
      }
    }
    var u :| Serves(d, u, n);
    assert u == s;
  }

  lemma RightMeansCurrent(d: Dir, entries: seq<string>, s: string, w: Wording)
    requires Stamped(d) && Listing(entries, d.sources) && Right(d, entries, w) && s in d.sources && IsConf(s)
    ensures Current(d, s, w)
  {
    hide Fault, Normalised, IsConf, Discovered, Stamped, SafeName;
    if SafeName(s).Ok? && UpToDate(d, s, SafeName(s).value) {
      var n := SafeName(s).value;
      TakenServes(d, entries, s, n, w);
      CopyStays(d, entries, n, w);
    }
  }

  lemma RightTwiceMeansNoClash(d: Dir, entries: seq<string>, again: seq<string>, s: string, t: string, w: Wording)
    requires Stamped(d) && Listing(entries, d.sources) && Listing(again, d.sources)
    requires Right(d, entries, w) && Right(Discovered(d, entries, w).0, again, w)
    requires s in d.sources && t in d.sources && Shares(s, t) && Usable(s, d.sources[s].text)
    ensures !Usable(t, d.sources[t].text) && UpToDate(d, s, SafeName(s).value)
  {
    hide Fault, Normalised, IsConf, Discovered;
    var n := SafeName(s).value;
    assert Serves(d, s, n);
    if Usable(t, d.sources[t].text) {
      assert Serves(d, t, n);
      ServesTakes(d, t, n);
      TakenServes(d, entries, t, n, w);
      assert false;
    }
    if !UpToDate(d, s, n) {
      var d' := Discovered(d, entries, w).0;
      ServesTakes(d, s, n);
      TakenIsListed(d, entries, s, n, w);
      DiscoveryOnlyRefreshes(d, entries, w);
      assert d.clock < d'.copies[n].at;
      assert Takes(d', t, n);
      TakenServes(d', again, t, n, w);
      assert false;
    }
  }

  lemma RightTwiceMeansCoherent(d: Dir, entries: seq<string>, again: seq<string>, w: Wording)
    requires Stamped(d) && Listing(entries, d.sources) && Listing(again, d.sources)
    requires Right(d, entries, w) && Right(Discovered(d, entries, w).0, again, w)
    ensures Coherent(d, w)
  {
    hide Fault, Normalised, IsConf, Discovered, Right, Stamped, UpToDate, Usable, Current, SafeName;
    forall s | s in d.sources && IsConf(s)
      ensures Current(d, s, w)
    {
      RightMeansCurrent(d, entries, s, w);
    }
    forall s, t | s in d.sources && t in d.sources && Shares(s, t) && Usable(s, d.sources[s].text)
      ensures !Usable(t, d.sources[t].text) && UpToDate(d, s, SafeName(s).value)
    {
      RightTwiceMeansNoClash(d, entries, again, s, t, w);
    }
  }

  /** The directory after several passes. */
  function After(d: Dir, listings: seq<seq<string>>, w: Wording): (r: Dir)
    requires forall k, s :: 0 <= k < |listings| && s in listings[k] ==> s in d.sources
    ensures r.sources == d.sources
  {
    if listings == [] then d
    else Discovered(After(d, listings[..|listings| - 1], w), listings[|listings| - 1], w).0
  }

  ghost predicate AllListings(listings: seq<seq<string>>, sources: map<string, File>)
  {
    forall k :: 0 <= k < |listings| ==> Listing(listings[k], sources)
  }

  lemma {:induction false} CoherentAfter(d: Dir, listings: seq<seq<string>>, w: Wording)
    requires Coherent(d, w) && AllListings(listings, d.sources)
    ensures Coherent(After(d, listings, w), w)
  {
    hide Coherent, Discovered;
    if listings != [] {
      var n := |listings| - 1;
      CoherentAfter(d, listings[..n], w);
      CoherentIsRight(After(d, listings[..n], w), listings[n], w);
    }
  }

  /** Discovery is right on every one of two or more passes if and only if the
      directory is coherent when they begin: every copy that counts as current is
      its file's own, and a file that shares a usable file's name is no use and
      finds that file's copy already there. */
  lemma DiscoveryIsRightExactly(d: Dir, listings: seq<seq<string>>, w: Wording)
    requires Stamped(d) && |listings| >= 2 && AllListings(listings, d.sources)
    ensures (forall k :: 0 <= k < |listings| ==> Right(After(d, listings[..k], w), listings[k], w)) <==> Coherent(d, w)
  {
    hide Coherent, Discovered, Right, Stamped;
    if Coherent(d, w) {
      forall k | 0 <= k < |listings|
        ensures Right(After(d, listings[..k], w), listings[k], w)
      {
        CoherentAfter(d, listings[..k], w);
        CoherentIsRight(After(d, listings[..k], w), listings[k], w);
      }
    }
    if forall k :: 0 <= k < |listings| ==> Right(After(d, listings[..k], w), listings[k], w) {
      FirstPasses(d, listings, w);
      assert Right(After(d, listings[..0], w), listings[0], w) && Right(After(d, listings[..1], w), listings[1], w);
      RightTwiceMeansCoherent(d, listings[0], listings[1], w);
    }
  }

  lemma FirstPasses(d: Dir, listings: seq<seq<string>>, w: Wording)
    requires |listings| >= 2 && AllListings(listings, d.sources)
    ensures After(d, listings[..0], w) == d && After(d, listings[..1], w) == Discovered(d, listings[0], w).0
  {
    assert listings[..1][..0] == [] && listings[..1][0] == listings[0];
    hide Discovered;
  }

  /** Before any copy is made that comes down to the names alone: no other .conf
      file may share a usable file's safe name. */
  lemma FreshIsCoherentExactly(d: Dir, w: Wording)
    requires Stamped(d) && d.copies == map[]
    ensures Coherent(d, w) <==>
      forall s, t :: s in d.sources && t in d.sources && Shares(s, t) ==> !Usable(s, d.sources[s].text)
  {
    hide SafeName, Fault, Normalised, IsConf, Shares, Usable;
  }

  lemma DiscoveredSnoc(d: Dir, before: seq<string>, src: string, w: Wording)
    requires src in d.sources && IsConf(src) && forall s :: s in before ==> s in d.sources
    ensures var (d', found) := Discovered(d, before, w);
      var (d'', r) := Copied(d', src, w);
      Discovered(d, before + [src], w) == (d'', if r.Ok? then found + [r.value] else found)
  {
    hide Copied, IsConf;
    assert (before + [src])[..|before|] == before;
  }

  /** What goes wrong otherwise, on the spot: two usable files that come down to
      one name are listed twice, and only the first is ever copied. */
  lemma CollidingNamesShareACopy(d: Dir, s: string, t: string, name: string, w: Wording)
    requires s in d.sources && t in d.sources && s != t && d.copies == map[] && Stamped(d)
    requires Serves(d, s, name) && Serves(d, t, name)
    ensures Discovered(d, [s, t], w).1 == [name, name]
    ensures Discovered(d, [s, t], w).0.copies == map[name := File(Normalised(d.sources[s].text, w), d.clock + 1)]
  {
    hide SafeName, Fault, Normalised, IsConf;
    var d1 := PutCopy(d, name, Normalised(d.sources[s].text, w));
    assert Copied(d, s, w) == (d1, Ok(name)) && Copied(d1, t, w) == (d1, Ok(name));
    hide Copied;
    var none: seq<string> := [];
    assert Discovered(d, none, w) == (d, []);
    hide Discovered, Serves, Stamped;
    assert none + [s] == [s] && [s] + [t] == [s, t] && none + [name] == [name];
    DiscoveredSnoc(d, none, s, w);
    DiscoveredSnoc(d, [s], t, w);
  }
}
