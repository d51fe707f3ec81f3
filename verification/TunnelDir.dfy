/** The tunnel directory: the user's files, the copies the daemon runs from, and
    the list of tunnels that comes of them. */
module TunnelDir {
  import opened Prelude
  import opened Text
  import opened Normalise
  import opened Twice
  import opened SafeNames
  import opened Config
  import opened Sorting
  import opened Discovery

  // The list of tunnels

  /** One more path, unless it is blank, already there, or over the cap. */
  function Add(out: seq<string>, p: string): seq<string>
  {
    if p == "" || p in out || |out| >= MaxTunnels then out else out + [p]
  }

  function AddAll(out: seq<string>, ps: seq<string>): seq<string>
    decreases |ps|
  {
    if ps == [] then out else AddAll(Add(out, ps[0]), ps[1..])
  }

  lemma {:induction false} AddAllSnoc(out: seq<string>, ps: seq<string>, p: string)
    ensures AddAll(out, ps + [p]) == Add(AddAll(out, ps), p)
    decreases |ps|
  {
    hide Add;
    if ps == [] {
      assert [] + [p] == [p] && [p][1..] == [];
    } else {
      assert (ps + [p])[1..] == ps[1..] + [p];
      AddAllSnoc(Add(out, ps[0]), ps[1..], p);
    }
  }

  /** At most five different paths, none blank; nothing is passed over while there
      is room, and earlier paths keep their places. */
  lemma {:induction false} PathsAreCapped(out: seq<string>, ps: seq<string>)
    requires Distinct(out) && |out| <= 5 && "" !in out
    ensures var r := AddAll(out, ps);
      && Distinct(r) && |r| <= 5 && "" !in r && out <= r
      && (forall p :: p in r ==> p in out || p in ps)
      && (|r| < 5 ==> forall p :: p in ps && p != "" ==> p in r)
    decreases |ps|
  {
    if ps != [] {
      assert ps == [ps[0]] + ps[1..];
      var next := Add(out, ps[0]);
      PathsAreCapped(next, ps[1..]);
      var r := AddAll(next, ps[1..]);
      assert |r| < MaxTunnels && ps[0] != "" ==> ps[0] in next;
      assert next == r[..|next|];
      forall p | |r| < MaxTunnels && p in ps && p != ""
        ensures p in r
      {
        assert p == ps[0] || p in ps[1..];
      }
    }
  }

  lemma {:induction false} AddAllConcat(out: seq<string>, a: seq<string>, b: seq<string>)
    ensures AddAll(out, a + b) == AddAll(AddAll(out, a), b)
    decreases |a|
  {
    hide Add;
    if a == [] {
      assert a + b == b;
    } else {
      assert (a + b)[1..] == a[1..] + b;
      AddAllConcat(Add(out, a[0]), a[1..], b);
    }
  }

  /** Whatever turns up in the directory, the tunnels listed by hand come first
      and in the same places. */
  lemma ExplicitComesFirst(explicit: seq<string>, found: seq<string>)
    ensures AddAll([], explicit) <= AddAll([], explicit + found)
  {
    AddAllConcat([], explicit, found);
    PathsAreCapped([], explicit);
    PathsAreCapped(AddAll([], explicit), found);
  }

  // An upload and a dropped-in file

  /** Uploading a file and dropping it in lead to the same tunnel: the copy made
      of the uploaded, already normalised file says what the copy of the raw one
      says, if the notes did not take it over the size limit. When they did, the
      upload was accepted and the tunnel never runs. */
  lemma UploadedIsDropped(name: string, raw: string, w: Wording)
    requires SafeName(name).Ok? && Fault(raw) == None
    ensures Usable(name, Normalised(raw, w)) <==> Utf8Length(Normalised(raw, w)) <= SizeLimit
    ensures Statements(Normalised(Normalised(raw, w), w)) == Statements(Normalised(raw, w))
  {
    hide SafeName, Fault, Normalised, Utf8Length, Statements;
    AcceptedAgain(raw, w);
    NormalisingTwice(raw, w);
  }

  datatype Uploaded = Added(name: string, replaced: bool) | NameRefused(why: NameError) | Full | FileRefused(fault: Rejection)

  function Itself(s: string): string
  {
    s
  }

  /** What discovery hands on: the copies it turned up, sorted. */
  function Sorted(found: seq<string>): seq<string>
  {
    Sort(found, Itself)
  }

  function Paths(work: string, names: seq<string>): seq<string>
  {
    seq(|names|, i requires 0 <= i < |names| => work + ['/'] + names[i])
  }

  /** Each path leads to its own copy in the working directory. */
  lemma PathsLeadToCopies(work: string, names: seq<string>, i: nat)
    requires i < |names| && names[i] != "" && '/' !in names[i]
    ensures |Paths(work, names)| == |names|
    ensures work + "/" <= Paths(work, names)[i] && Base(Paths(work, names)[i]) == names[i]
  {
    hide Base;
    assert work + ['/'] == work + "/";
    BaseOfPath(work + ['/'], names[i]);
  }

  /** The tunnels of a pass: those listed by hand, then those of the directory. */
  function Running(d: Dir, explicit: seq<string>, entries: seq<string>, work: string, w: Wording): seq<string>
    requires forall s :: s in entries ==> s in d.sources
  {
    AddAll([], explicit + Paths(work, Sorted(Discovered(d, entries, w).1)))
  }

  method AddLoop(start: seq<string>, ps: seq<string>) returns (out: seq<string>)
    ensures out == AddAll(start, ps)
  {
    out := start;
    for i := 0 to |ps|
      invariant out == AddAll(start, ps[..i])
    {
      assert ps[..i + 1] == ps[..i] + [ps[i]];
      AddAllSnoc(start, ps[..i], ps[i]);
      if !(ps[i] == "" || ps[i] in out || |out| >= MaxTunnels) {
        out := out + [ps[i]];
      }
    }
    assert ps[..|ps|] == ps;
  }

  class Directory {
    const w: Wording
    const work: string
    var sources: map<string, File>
    var copies: map<string, File>
    var clock: int

    constructor (w: Wording, work: string)
      ensures this.w == w && this.work == work && Now() == Dir(map[], map[], 0) && Valid()
    {
      this.w, this.work, sources, copies, clock := w, work, map[], map[], 0;
    }

    ghost function Now(): Dir
      reads this
    {
      Dir(sources, copies, clock)
    }

    /** No time is later than the clock. */
    ghost predicate Valid()
      reads this
    {
      Stamped(Now())
    }

    /** The user drops a file in, or edits one. */
    method Drop(name: string, text: string)
      requires Valid()
      modifies this
      ensures Valid() && Now() == PutSource(old(Now()), name, text)
      ensures old(Coherent(Now(), w)) && NoClash(Now()) ==> Coherent(Now(), w)
      ensures old(Coherent(Now(), w)) && DistinctNames(sources) ==> Coherent(Now(), w)
    {
      PutKeepsCoherent(Now(), name, text, w);
      UnlessNamesClash(PutSource(Now(), name, text));
      clock := clock + 1;
      sources := sources[name := File(text, clock)];
    }

    /** The user removes a file; its copy stays behind. */
    method RemoveByHand(name: string)
      requires Valid()
      modifies `sources
      ensures Valid() && Now() == old(Now()).(sources := old(sources) - {name})
      ensures old(Coherent(Now(), w)) && NoClash(Now()) ==> Coherent(Now(), w)
      ensures old(Coherent(Now(), w) && DistinctNames(sources)) ==> Coherent(Now(), w) && DistinctNames(sources)
    {
      RemovalKeepsCoherent(Now(), name, {}, w);
      StillDistinct(Now(), name, {});
      assert copies - {} == copies;
      sources := sources - {name};
    }

    method NormalisedCopy(src: string) returns (r: Result<string, Refusal>)
      requires src in sources
      modifies `copies, `clock
      ensures (Now(), r) == Copied(old(Now()), src, w)
    {
      hide SafeName, Fault, Normalised, Acceptable, FirstWrong;
      var name := SafeName(src);
      if name.Err? {
        return Err(BadName(name.error));
      }
      if name.value in copies && sources[src].at <= copies[name.value].at {
        return Ok(name.value);
      }
      var normalised := NormaliseUpload(sources[src].text, w);
      if normalised.Err? {
        return Err(Unusable(normalised.error));
      }
      clock := clock + 1;
      copies := copies[name.value := File(normalised.value, clock)];
      return Ok(name.value);
    }

    /** Discovery. In a coherent directory it yields exactly the sorted copies of
        the usable files, each of them what normalising its file now gives; and it
        writes nothing when all are current. */
    method DirTunnels(entries: seq<string>) returns (out: seq<string>)
      requires Valid() && Listing(entries, sources)
      modifies `copies, `clock
      ensures Valid() && Now() == Discovered(old(Now()), entries, w).0
      ensures out == Sorted(Discovered(old(Now()), entries, w).1)
      ensures old(Coherent(Now(), w)) ==> Coherent(Now(), w) && Ascending(out, Itself)
      ensures old(Coherent(Now(), w)) ==> forall n :: n in out <==> exists s :: Serves(Now(), s, n)
      ensures old(Coherent(Now(), w)) ==>
          forall s, n :: Serves(Now(), s, n) ==> n in copies && copies[n].text == Normalised(sources[s].text, w)
      ensures old(Coherent(Now(), w)) && (forall s, n :: Serves(old(Now()), s, n) ==> UpToDate(old(Now()), s, n)) ==>
          Now() == old(Now())
    {
      hide SafeName, Fault, Normalised, IsConf, Discovered, Coherent, Usable, UpToDate, Stamped;
      ghost var before := Now();
      var found := Discover(entries);
      DiscoveryOnlyRefreshes(before, entries, w);
      if Coherent(before, w) {
        CoherentIsRight(before, entries, w);
        SortIsAscending(found, Itself);
        QuietListing(before, entries, w);
        SameServers(before, Now());
      }
      return Sorted(found);
    }

    method Discover(entries: seq<string>) returns (found: seq<string>)
      requires forall s :: s in entries ==> s in sources
      modifies `copies, `clock
      ensures (Now(), found) == Discovered(old(Now()), entries, w)
    {
      hide SafeName, Fault, Normalised, IsConf, Copied;
      found := [];
      for i := 0 to |entries|
        invariant (Now(), found) == Discovered(old(Now()), entries[..i], w)
      {
        assert entries[..i + 1][..i] == entries[..i] && entries[i] in entries;
        if IsConf(entries[i]) {
          var copy := NormalisedCopy(entries[i]);
          if copy.Ok? {
            found := found + [copy.value];
          }
        }
      }
      assert entries[..|entries|] == entries;
    }

    /** The paths the daemon uses. */
    method TunnelPaths(explicit: seq<string>, entries: seq<string>) returns (out: seq<string>)
      requires Valid() && Listing(entries, sources)
      modifies `copies, `clock
      ensures Valid() && Now() == Discovered(old(Now()), entries, w).0
      ensures out == Running(old(Now()), explicit, entries, work, w)
      ensures old(Coherent(Now(), w)) ==> Coherent(Now(), w)
    {
      hide SafeName, Fault, Normalised, IsConf, Coherent, AddAll, Stamped, Discovered, Sorted, Paths;
      out := AddLoop([], explicit);
      var names := DirTunnels(entries);
      AddAllConcat([], explicit, Paths(work, names));
      out := AddLoop(out, Paths(work, names));
    }

    /** The cap refuses an upload exactly when it replaces no file and the tunnels
        that would run without it already fill the list. */
    ghost predicate NoRoom(name: string, explicit: seq<string>, entries: seq<string>)
      requires Listing(entries, sources)
      reads this
    {
      name !in sources && |Running(Now(), explicit, entries, work, w)| >= MaxTunnels
    }

    /** The directory after the cap was counted, which looks through it unless the
        upload replaces a file. */
    ghost function Counted(name: string, entries: seq<string>): Dir
      requires Listing(entries, sources)
      reads this
    {
      if name in sources then Now() else Discovered(Now(), entries, w).0
    }

    /** A file arrives through the settings page: its name is checked, it is counted
        against the cap unless it replaces one, and it is normalised and stored
        under its safe name; each refusal for exactly its own reason. */
    method Upload(uploaded: string, raw: string, explicit: seq<string>, entries: seq<string>) returns (r: Uploaded)
      requires Valid() && Listing(entries, sources)
      modifies this
      ensures Valid()
      ensures r.NameRefused? <==> SafeName(uploaded).Err?
      ensures r.Full? <==> SafeName(uploaded).Ok? && old(NoRoom(SafeName(uploaded).value, explicit, entries))
      ensures r.FileRefused? <==>
          SafeName(uploaded).Ok? && !old(NoRoom(SafeName(uploaded).value, explicit, entries)) && Fault(raw).Some?
      ensures r.FileRefused? ==> Fault(raw) == Some(r.fault)
      ensures r.Added? ==> SafeName(uploaded) == Ok(r.name) && r.replaced == (r.name in old(sources))
      ensures r.Added? ==> Now() == PutSource(old(Counted(SafeName(uploaded).value, entries)), r.name, Normalised(raw, w))
      ensures r.Full? || r.FileRefused? ==> Now() == old(Counted(SafeName(uploaded).value, entries))
      ensures r.NameRefused? ==> Now() == old(Now())
      ensures old(Coherent(Now(), w)) && NoClash(Now()) ==> Coherent(Now(), w)
      ensures old(Coherent(Now(), w)) && DistinctNames(sources) ==> Coherent(Now(), w)
    {
      hide Acceptable, FirstWrong, Fault, Normalised, SafeName, IsConf, Coherent, NoClash, Running, Stamped, Discovered, Listing;
      var name := SafeName(uploaded);
      if name.Err? {
        return NameRefused(name.error);
      }
      var replacing := name.value in sources;
      if !replacing {
        var paths := TunnelPaths(explicit, entries);
        if |paths| >= MaxTunnels {
          return Full;
        }
      }
      var normalised := NormaliseUpload(raw, w);
      if normalised.Err? {
        return FileRefused(normalised.error);
      }
      PutKeepsCoherent(Now(), name.value, normalised.value, w);
      UnlessNamesClash(PutSource(Now(), name.value, normalised.value));
      clock := clock + 1;
      sources := sources[name.value := File(normalised.value, clock)];
      return Added(name.value, replacing);
    }

    /** A tunnel is removed through the settings page, its copy with it. Only a file
        stored under its safe name can be; and no other file's listing changes, so
        the name is gone unless another file comes down to it. */
    method DeleteTunnel(asked: string) returns (removed: bool)
      requires Valid()
      modifies `sources, `copies
      ensures Valid()
      ensures removed <==> SafeName(asked).Ok? && SafeName(asked).value in old(sources)
      ensures !removed ==> Now() == old(Now())
      ensures removed ==> sources == old(sources) - {SafeName(asked).value} && copies == old(copies) - {SafeName(asked).value}
      ensures removed ==>
          forall s, n :: Serves(Now(), s, n) <==> s != SafeName(asked).value && Serves(old(Now()), s, n)
      ensures removed && old(DistinctNames(sources)) ==> forall s :: !Serves(Now(), s, SafeName(asked).value)
      ensures old(Coherent(Now(), w)) && NoClash(Now()) ==> Coherent(Now(), w)
      ensures old(Coherent(Now(), w) && DistinctNames(sources)) ==> Coherent(Now(), w) && DistinctNames(sources)
    {
      var name := SafeName(asked);
      if name.Err? || name.value !in sources {
        return false;
      }
      SafeNameIsStable(asked, name.value);
      hide Fault, Normalised, SafeName, IsConf, Coherent, NoClash, Stamped, DistinctNames, Serves;
      RemovalKeepsCoherent(Now(), name.value, {name.value}, w);
      StillDistinct(Now(), name.value, {name.value});
      RemovedIsNotServed(Now(), name.value);
      sources := sources - {name.value};
      copies := copies - {name.value};
      return true;
    }
  }

  lemma RemovedIsNotServed(d: Dir, name: string)
    requires name in d.sources && SafeName(name) == Ok(name) && IsConf(name)
    ensures var d' := d.(sources := d.sources - {name}, copies := d.copies - {name});
      && (forall s, n :: Serves(d', s, n) <==> s != name && Serves(d, s, n))
      && (DistinctNames(d.sources) ==> forall s :: !Serves(d', s, name))
  {
    hide SafeName, IsConf, Fault;
    forall s
      ensures DistinctNames(d.sources) && s != name ==> !Serves(d, s, name)
    {
      assert DistinctNames(d.sources) && s in d.sources ==> !Shares(s, name);
    }
  }

  lemma SameServers(d: Dir, d': Dir)
    requires d'.sources == d.sources
    ensures forall s, n :: Serves(d', s, n) <==> Serves(d, s, n)
  {
    hide SafeName, IsConf, Fault;
  }

  lemma QuietListing(d: Dir, entries: seq<string>, w: Wording)
    requires Coherent(d, w) && Listing(entries, d.sources)
    ensures (forall s, n :: Serves(d, s, n) ==> UpToDate(d, s, n)) ==> Discovered(d, entries, w).0 == d
  {
    hide SafeName, Fault, Normalised, IsConf, Coherent;
    if forall s, n :: Serves(d, s, n) ==> UpToDate(d, s, n) {
      DiscoveryIsQuiet(d, entries, w);
    }
  }
}
