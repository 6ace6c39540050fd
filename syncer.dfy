/** `ExternalDNSSyncer` and the state it works on. Each method runs the loops
    of its source counterpart and is proved to compute the corresponding
    function of module Reconcile. */
module Syncer {
  import opened Strings
  import opened Classify
  import opened Settings
  import opened Dns
  import opened Ownership
  import opened Reconcile
  import opened Properties

  /** The state dictionary of one cycle, updated in place. */
  class SyncState {
    var instances: map<string, Health>
    var domains: map<string, Sources>
    var managed: Managed

    constructor (s: State)
      ensures Value() == s
    {
      instances, domains, managed := s.instances, s.domains, s.managed;
    }

    function Value(): State
      reads this
    {
      State(instances, domains, managed)
    }
  }

  /** The state file, as the state it holds; a missing file holds `Fresh`. */
  class StateStore {
    var contents: State

    constructor ()
      ensures contents == Fresh
    {
      contents := Fresh;
    }

    method Load() returns (st: SyncState)
      ensures fresh(st) && st.Value() == contents
    {
      st := new SyncState(contents);
    }

    method Save(st: SyncState)
      modifies this
      ensures contents == st.Value()
    {
      contents := st.Value();
    }
  }

  /** `{r.domain: r.answer ...}` keys are the domains with records. */
  lemma {:induction false} FirstSeenKeys(rs: seq<Record>)
    ensures forall d :: d in FirstSeen(rs) <==> d in Grouped(rs)
    decreases |rs|
  {
    if rs != [] {
      FirstSeenKeys(rs[..|rs| - 1]);
    }
  }

  /** The `records_by_domain` loop. */
  method RecordsByDomain(records: seq<Record>) returns (g: map<string, seq<string>>, order: seq<string>)
    ensures g == Grouped(records) && order == FirstSeen(records)
  {
    g, order := map[], [];
    var i := 0;
    while i < |records|
      invariant 0 <= i <= |records|
      invariant g == Grouped(records[..i]) && order == FirstSeen(records[..i])
    {
      var r := records[i];
      FirstSeenKeys(records[..i]);
      if r.domain !in g {
        order := order + [r.domain];
        g := g[r.domain := []];
      }
      g := g[r.domain := g[r.domain] + [r.answer]];
      assert records[..i + 1][..i] == records[..i];
      i := i + 1;
    }
    assert records[..|records|] == records;
  }

  /** The inner loop of `_cleanup_removed_instances` over the removed names. */
  method DropSources(sources: Sources, removed: set<string>) returns (r: Sources)
    ensures r == RemoveKeys(sources, removed)
  {
    r := sources;
    var rest := removed;
    while rest != {}
      invariant rest <= removed
      invariant r == RemoveKeys(sources, removed - rest)
      decreases rest
    {
      var n :| n in rest;
      if n in r {
        r := r - {n};
      }
      rest := rest - {n};
    }
  }

  /** The inner loop of the pruning pass over the configured instances. */
  method PruneDomainSources(sources: Sources, d: string, instances: seq<Instance>,
                            success: map<string, bool>, seen: map<string, set<string>>) returns (r: Sources)
    ensures r == PruneSources(sources, d, instances, success, seen)
  {
    r := sources;
    var i := 0;
    while i < |instances|
      invariant 0 <= i <= |instances|
      invariant PruneSources(sources, d, instances, success, seen) == PruneSources(r, d, instances[i..], success, seen)
    {
      var n := instances[i].name;
      assert instances[i..][1..] == instances[i + 1..];
      i := i + 1;
      if !(n in success && success[n]) {
        continue;
      }
      if n !in r {
        continue;
      }
      var s := if n in seen then seen[n] else {};
      if d !in s {
        r := r - {n};
      }
    }
  }

  /** The inner loop of the desired-answer pass: the first configured
      instance with a non-empty answer. */
  method ChooseAnswer(sources: Sources, instances: seq<Instance>) returns (chosen: Option<string>)
    ensures chosen == Pick(sources, instances)
  {
    var i := 0;
    while i < |instances|
      invariant 0 <= i <= |instances|
      invariant Pick(sources, instances) == Pick(sources, instances[i..])
    {
      var n := instances[i].name;
      if n in sources && sources[n].answer != "" {
        return Some(sources[n].answer);
      }
      assert instances[i..][1..] == instances[i + 1..];
      i := i + 1;
    }
    chosen := None;
  }

  /** The desired-answer pass over all domains. */
  method ComputeDesired(domains: map<string, Sources>, instances: seq<Instance>) returns (desired: map<string, string>)
    ensures desired == Desired(domains, instances)
  {
    desired := map[];
    var todo := domains.Keys;
    while todo != {}
      invariant todo <= domains.Keys
      invariant desired == map d | d in domains && d !in todo && Pick(domains[d], instances).Some? :: Pick(domains[d], instances).value
      decreases todo
    {
      var d :| d in todo;
      todo := todo - {d};
      if domains[d] == map[] {
        PickFromNone(instances);
        continue;
      }
      var chosen := ChooseAnswer(domains[d], instances);
      if chosen.None? {
        continue;
      }
      desired := desired[d := chosen.value];
    }
  }

  class ExternalDNSSyncer {
    const dns: DnsProvider
    const store: StateStore
    const staticRewrites: Rewrites
    const excludes: seq<Exclusion>
    /** How a compiled `~` expression searches a domain. */
    const search: (string, string) -> bool
    var startupCleanupDone: bool

    constructor (dns: DnsProvider, store: StateStore, staticRewrites: Rewrites,
                 excludes: seq<Exclusion>, search: (string, string) -> bool)
      ensures this.dns == dns && this.store == store && this.staticRewrites == staticRewrites
      ensures this.excludes == excludes && this.search == search && !startupCleanupDone
    {
      this.dns, this.store, this.staticRewrites := dns, store, staticRewrites;
      this.excludes, this.search := excludes, search;
      startupCleanupDone := false;
    }

    function Cfg(): Config
    {
      Config(staticRewrites, excludes, search, dns.accepts)
    }

    ghost function WorldOf(st: SyncState): World
      reads st, dns
    {
      World(st.Value(), dns.Value())
    }

    method IsRecordManaged(st: SyncState, d: string, a: string) returns (b: bool)
      ensures b == IsManaged(st.managed, d, a)
    {
      b := d in st.managed && a in st.managed[d];
    }

    method MarkRecordManaged(st: SyncState, d: string, a: string)
      modifies st
      ensures st.Value() == old(st.Value()).(managed := Mark(old(st.managed), d, a))
    {
      var answers := if d in st.managed then st.managed[d] else [];
      if a !in answers {
        answers := answers + [a];
      }
      st.managed := st.managed[d := answers];
    }

    method UnmarkRecordManaged(st: SyncState, d: string, a: string)
      modifies st
      ensures st.Value() == old(st.Value()).(managed := Unmark(old(st.managed), d, a))
    {
      if d in st.managed {
        var answers := st.managed[d];
        if a in answers {
          answers := RemoveFirst(answers, a);
        }
        if answers == [] {
          st.managed := st.managed - {d};
        } else {
          st.managed := st.managed[d := answers];
        }
      }
    }

    /** `for answer in answers: if managed: delete and unmark`. */
    method DeleteManagedAnswers(st: SyncState, d: string, answers: seq<string>) returns (deletedAny: bool)
      modifies st, dns
      ensures Swept(WorldOf(st), deletedAny) == DeleteManaged(old(WorldOf(st)), d, answers, dns.accepts)
    {
      deletedAny := false;
      var i := 0;
      while i < |answers|
        invariant 0 <= i <= |answers|
        invariant DeleteManaged(old(WorldOf(st)), d, answers, dns.accepts) ==
          var s := DeleteManaged(WorldOf(st), d, answers[i..], dns.accepts);
          Swept(s.w, deletedAny || s.deletedAny)
      {
        var a := answers[i];
        var managed := IsRecordManaged(st, d, a);
        if managed {
          var ok := dns.DeleteRecord(d, a);
          UnmarkRecordManaged(st, d, a);
          deletedAny := true;
        }
        assert answers[i..][1..] == answers[i + 1..];
        i := i + 1;
      }
    }

    /** `for old_answer in xs: delete and unmark`. */
    method DeleteEachAnswer(st: SyncState, d: string, xs: seq<string>)
      modifies st, dns
      ensures WorldOf(st) == DeleteEach(old(WorldOf(st)), d, xs, dns.accepts)
    {
      var i := 0;
      while i < |xs|
        invariant 0 <= i <= |xs|
        invariant DeleteEach(old(WorldOf(st)), d, xs, dns.accepts) == DeleteEach(WorldOf(st), d, xs[i..], dns.accepts)
      {
        var ok := dns.DeleteRecord(d, xs[i]);
        UnmarkRecordManaged(st, d, xs[i]);
        assert xs[i..][1..] == xs[i + 1..];
        i := i + 1;
      }
    }

    /** The orphan pass: each non-static domain loses its managed records and
        its state entry. */
    method RetireDomains(st: SyncState, ds: seq<string>, g: map<string, seq<string>>)
      modifies st, dns
      ensures WorldOf(st) == RetireAll(Cfg(), old(WorldOf(st)), ds, g)
    {
      var i := 0;
      while i < |ds|
        invariant 0 <= i <= |ds|
        invariant RetireAll(Cfg(), old(WorldOf(st)), ds, g) == RetireAll(Cfg(), WorldOf(st), ds[i..], g)
      {
        var d := ds[i];
        assert ds[i..][1..] == ds[i + 1..];
        i := i + 1;
        if Get(staticRewrites, d).Some? {
          continue;
        }
        var deleted := DeleteManagedAnswers(st, d, Lookup(g, d));
        st.domains := st.domains - {d};
      }
    }

    /** The pass of `_cleanup_removed_instances` over the domains: drop the
        removed instances from every domain that has sources and collect
        the domains left without any. */
    method StripRemovedSources(st: SyncState, removed: set<string>) returns (toClean: set<string>)
      modifies st
      ensures st.Value() == old(st.Value()).(domains := WithoutSources(old(st.domains), removed))
      ensures toClean == Emptied(old(st.domains), removed)
    {
      ghost var d0 := st.domains;
      var todo := st.domains.Keys;
      toClean := {};
      while todo != {}
        invariant todo <= d0.Keys && st.domains.Keys == d0.Keys
        invariant forall d :: d in d0 ==> st.domains[d] == if d in todo then d0[d] else RemoveKeys(d0[d], removed)
        invariant toClean == set d | d in d0 && d !in todo && d0[d] != map[] && RemoveKeys(d0[d], removed) == map[]
        invariant st.instances == old(st.instances) && st.managed == old(st.managed)
        decreases todo
      {
        var d :| d in todo;
        todo := todo - {d};
        var sources := st.domains[d];
        if sources == map[] {
          assert RemoveKeys(sources, removed) == map[];
          continue;
        }
        sources := DropSources(sources, removed);
        st.domains := st.domains[d := sources];
        if sources == map[] {
          toClean := toClean + {d};
        }
      }
      assert st.domains == WithoutSources(d0, removed);
    }

    /** `state["instances"].pop(name, None)` for every removed name. */
    method ForgetInstances(st: SyncState, removed: set<string>)
      modifies st
      ensures st.Value() == old(st.Value()).(instances := RemoveKeys(old(st.instances), removed))
    {
      var rest := removed;
      while rest != {}
        invariant rest <= removed
        invariant st.Value() == old(st.Value()).(instances := RemoveKeys(old(st.instances), removed - rest))
        decreases rest
      {
        var n :| n in rest;
        st.instances := st.instances - {n};
        rest := rest - {n};
      }
    }

    method CleanupRemovedInstances(st: SyncState, instances: seq<Instance>)
      modifies st, dns
      ensures WorldOf(st) == CleanupRemoved(Cfg(), old(WorldOf(st)), instances)
    {
      var configured := set i | i in instances :: i.name;
      var removed := st.instances.Keys - configured;
      if removed == {} {
        return;
      }
      var all := dns.GetRecords();
      var g, order := RecordsByDomain(all);
      var toClean := StripRemovedSources(st, removed);
      var cleanup := SortSet(toClean);
      RetireDomains(st, cleanup, g);
      ForgetInstances(st, removed);
    }

    method SyncStaticRewrites(st: SyncState)
      modifies st, dns
      ensures WorldOf(st) == SyncStatic(Cfg(), old(WorldOf(st)))
    {
      if staticRewrites == [] {
        return;
      }
      var all := dns.GetRecords();
      var current := Current(all);
      var i := 0;
      while i < |staticRewrites|
        invariant 0 <= i <= |staticRewrites|
        invariant SyncStatic(Cfg(), old(WorldOf(st))) == StaticAll(Cfg(), WorldOf(st), staticRewrites[i..], current)
      {
        var d, a := staticRewrites[i].domain, staticRewrites[i].answer;
        if d in current {
          var currentAnswer := current[d];
          if currentAnswer == a {
            MarkRecordManaged(st, d, a);
          } else {
            var managed := IsRecordManaged(st, d, currentAnswer);
            if managed {
              var ok := dns.UpdateRecord(d, currentAnswer, a);
              UnmarkRecordManaged(st, d, currentAnswer);
              MarkRecordManaged(st, d, a);
            }
          }
        } else {
          var ok := dns.AddRecord(d, a);
          MarkRecordManaged(st, d, a);
        }
        assert staticRewrites[i..][1..] == staticRewrites[i + 1..];
        i := i + 1;
      }
    }

    /** The loop over the routes of one reachable instance. */
    method ScanInstanceRoutes(st: SyncState, inst: Instance, routes: seq<Route>, now: nat) returns (seen: set<string>)
      modifies st
      ensures Scan(st.Value(), seen) == ScanRoutes(Cfg(), inst, now, Scan(old(st.Value()), {}), routes)
    {
      seen := {};
      var i := 0;
      while i < |routes|
        invariant 0 <= i <= |routes|
        invariant ScanRoutes(Cfg(), inst, now, Scan(old(st.Value()), {}), routes) ==
          ScanRoutes(Cfg(), inst, now, Scan(st.Value(), seen), routes[i..])
      {
        var route := routes[i];
        assert routes[i..][1..] == routes[i + 1..];
        i := i + 1;
        var hostname := route.hostname;
        if IsDomainExcluded(hostname, excludes, search) {
          continue;
        }
        if route.zone == External {
          continue;
        }
        seen := seen + {hostname};
        var sources := SourcesOf(st.domains, hostname);
        st.domains := st.domains[hostname := sources[inst.name := Source(route.targetIp, now)]];
      }
    }

    /** The polling loop; `fetch` is what `get_routes` does for each instance. */
    method PollInstances(st: SyncState, instances: seq<Instance>, fetch: Instance -> Fetch, now: nat)
      returns (success: map<string, bool>, seen: map<string, set<string>>)
      modifies st
      ensures Polled(st.Value(), success, seen) == PollAll(Cfg(), Polled(old(st.Value()), map[], map[]), instances, fetch, now)
    {
      success, seen := map[], map[];
      var i := 0;
      while i < |instances|
        invariant 0 <= i <= |instances|
        invariant PollAll(Cfg(), Polled(old(st.Value()), map[], map[]), instances, fetch, now) ==
          PollAll(Cfg(), Polled(st.Value(), success, seen), instances[i..], fetch, now)
      {
        var inst := instances[i];
        assert instances[i..][1..] == instances[i + 1..];
        i := i + 1;
        match fetch(inst)
        case Fetched(routes) =>
          var hosts := ScanInstanceRoutes(st, inst, routes, now);
          success := success[inst.name := true];
          seen := seen[inst.name := hosts];
          st.instances := st.instances[inst.name := Health(now, "", inst.url)];
        case Unreachable(detail) =>
          success := success[inst.name := false];
          seen := seen[inst.name := {}];
          var prev := if inst.name in st.instances then st.instances[inst.name].lastSuccess else 0;
          st.instances := st.instances[inst.name := Health(prev, detail, inst.url)];
      }
    }

    /** The pruning pass: drop the sources confirmed absent, and collect the
        domains left without sources. */
    method PruneDomains(st: SyncState, instances: seq<Instance>,
                        success: map<string, bool>, seen: map<string, set<string>>) returns (orphans: set<string>)
      modifies st
      ensures st.Value() == old(st.Value()).(domains := Pruned(old(st.domains), instances, success, seen))
      ensures orphans == Orphans(Pruned(old(st.domains), instances, success, seen))
    {
      ghost var d0 := st.domains;
      ghost var pruned := Pruned(d0, instances, success, seen);
      var todo := st.domains.Keys;
      orphans := {};
      while todo != {}
        invariant todo <= d0.Keys && st.domains.Keys == d0.Keys
        invariant forall d :: d in d0 ==> st.domains[d] == if d in todo then d0[d] else pruned[d]
        invariant orphans == set d | d in d0 && d !in todo && pruned[d] == map[]
        invariant st.instances == old(st.instances) && st.managed == old(st.managed)
        decreases todo
      {
        var d :| d in todo;
        todo := todo - {d};
        var sources := PruneDomainSources(st.domains[d], d, instances, success, seen);
        st.domains := st.domains[d := sources];
        if sources == map[] {
          orphans := orphans + {d};
        }
      }
      assert st.domains == pruned;
    }

    /** The exclusion pass over `records_by_domain` in insertion order. */
    method RemoveExcludedDomains(st: SyncState, order: seq<string>, g0: map<string, seq<string>>)
      returns (g: map<string, seq<string>>)
      modifies st, dns
      ensures Phase(WorldOf(st), g) == ExcludeAll(Cfg(), Phase(old(WorldOf(st)), g0), order, g0)
    {
      g := g0;
      var i := 0;
      while i < |order|
        invariant 0 <= i <= |order|
        invariant ExcludeAll(Cfg(), Phase(old(WorldOf(st)), g0), order, g0) ==
          ExcludeAll(Cfg(), Phase(WorldOf(st), g), order[i..], g0)
      {
        var d := order[i];
        assert order[i..][1..] == order[i + 1..];
        i := i + 1;
        if Get(staticRewrites, d).Some? {
          continue;
        }
        if IsDomainExcluded(d, excludes, search) {
          var deletedAny := DeleteManagedAnswers(st, d, Lookup(g0, d));
          st.domains := st.domains - {d};
          if deletedAny {
            g := g - {d};
          }
        }
      }
    }

    /** One desired `(domain, answer)`: add, adopt, or consolidate. */
    method ApplyOne(st: SyncState, d: string, answer: string, existing: seq<string>)
      modifies st, dns
      ensures WorldOf(st) == ApplyDomain(Cfg(), old(WorldOf(st)), d, answer, existing)
    {
      if existing == [] {
        var ok := dns.AddRecord(d, answer);
        MarkRecordManaged(st, d, answer);
      } else if |existing| == 1 && existing[0] == answer {
        MarkRecordManaged(st, d, answer);
      } else {
        var mine := ManagedOf(st.managed, d, existing);
        var others := UnmanagedOf(st.managed, d, existing);
        if others != [] {
          if answer in others {
            MarkRecordManaged(st, d, answer);
            DeleteEachAnswer(st, d, Except(mine, answer));
          } else {
            DeleteEachAnswer(st, d, mine);
          }
        } else {
          DeleteEachAnswer(st, d, existing);
          var ok := dns.AddRecord(d, answer);
          MarkRecordManaged(st, d, answer);
        }
      }
    }

    /** The apply pass over the desired domains in sorted order. */
    method ApplyDesired(st: SyncState, ds: seq<string>, desired: map<string, string>, g: map<string, seq<string>>)
      requires forall d :: d in ds ==> d in desired
      modifies st, dns
      ensures WorldOf(st) == ApplyAll(Cfg(), old(WorldOf(st)), ds, desired, g)
    {
      ghost var target := ApplyAll(Cfg(), WorldOf(st), ds, desired, g);
      var i := 0;
      while i < |ds|
        invariant 0 <= i <= |ds|
        invariant target == ApplyAll(Cfg(), WorldOf(st), ds[i..], desired, g)
      {
        var d := ds[i];
        ghost var before := WorldOf(st);
        ApplyOne(st, d, desired[d], Lookup(g, d));
        assert ds[i..][0] == d && ds[i..][1..] == ds[i + 1..];
        assert ApplyAll(Cfg(), before, ds[i..], desired, g) == ApplyAll(Cfg(), WorldOf(st), ds[i + 1..], desired, g);
        i := i + 1;
      }
    }

    /** `sync_once`: `instances` is what `get_instances` returns this cycle,
        `fetch` what `get_routes` does for each of them, `now` the clock. */
    method SyncOnce(instances: seq<Instance>, fetch: Instance -> Fetch, now: nat)
      modifies this, store, dns
      ensures startupCleanupDone
      ensures World(store.contents, dns.Value()) ==
        Sync(Cfg(), old(startupCleanupDone), old(World(store.contents, dns.Value())), instances, fetch, now)
      ensures forall x ::
        (x in old(dns.records) && !IsManaged(old(store.contents.managed), x.domain, x.answer) && !IsStatic(Cfg(), x.domain))
          ==> x in dns.records
    {
      var st := store.Load();
      ghost var w0 := WorldOf(st);
      if !startupCleanupDone {
        CleanupRemovedInstances(st, instances);
        startupCleanupDone := true;
      }
      ghost var w1 := WorldOf(st);
      assert w1 == if old(startupCleanupDone) then w0 else CleanupRemoved(Cfg(), w0, instances);
      SyncStaticRewrites(st);
      ghost var w2 := WorldOf(st);
      ghost var plan := MakePlan(Cfg(), w2, instances, fetch, now);

      var success, seen := PollInstances(st, instances, fetch, now);
      var orphans := PruneDomains(st, instances, success, seen);
      var desired := ComputeDesired(st.domains, instances);
      assert WorldOf(st) == World(plan.polled.st.(domains := plan.pruned), w2.dns);
      assert orphans == plan.orphans && desired == plan.desired;

      var all := dns.GetRecords();
      var g, order := RecordsByDomain(all);
      if excludes != [] {
        g := RemoveExcludedDomains(st, order, g);
      }
      ghost var ph := CleanExcluded(Cfg(), World(plan.polled.st.(domains := plan.pruned), w2.dns), plan.snapshot);
      assert Phase(WorldOf(st), g) == ph;

      var ds := SortSet(desired.Keys);
      ApplyDesired(st, ds, desired, g);
      var gone := SortSet(orphans);
      RetireDomains(st, gone, g);
      assert WorldOf(st) == Execute(Cfg(), w2, plan);
      store.Save(st);
      forall x | x in w0.dns.records && !IsManaged(w0.st.managed, x.domain, x.answer) && !IsStatic(Cfg(), x.domain)
        ensures x in dns.records
      {
        UnmanagedRecordsSurvive(Cfg(), old(startupCleanupDone), w0, instances, fetch, now, x);
      }
    }
  }
}
