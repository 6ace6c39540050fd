/** What one `sync_once` guarantees, proved about the phase functions of
    module Reconcile (which `ExternalDNSSyncer.SyncOnce` is proved to run). */
module Properties {
  import opened Strings
  import opened Classify
  import opened Settings
  import opened Dns
  import opened Ownership
  import opened Reconcile

  // ---------------------------------------------------------------------
  // How far a phase may reach.

  /** From `w` to `w2` records and marks were only taken away; every request
      issued was a delete of a record managed in `w` with its domain in `ds`,
      and only such records disappeared. */
  ghost predicate DeletesOnlyManaged(w: World, w2: World, ds: set<string>)
  {
    && (forall y :: y in w2.dns.records ==> y in w.dns.records)
    && (forall e, b :: IsManaged(w2.st.managed, e, b) ==> IsManaged(w.st.managed, e, b))
    && (forall y :: y in w.dns.records && y !in w2.dns.records ==>
          y.domain in ds && IsManaged(w.st.managed, y.domain, y.answer))
    && w.dns.log <= w2.dns.log
    && (forall k :: |w.dns.log| <= k < |w2.dns.log| ==>
          w2.dns.log[k].Delete? && w2.dns.log[k].domain in ds &&
          IsManaged(w.st.managed, w2.dns.log[k].domain, w2.dns.log[k].answer))
  }

  lemma DeletesOnlyManagedChain(w1: World, w2: World, w3: World, ds: set<string>, es: set<string>)
    requires DeletesOnlyManaged(w1, w2, ds) && DeletesOnlyManaged(w2, w3, es)
    ensures DeletesOnlyManaged(w1, w3, ds + es)
  {
    forall k | |w2.dns.log| <= k < |w3.dns.log|
      ensures IsManaged(w1.st.managed, w3.dns.log[k].domain, w3.dns.log[k].answer)
    {
      assert IsManaged(w2.st.managed, w3.dns.log[k].domain, w3.dns.log[k].answer);
    }
    forall k | |w1.dns.log| <= k < |w2.dns.log|
      ensures w3.dns.log[k] == w2.dns.log[k]
    {
    }
  }

  /** Records and marks of domains outside `ds` are the same in `w` and `w2`. */
  ghost predicate ConfinedTo(w: World, w2: World, ds: set<string>)
  {
    forall e, b :: e !in ds ==>
      (Record(e, b) in w2.dns.records <==> Record(e, b) in w.dns.records) &&
      (IsManaged(w2.st.managed, e, b) <==> IsManaged(w.st.managed, e, b))
  }

  /** One delete-and-unmark of a managed record. */
  lemma DeleteUnmarkedStep(w: World, d: string, a: string, accepts: Call -> bool)
    requires IsManaged(w.st.managed, d, a)
    ensures DeletesOnlyManaged(w, DeleteUnmarked(w, d, a, accepts), {d})
    ensures ConfinedTo(w, DeleteUnmarked(w, d, a, accepts), {d})
  {
    var w2 := DeleteUnmarked(w, d, a, accepts);
    assert w2.dns.log == w.dns.log + [Delete(d, a)];
  }

  lemma {:induction false} DeleteManagedReach(w: World, d: string, answers: seq<string>, accepts: Call -> bool)
    ensures DeletesOnlyManaged(w, DeleteManaged(w, d, answers, accepts).w, {d})
    ensures ConfinedTo(w, DeleteManaged(w, d, answers, accepts).w, {d})
    decreases |answers|
  {
    if answers == [] {
    } else if IsManaged(w.st.managed, d, answers[0]) {
      var w1 := DeleteUnmarked(w, d, answers[0], accepts);
      DeleteUnmarkedStep(w, d, answers[0], accepts);
      DeleteManagedReach(w1, d, answers[1..], accepts);
      DeletesOnlyManagedChain(w, w1, DeleteManaged(w, d, answers, accepts).w, {d}, {d});
    } else {
      DeleteManagedReach(w, d, answers[1..], accepts);
    }
  }

  /** Deletion by the orphan (and removed-instance) pass: only managed
      records of non-static domains in the list disappear, and every
      request issued is such a delete. */
  lemma {:induction false} RetireAllReach(c: Config, w: World, ds: seq<string>, g: map<string, seq<string>>)
    ensures DeletesOnlyManaged(w, RetireAll(c, w, ds, g), set d | d in ds && !IsStatic(c, d))
    ensures ConfinedTo(w, RetireAll(c, w, ds, g), set d | d in ds)
    decreases |ds|
  {
    if ds != [] {
      var w1 := Retire(c, w, ds[0], g);
      var all := set d | d in ds && !IsStatic(c, d);
      if IsStatic(c, ds[0]) {
        assert DeletesOnlyManaged(w, w1, {});
      } else {
        DeleteManagedReach(w, ds[0], Lookup(g, ds[0]), c.accepts);
      }
      RetireAllReach(c, w1, ds[1..], g);
      assert (set d | d in ds[1..] && !IsStatic(c, d)) <= all;
      assert (if IsStatic(c, ds[0]) then {} else {ds[0]}) <= all;
      DeletesOnlyManagedChain(w, w1, RetireAll(c, w, ds, g),
        if IsStatic(c, ds[0]) then {} else {ds[0]}, set d | d in ds[1..] && !IsStatic(c, d));
    }
  }

  /** What remains of `records_by_domain` agrees with what it was built as. */
  ghost predicate SubMap(g: map<string, seq<string>>, g0: map<string, seq<string>>)
  {
    forall d :: d in g ==> d in g0 && g[d] == g0[d]
  }

  /** The exclusion pass deletes only managed records of excluded,
      non-static domains, and only takes domains out of `records_by_domain`. */
  lemma {:induction false} ExcludeAllReach(c: Config, ph: Phase, ds: seq<string>, g0: map<string, seq<string>>)
    requires SubMap(ph.g, g0)
    ensures DeletesOnlyManaged(ph.w, ExcludeAll(c, ph, ds, g0).w, set d | d in ds && !IsStatic(c, d) && Excluded(c, d))
    ensures SubMap(ExcludeAll(c, ph, ds, g0).g, g0)
    decreases |ds|
  {
    if ds != [] {
      var ph1 := ExcludeStep(c, ph, ds[0], g0);
      var here := if IsStatic(c, ds[0]) || !Excluded(c, ds[0]) then {} else {ds[0]};
      if here == {} {
        assert DeletesOnlyManaged(ph.w, ph1.w, {});
      } else {
        DeleteManagedReach(ph.w, ds[0], Lookup(g0, ds[0]), c.accepts);
      }
      ExcludeAllReach(c, ph1, ds[1..], g0);
      var rest := set d | d in ds[1..] && !IsStatic(c, d) && Excluded(c, d);
      DeletesOnlyManagedChain(ph.w, ph1.w, ExcludeAll(c, ph, ds, g0).w, here, rest);
      assert here + rest <= set d | d in ds && !IsStatic(c, d) && Excluded(c, d);
    }
  }

  /** `_cleanup_removed_instances` deletes only managed records of
      non-static domains whose every source was a removed instance. */
  lemma CleanupRemovedReach(c: Config, w: World, instances: seq<Instance>)
    ensures DeletesOnlyManaged(w, CleanupRemoved(c, w, instances),
      set d | d in Emptied(w.st.domains, w.st.instances.Keys - Names(instances)) && !IsStatic(c, d))
  {
    var removed := w.st.instances.Keys - Names(instances);
    if removed != {} {
      var toClean := Emptied(w.st.domains, removed);
      var w1 := w.(st := w.st.(domains := WithoutSources(w.st.domains, removed)));
      var order := SortedList(toClean);
      RetireAllReach(c, w1, order, Grouped(w.dns.records));
      assert (set d | d in order && !IsStatic(c, d)) == set d | d in toClean && !IsStatic(c, d);
    }
  }

  // ---------------------------------------------------------------------
  // Steps confined to one domain.

  lemma {:induction false} DeleteEachReach(w: World, d: string, xs: seq<string>, accepts: Call -> bool)
    ensures ConfinedTo(w, DeleteEach(w, d, xs, accepts), {d})
    ensures forall y :: y in w.dns.records && y.answer !in xs ==> y in DeleteEach(w, d, xs, accepts).dns.records
    decreases |xs|
  {
    if xs != [] {
      var w1 := DeleteUnmarked(w, d, xs[0], accepts);
      DeleteEachReach(w1, d, xs[1..], accepts);
      assert forall y :: y in w.dns.records && y.answer !in xs ==> y in w1.dns.records && y.answer !in xs[1..];
    }
  }

  lemma ApplyDomainConfined(c: Config, w: World, d: string, answer: string, existing: seq<string>)
    ensures ConfinedTo(w, ApplyDomain(c, w, d, answer, existing), {d})
  {
    var mine := ManagedOf(w.st.managed, d, existing);
    var others := UnmanagedOf(w.st.managed, d, existing);
    if existing == [] || (|existing| == 1 && existing[0] == answer) {
    } else if others == [] {
      DeleteEachReach(w, d, existing, c.accepts);
    } else if answer in others {
      DeleteEachReach(Adopt(w, d, answer), d, Except(mine, answer), c.accepts);
    } else {
      DeleteEachReach(w, d, mine, c.accepts);
    }
  }

  /** The apply step never removes a record of its domain that was unmanaged
      when the step began and was listed among the domain's answers. */
  lemma ApplyDomainSparesUnmanaged(c: Config, w: World, d: string, answer: string, existing: seq<string>, x: Record)
    requires x in w.dns.records && x.domain == d && !IsManaged(w.st.managed, d, x.answer)
    requires existing != [] ==> x.answer in existing
    ensures x in ApplyDomain(c, w, d, answer, existing).dns.records
  {
    var mine := ManagedOf(w.st.managed, d, existing);
    var others := UnmanagedOf(w.st.managed, d, existing);
    if existing == [] || (|existing| == 1 && existing[0] == answer) {
    } else if others != [] {
      assert x.answer !in mine && x.answer !in Except(mine, answer);
      DeleteEachReach(w, d, mine, c.accepts);
      DeleteEachReach(Adopt(w, d, answer), d, Except(mine, answer), c.accepts);
    }
  }

  lemma {:induction false} ApplyAllConfined(c: Config, w: World, ds: seq<string>, desired: map<string, string>, g: map<string, seq<string>>)
    requires forall d :: d in ds ==> d in desired
    ensures ConfinedTo(w, ApplyAll(c, w, ds, desired, g), set d | d in ds)
    decreases |ds|
  {
    if ds != [] {
      var w1 := ApplyDomain(c, w, ds[0], desired[ds[0]], Lookup(g, ds[0]));
      ApplyDomainConfined(c, w, ds[0], desired[ds[0]], Lookup(g, ds[0]));
      ApplyAllConfined(c, w1, ds[1..], desired, g);
    }
  }

  /** The apply pass keeps every record that was unmanaged when it began,
      provided `records_by_domain` lists it (or lost its domain). */
  lemma {:induction false} ApplyAllSparesUnmanaged(c: Config, w: World, ds: seq<string>, desired: map<string, string>,
                                                   g: map<string, seq<string>>, x: Record)
    requires forall d :: d in ds ==> d in desired
    requires NoDup(ds)
    requires x in w.dns.records && !IsManaged(w.st.managed, x.domain, x.answer)
    requires x.domain in g ==> x.answer in g[x.domain]
    ensures x in ApplyAll(c, w, ds, desired, g).dns.records
    ensures x.domain !in ds ==> !IsManaged(ApplyAll(c, w, ds, desired, g).st.managed, x.domain, x.answer)
    decreases |ds|
  {
    if ds != [] {
      var w1 := ApplyDomain(c, w, ds[0], desired[ds[0]], Lookup(g, ds[0]));
      assert x == Record(x.domain, x.answer);
      ApplyDomainConfined(c, w, ds[0], desired[ds[0]], Lookup(g, ds[0]));
      assert NoDup(ds[1..]);
      if ds[0] == x.domain {
        ApplyDomainSparesUnmanaged(c, w, ds[0], desired[ds[0]], Lookup(g, ds[0]), x);
        assert x.domain !in ds[1..];
        ApplyAllConfined(c, w1, ds[1..], desired, g);
      } else {
        ApplyAllSparesUnmanaged(c, w1, ds[1..], desired, g, x);
      }
    }
  }

  /** The domains of the configured static rewrites. */
  ghost function StaticDomains(c: Config): set<string>
  {
    set rw | rw in c.staticRewrites :: rw.domain
  }

  lemma NotStaticOutside(c: Config, d: string)
    requires !IsStatic(c, d)
    ensures d !in StaticDomains(c)
  {
  }

  lemma StaticStepConfined(c: Config, w: World, rw: Rewrite, current: map<string, string>)
    ensures ConfinedTo(w, StaticStep(c, w, rw, current), {rw.domain})
  {
  }

  lemma {:induction false} StaticAllConfined(c: Config, w: World, rws: Rewrites, current: map<string, string>)
    ensures ConfinedTo(w, StaticAll(c, w, rws, current), set rw | rw in rws :: rw.domain)
    decreases |rws|
  {
    if rws != [] {
      StaticStepConfined(c, w, rws[0], current);
      StaticAllConfined(c, StaticStep(c, w, rws[0], current), rws[1..], current);
      assert (set rw | rw in rws[1..] :: rw.domain) <= set rw | rw in rws :: rw.domain;
    }
  }

  /** `_sync_static_rewrites` touches nothing outside the static domains. */
  lemma SyncStaticConfined(c: Config, w: World)
    ensures ConfinedTo(w, SyncStatic(c, w), StaticDomains(c))
  {
    if c.staticRewrites != [] {
      StaticAllConfined(c, w, c.staticRewrites, Current(w.dns.records));
    }
  }

  lemma {:induction false} ScanRoutesKeeps(c: Config, inst: Instance, now: nat, s: Scan, routes: seq<Route>)
    ensures ScanRoutes(c, inst, now, s, routes).st.managed == s.st.managed
    ensures ScanRoutes(c, inst, now, s, routes).st.instances == s.st.instances
    decreases |routes|
  {
    if routes != [] {
      ScanRoutesKeeps(c, inst, now, RouteStep(c, inst, now, s, routes[0]), routes[1..]);
    }
  }

  /** Polling changes neither the provider nor `managed_records`. */
  lemma {:induction false} PollAllKeepsManaged(c: Config, p: Polled, instances: seq<Instance>, fetch: Instance -> Fetch, now: nat)
    ensures PollAll(c, p, instances, fetch, now).st.managed == p.st.managed
    decreases |instances|
  {
    if instances != [] {
      var inst := instances[0];
      if fetch(inst).Fetched? {
        ScanRoutesKeeps(c, inst, now, Scan(p.st, {}), fetch(inst).routes);
      }
      PollAllKeepsManaged(c, PollOne(c, p, inst, fetch(inst), now), instances[1..], fetch, now);
    }
  }

  /** Every record is listed under its domain in `records_by_domain`. */
  lemma {:induction false} GroupedHas(rs: seq<Record>)
    ensures forall r :: r in rs ==> r.domain in Grouped(rs) && r.answer in Grouped(rs)[r.domain]
    decreases |rs|
  {
    if rs != [] {
      var init := rs[..|rs| - 1];
      GroupedHas(init);
      assert forall r :: r in rs ==> r in init || r == rs[|rs| - 1];
    }
  }

  /** A domain left without sources is not desired. */
  lemma OrphansNotDesired(pruned: map<string, Sources>, instances: seq<Instance>)
    ensures forall d :: d in Orphans(pruned) ==> d !in Desired(pruned, instances)
  {
    PickFromNone(instances);
  }

  lemma StrictlySortedNoDup(s: seq<string>)
    requires StrictlySorted(s)
    ensures NoDup(s)
  {
    forall i, j | 0 <= i < j < |s| ensures s[i] != s[j] {
      LexIrreflexive(s[i]);
    }
  }

  /** The orphan pass of `sync_once` deletes a record only when its domain
      was left without sources, is not a static rewrite, and the record is
      managed; every request it issues is such a delete. */
  lemma OrphanPassSafe(c: Config, w: World, pruned: map<string, Sources>, g: map<string, seq<string>>, x: Record)
    ensures DeletesOnlyManaged(w, RetireAll(c, w, SortedList(Orphans(pruned)), g),
      set d | d in Orphans(pruned) && !IsStatic(c, d))
    ensures x in w.dns.records && x !in RetireAll(c, w, SortedList(Orphans(pruned)), g).dns.records ==>
      x.domain in pruned && pruned[x.domain] == map[] && !IsStatic(c, x.domain) &&
      IsManaged(w.st.managed, x.domain, x.answer)
  {
    var os := SortedList(Orphans(pruned));
    RetireAllReach(c, w, os, g);
    assert (set d | d in os && !IsStatic(c, d)) == set d | d in Orphans(pruned) && !IsStatic(c, d);
  }

  // ---------------------------------------------------------------------
  // Domains whose records are all unmanaged.

  lemma {:induction false} ManagedOfNone(m: Managed, d: string, xs: seq<string>)
    requires forall a :: a in xs ==> !IsManaged(m, d, a)
    ensures ManagedOf(m, d, xs) == []
    decreases |xs|
  {
    if xs != [] {
      assert forall a :: a in xs[1..] ==> a in xs;
      ManagedOfNone(m, d, xs[1..]);
    }
  }

  /** The managed-answer loop over answers none of which is managed deletes
      nothing and reports that it deleted nothing. */
  lemma {:induction false} DeleteManagedNoneManaged(w: World, d: string, answers: seq<string>, accepts: Call -> bool)
    requires forall a :: a in answers ==> !IsManaged(w.st.managed, d, a)
    ensures DeleteManaged(w, d, answers, accepts) == Swept(w, false)
    decreases |answers|
  {
    if answers != [] {
      assert forall a :: a in answers[1..] ==> a in answers;
      DeleteManagedNoneManaged(w, d, answers[1..], accepts);
    }
  }

  /** An excluded domain whose records are all unmanaged keeps them: the
      exclusion pass issues no request, marks nothing, and leaves the domain
      in `records_by_domain`. */
  lemma ExcludeStepSparesUnmanaged(c: Config, ph: Phase, d: string, g0: map<string, seq<string>>)
    requires forall a :: a in Lookup(g0, d) ==> !IsManaged(ph.w.st.managed, d, a)
    ensures ExcludeStep(c, ph, d, g0).w.dns == ph.w.dns
    ensures ExcludeStep(c, ph, d, g0).w.st.managed == ph.w.st.managed
    ensures ExcludeStep(c, ph, d, g0).g == ph.g
  {
    DeleteManagedNoneManaged(ph.w, d, Lookup(g0, d), c.accepts);
  }

  /** A desired answer that differs from every existing record of its
      domain, none of which is managed, is skipped: the apply step changes
      neither the provider nor the state. */
  lemma ApplyDomainSkipsUnmanaged(c: Config, w: World, d: string, answer: string, existing: seq<string>)
    requires existing != [] && answer !in existing
    requires forall a :: a in existing ==> !IsManaged(w.st.managed, d, a)
    ensures ApplyDomain(c, w, d, answer, existing) == w
  {
    ManagedOfNone(w.st.managed, d, existing);
    assert existing[0] in UnmanagedOf(w.st.managed, d, existing);
  }

  // ---------------------------------------------------------------------
  // A whole cycle.

  /** `sync_once` never deletes a record that was not managed when the cycle
      began, unless its domain is a static rewrite. */
  lemma UnmanagedRecordsSurvive(c: Config, cleanupDone: bool, w: World, instances: seq<Instance>,
                                fetch: Instance -> Fetch, now: nat, x: Record)
    requires x in w.dns.records && !IsManaged(w.st.managed, x.domain, x.answer) && !IsStatic(c, x.domain)
    ensures x in Sync(c, cleanupDone, w, instances, fetch, now).dns.records
  {
    assert x == Record(x.domain, x.answer);
    var w1 := if cleanupDone then w else CleanupRemoved(c, w, instances);
    if !cleanupDone {
      CleanupRemovedReach(c, w, instances);
    }
    var w2 := SyncStatic(c, w1);
    SyncStaticConfined(c, w1);
    NotStaticOutside(c, x.domain);
    var pl := MakePlan(c, w2, instances, fetch, now);
    PollAllKeepsManaged(c, Polled(w2.st, map[], map[]), instances, fetch, now);
    var w3 := World(pl.polled.st.(domains := pl.pruned), w2.dns);
    assert x in w3.dns.records && !IsManaged(w3.st.managed, x.domain, x.answer);
    var g0 := Grouped(pl.snapshot);
    GroupedHas(pl.snapshot);
    var ph := CleanExcluded(c, w3, pl.snapshot);
    if c.excludes != [] {
      ExcludeAllReach(c, Phase(w3, g0), FirstSeen(pl.snapshot), g0);
    }
    assert SubMap(ph.g, g0);
    var ds := SortedList(pl.desired.Keys);
    StrictlySortedNoDup(ds);
    var w4 := ApplyAll(c, ph.w, ds, pl.desired, ph.g);
    ApplyAllSparesUnmanaged(c, ph.w, ds, pl.desired, ph.g, x);
    var os := SortedList(pl.orphans);
    RetireAllReach(c, w4, os, ph.g);
    if x.domain in ds {
      OrphansNotDesired(pl.pruned, instances);
      assert x.domain !in os;
    }
    assert Sync(c, cleanupDone, w, instances, fetch, now) == RetireAll(c, w4, os, ph.g);
  }
}
