/** What `sync_once` computes from the instances' reports: which sources are
    kept, which answer wins, what an unreachable instance leaves alone, and a
    cycle that changes nothing. */
module Cycle {
  import opened Strings
  import opened Classify
  import opened Settings
  import opened Dns
  import opened Ownership
  import opened Reconcile

  // ---------------------------------------------------------------------
  // Pruning.

  /** A source is kept exactly when no configured instance of its name
      confirmed the domain absent; kept sources are not altered. */
  lemma {:induction false} PruneSourcesKeeps(src: Sources, d: string, instances: seq<Instance>,
                                             success: map<string, bool>, seen: map<string, set<string>>)
    ensures forall n :: n in PruneSources(src, d, instances, success, seen) <==>
      n in src && !(n in Names(instances) && ConfirmedAbsent(success, seen, n, d))
    ensures forall n :: n in PruneSources(src, d, instances, success, seen) ==>
      PruneSources(src, d, instances, success, seen)[n] == src[n]
    decreases |instances|
  {
    if instances != [] {
      var n := instances[0].name;
      var src' := if ConfirmedAbsent(success, seen, n, d) && n in src then src - {n} else src;
      PruneSourcesKeeps(src', d, instances[1..], success, seen);
      assert forall m :: m in Names(instances) <==> m == n || m in Names(instances[1..]) by {
        assert forall i :: i in instances <==> i == instances[0] || i in instances[1..];
      }
    }
  }

  // ---------------------------------------------------------------------
  // The answer of a domain.

  /** The instance is a source of the domain with a non-empty answer. */
  predicate Reports(src: Sources, inst: Instance)
  {
    inst.name in src && src[inst.name].answer != ""
  }

  /** No answer exactly when no configured instance reports one. */
  lemma {:induction false} PickNone(src: Sources, instances: seq<Instance>)
    ensures Pick(src, instances).None? <==> forall i :: 0 <= i < |instances| ==> !Reports(src, instances[i])
    decreases |instances|
  {
    if instances != [] {
      PickNone(src, instances[1..]);
      assert forall i :: 1 <= i < |instances| ==> instances[i] == instances[1..][i - 1];
    }
  }

  /** The answer is that of the first configured instance that reports one. */
  lemma {:induction false} PickFirst(src: Sources, instances: seq<Instance>, k: nat)
    requires k < |instances| && Reports(src, instances[k])
    requires forall j :: 0 <= j < k ==> !Reports(src, instances[j])
    ensures Pick(src, instances) == Some(src[instances[k].name].answer)
    decreases k
  {
    if k > 0 {
      PickFirst(src, instances[1..], k - 1);
    }
  }

  /** And conversely: whatever is picked comes from such a first instance. */
  lemma {:induction false} PickFrom(src: Sources, instances: seq<Instance>)
    requires Pick(src, instances).Some?
    ensures exists k :: (0 <= k < |instances| && Reports(src, instances[k]) &&
                         Pick(src, instances).value == src[instances[k].name].answer &&
                         forall j :: 0 <= j < k ==> !Reports(src, instances[j]))
    decreases |instances|
  {
    if !Reports(src, instances[0]) {
      PickFrom(src, instances[1..]);
      var k :| 0 <= k < |instances[1..]| && Reports(src, instances[1..][k]) &&
        Pick(src, instances[1..]).value == src[instances[1..][k].name].answer &&
        forall j :: 0 <= j < k ==> !Reports(src, instances[1..][j]);
      assert forall j :: 0 <= j < k + 1 ==> !Reports(src, instances[j]) by {
        forall j | 0 < j < k + 1 ensures !Reports(src, instances[j]) {
          assert instances[j] == instances[1..][j - 1];
        }
      }
      assert instances[k + 1] == instances[1..][k];
    } else {
      assert Reports(src, instances[0]);
    }
  }

  /** A domain is desired exactly when some configured instance reports a
      non-empty answer for it, and then with the first such answer. */
  lemma DesiredDomains(domains: map<string, Sources>, instances: seq<Instance>, d: string)
    ensures d in Desired(domains, instances) <==>
      d in domains && exists i :: 0 <= i < |instances| && Reports(domains[d], instances[i])
    ensures d in Desired(domains, instances) ==>
      exists k :: (0 <= k < |instances| && Reports(domains[d], instances[k]) &&
                   Desired(domains, instances)[d] == domains[d][instances[k].name].answer &&
                   forall j :: 0 <= j < k ==> !Reports(domains[d], instances[j]))
  {
    if d in domains {
      PickNone(domains[d], instances);
      if Pick(domains[d], instances).Some? {
        PickFrom(domains[d], instances);
      }
    }
  }

  // ---------------------------------------------------------------------
  // Polling.

  lemma {:induction false} ScanRoutesKeepsSources(c: Config, inst: Instance, now: nat, s: Scan, routes: seq<Route>)
    ensures forall d, n :: d in s.st.domains && n in s.st.domains[d] ==>
      d in ScanRoutes(c, inst, now, s, routes).st.domains && n in ScanRoutes(c, inst, now, s, routes).st.domains[d]
    ensures forall d, n :: n != inst.name && d in s.st.domains && n in s.st.domains[d] ==>
      ScanRoutes(c, inst, now, s, routes).st.domains[d][n] == s.st.domains[d][n]
    decreases |routes|
  {
    if routes != [] {
      var s1 := RouteStep(c, inst, now, s, routes[0]);
      assert forall d, n :: d in s.st.domains && n in s.st.domains[d] ==>
        d in s1.st.domains && n in s1.st.domains[d] && (n != inst.name ==> s1.st.domains[d][n] == s.st.domains[d][n]);
      ScanRoutesKeepsSources(c, inst, now, RouteStep(c, inst, now, s, routes[0]), routes[1..]);
    }
  }

  /** Polling never removes a domain or a source, and leaves the sources of an
      instance whose every poll failed as they were; such an instance is not
      recorded as a success. */
  lemma {:induction false} PollAllKeepsSources(c: Config, p: Polled, instances: seq<Instance>,
                                               fetch: Instance -> Fetch, now: nat, n: string)
    requires forall i :: i in instances && i.name == n ==> fetch(i).Unreachable?
    ensures forall d, m :: d in p.st.domains && m in p.st.domains[d] ==>
      d in PollAll(c, p, instances, fetch, now).st.domains && m in PollAll(c, p, instances, fetch, now).st.domains[d]
    ensures forall d :: d in p.st.domains && n in p.st.domains[d] ==>
      PollAll(c, p, instances, fetch, now).st.domains[d][n] == p.st.domains[d][n]
    ensures (n in p.success ==> !p.success[n]) ==>
      n in PollAll(c, p, instances, fetch, now).success ==> !PollAll(c, p, instances, fetch, now).success[n]
    decreases |instances|
  {
    if instances != [] {
      var inst := instances[0];
      if fetch(inst).Fetched? {
        ScanRoutesKeepsSources(c, inst, now, Scan(p.st, {}), fetch(inst).routes);
      }
      PollAllKeepsSources(c, PollOne(c, p, inst, fetch(inst), now), instances[1..], fetch, now, n);
    }
  }

  /** An instance that could not be reached this cycle costs none of its
      domains: each keeps its source from that instance, with its answer and
      time, so it is neither orphaned nor deleted. */
  lemma UnreachableInstanceKeepsDomains(c: Config, w: World, instances: seq<Instance>,
                                        fetch: Instance -> Fetch, now: nat, n: string, d: string)
    requires forall i :: i in instances && i.name == n ==> fetch(i).Unreachable?
    requires d in w.st.domains && n in w.st.domains[d]
    ensures d in MakePlan(c, w, instances, fetch, now).pruned
    ensures n in MakePlan(c, w, instances, fetch, now).pruned[d]
    ensures MakePlan(c, w, instances, fetch, now).pruned[d][n] == w.st.domains[d][n]
    ensures d !in MakePlan(c, w, instances, fetch, now).orphans
  {
    var p := PollAll(c, Polled(w.st, map[], map[]), instances, fetch, now);
    PollAllKeepsSources(c, Polled(w.st, map[], map[]), instances, fetch, now, n);
    PruneSourcesKeeps(p.st.domains[d], d, instances, p.success, p.seen);
  }

  /** Routes with other hostnames leave the sources of `d` alone. */
  lemma {:induction false} ScanRoutesAvoids(c: Config, inst: Instance, now: nat, s: Scan, routes: seq<Route>, d: string)
    requires forall rt :: rt in routes ==> rt.hostname != d
    ensures d in ScanRoutes(c, inst, now, s, routes).st.domains <==> d in s.st.domains
    ensures d in s.st.domains ==> ScanRoutes(c, inst, now, s, routes).st.domains[d] == s.st.domains[d]
    decreases |routes|
  {
    if routes != [] {
      ScanRoutesAvoids(c, inst, now, RouteStep(c, inst, now, s, routes[0]), routes[1..], d);
    }
  }

  /** Polling where every instance named `n` answers with no routes and no
      route names `d`: the sources of `d` stay as they were, and `n` ends
      confirmed absent from `d` once polled. */
  lemma {:induction false} PollAllEmptyReport(c: Config, p: Polled, instances: seq<Instance>,
                                              fetch: Instance -> Fetch, now: nat, n: string, d: string)
    requires forall i :: i in instances && i.name == n ==> fetch(i) == Fetched([])
    requires forall i, rt :: i in instances && fetch(i).Fetched? && rt in fetch(i).routes ==> rt.hostname != d
    ensures d in PollAll(c, p, instances, fetch, now).st.domains <==> d in p.st.domains
    ensures d in p.st.domains ==> PollAll(c, p, instances, fetch, now).st.domains[d] == p.st.domains[d]
    ensures n in Names(instances) || ConfirmedAbsent(p.success, p.seen, n, d) ==>
      ConfirmedAbsent(PollAll(c, p, instances, fetch, now).success, PollAll(c, p, instances, fetch, now).seen, n, d)
    decreases |instances|
  {
    if instances != [] {
      var inst := instances[0];
      if fetch(inst).Fetched? {
        ScanRoutesAvoids(c, inst, now, Scan(p.st, {}), fetch(inst).routes, d);
      }
      var p1 := PollOne(c, p, inst, fetch(inst), now);
      assert inst.name == n ==> ConfirmedAbsent(p1.success, p1.seen, n, d);
      assert Names(instances) == {inst.name} + Names(instances[1..]) by {
        assert forall i :: i in instances <==> i == inst || i in instances[1..];
      }
      PollAllEmptyReport(c, p1, instances[1..], fetch, now, n, d);
    }
  }

  /** A reachable instance whose routers body is not a list reports no routes
      (`get_routes` returns `[]`) and still counts as a success, so every
      domain that it alone sourced, and that no other instance routes this
      cycle, is orphaned: it loses its desired answer and, unless static, its
      managed records are deleted by the orphan pass. */
  lemma EmptyReportOrphans(c: Config, w: World, instances: seq<Instance>,
                           fetch: Instance -> Fetch, now: nat, n: string, d: string)
    requires n in Names(instances)
    requires forall i :: i in instances && i.name == n ==> fetch(i) == Fetched([])
    requires forall i, rt :: i in instances && fetch(i).Fetched? && rt in fetch(i).routes ==> rt.hostname != d
    requires d in w.st.domains && w.st.domains[d].Keys == {n}
    ensures d in MakePlan(c, w, instances, fetch, now).orphans
    ensures d !in MakePlan(c, w, instances, fetch, now).desired
  {
    var pl := MakePlan(c, w, instances, fetch, now);
    var p := pl.polled;
    PollAllEmptyReport(c, Polled(w.st, map[], map[]), instances, fetch, now, n, d);
    var pd := PruneSources(p.st.domains[d], d, instances, p.success, p.seen);
    PruneSourcesKeeps(p.st.domains[d], d, instances, p.success, p.seen);
    assert pd.Keys == {};
    assert pl.pruned[d] == pd == map[];
    PickFromNone(instances);
  }

  // ---------------------------------------------------------------------
  // Removed instances.

  lemma {:induction false} DeleteManagedKeepsState(w: World, d: string, answers: seq<string>, accepts: Call -> bool)
    ensures DeleteManaged(w, d, answers, accepts).w.st.instances == w.st.instances
    ensures DeleteManaged(w, d, answers, accepts).w.st.domains == w.st.domains
    decreases |answers|
  {
    if answers != [] {
      DeleteManagedKeepsState(DeleteUnmarked(w, d, answers[0], accepts), d, answers[1..], accepts);
      DeleteManagedKeepsState(w, d, answers[1..], accepts);
    }
  }

  lemma {:induction false} RetireAllShrinks(c: Config, w: World, ds: seq<string>, g: map<string, seq<string>>)
    ensures RetireAll(c, w, ds, g).st.instances == w.st.instances
    ensures forall d :: d in RetireAll(c, w, ds, g).st.domains ==>
      d in w.st.domains && RetireAll(c, w, ds, g).st.domains[d] == w.st.domains[d]
    ensures forall d :: d in ds && !IsStatic(c, d) ==> d !in RetireAll(c, w, ds, g).st.domains
    decreases |ds|
  {
    if ds != [] {
      if !IsStatic(c, ds[0]) {
        DeleteManagedKeepsState(w, ds[0], Lookup(g, ds[0]), c.accepts);
      }
      RetireAllShrinks(c, Retire(c, w, ds[0], g), ds[1..], g);
    }
  }

  /** `_cleanup_removed_instances` forgets every instance no longer configured
      and every source it had reported. */
  lemma CleanupForgetsRemoved(c: Config, w: World, instances: seq<Instance>)
    ensures CleanupRemoved(c, w, instances).st.instances.Keys == w.st.instances.Keys * Names(instances)
    ensures forall d, n ::
      (d in CleanupRemoved(c, w, instances).st.domains && n in CleanupRemoved(c, w, instances).st.domains[d]) ==>
        n !in w.st.instances || n in Names(instances)
  {
    var removed := w.st.instances.Keys - Names(instances);
    if removed == {} {
      forall k | k in w.st.instances.Keys ensures k in Names(instances) {
        assert k !in removed;
      }
    } else {
      assert RemoveKeys(w.st.instances, removed).Keys == w.st.instances.Keys * Names(instances);
      var w1 := w.(st := w.st.(domains := WithoutSources(w.st.domains, removed)));
      RetireAllShrinks(c, w1, SortedList(Emptied(w.st.domains, removed)), Grouped(w.dns.records));
    }
  }

  // ---------------------------------------------------------------------
  // A settled domain.

  /** When every desired domain already has exactly its desired record, the
      apply pass issues no request and leaves the records alone; it only marks
      them managed. */
  lemma {:induction false} ApplyAllSettled(c: Config, w: World, ds: seq<string>, desired: map<string, string>,
                                           g: map<string, seq<string>>)
    requires forall d :: d in ds ==> d in desired && Lookup(g, d) == [desired[d]]
    ensures ApplyAll(c, w, ds, desired, g).dns == w.dns
    ensures forall d :: d in ds ==> IsManaged(ApplyAll(c, w, ds, desired, g).st.managed, d, desired[d])
    ensures forall e, b :: IsManaged(w.st.managed, e, b) ==> IsManaged(ApplyAll(c, w, ds, desired, g).st.managed, e, b)
    decreases |ds|
  {
    if ds != [] {
      var w1 := ApplyDomain(c, w, ds[0], desired[ds[0]], Lookup(g, ds[0]));
      assert w1 == Adopt(w, ds[0], desired[ds[0]]);
      ApplyAllSettled(c, w1, ds[1..], desired, g);
    }
  }
}
