/** Two cycles in a row. When every instance answers, the provider accepts
    every request and starts empty, the first `sync_once` creates exactly the
    static records and one record per desired domain, and a second
    `sync_once` with the same routes issues no request at all: the desired
    answers depend on the routes only, not on the saved sources or the time. */
module Settling {
  import opened Strings
  import opened Classify
  import opened Settings
  import opened Dns
  import opened Ownership
  import opened Reconcile
  import opened Properties
  import opened Cycle
  import opened Statics
  import Syncer

  // ---------------------------------------------------------------------
  // `records_by_domain` and the `{domain: answer}` dictionary of a list
  // built from parts.

  lemma LookupSnoc(rs: seq<Record>, r: Record, d: string)
    ensures Lookup(Grouped(rs + [r]), d) == Lookup(Grouped(rs), d) + (if r.domain == d then [r.answer] else [])
  {
    assert (rs + [r])[..|rs|] == rs;
  }

  lemma {:induction false} GroupedAppend(xs: seq<Record>, ys: seq<Record>, d: string)
    ensures Lookup(Grouped(xs + ys), d) == Lookup(Grouped(xs), d) + Lookup(Grouped(ys), d)
    decreases |ys|
  {
    if ys == [] {
      assert xs + ys == xs;
    } else {
      var ys', z := ys[..|ys| - 1], ys[|ys| - 1];
      var e := if z.domain == d then [z.answer] else [];
      assert ys == ys' + [z];
      assert xs + ys == (xs + ys') + [z];
      LookupSnoc(xs + ys', z, d);
      LookupSnoc(ys', z, d);
      GroupedAppend(xs, ys', d);
      assert Lookup(Grouped(xs), d) + Lookup(Grouped(ys'), d) + e == Lookup(Grouped(xs), d) + (Lookup(Grouped(ys'), d) + e);
    }
  }

  lemma {:induction false} GroupedNonEmpty(rs: seq<Record>, d: string)
    requires d in Grouped(rs)
    ensures Lookup(Grouped(rs), d) != []
    decreases |rs|
  {
    if rs[|rs| - 1].domain != d {
      GroupedNonEmpty(rs[..|rs| - 1], d);
    }
  }

  lemma GroupedOne(r: Record)
    ensures Grouped([r]) == map[r.domain := [r.answer]]
  {
    var g: map<string, seq<string>> := map[];
    assert [r][..0] == [] && Grouped([r][..0]) == g;
    assert Lookup(g, r.domain) + [r.answer] == [r.answer];
  }

  /** The dictionary holds the last answer `records_by_domain` lists. */
  lemma {:induction false} CurrentIsLast(rs: seq<Record>, d: string)
    ensures d in Current(rs) <==> Lookup(Grouped(rs), d) != []
    ensures d in Current(rs) ==> Current(rs)[d] == Lookup(Grouped(rs), d)[|Lookup(Grouped(rs), d)| - 1]
    decreases |rs|
  {
    if rs != [] {
      CurrentIsLast(rs[..|rs| - 1], d);
    }
  }

  /** The records of a list of rewrites, in order. */
  function RewriteRecords(rws: Rewrites): seq<Record>
    decreases |rws|
  {
    if rws == [] then [] else [Record(rws[0].domain, rws[0].answer)] + RewriteRecords(rws[1..])
  }

  /** The records of the desired answers of a list of domains, in order. */
  function DesiredRecords(ds: seq<string>, desired: map<string, string>): seq<Record>
    requires forall d :: d in ds ==> d in desired
    decreases |ds|
  {
    if ds == [] then [] else [Record(ds[0], desired[ds[0]])] + DesiredRecords(ds[1..], desired)
  }

  /** With one rewrite per domain, `records_by_domain` of their records lists
      the configured answer of a static domain and nothing for any other. */
  lemma {:induction false} RewriteRecordsLookup(rws: Rewrites, d: string)
    requires DistinctDomains(rws)
    ensures Lookup(Grouped(RewriteRecords(rws)), d) == (if Get(rws, d).Some? then [Get(rws, d).value] else [])
    decreases |rws|
  {
    if rws != [] {
      var r := Record(rws[0].domain, rws[0].answer);
      DistinctTail(rws);
      RewriteRecordsLookup(rws[1..], d);
      GroupedAppend([r], RewriteRecords(rws[1..]), d);
      GroupedOne(r);
      if rws[0].domain == d {
        assert Get(rws[1..], d).None? by {
          forall k | 0 <= k < |rws[1..]| ensures rws[1..][k].domain != d {
            assert rws[1..][k] in rws[1..];
          }
        }
      }
    }
  }

  /** `records_by_domain` of the desired records of distinct domains lists
      each domain's desired answer once. */
  lemma {:induction false} DesiredRecordsLookup(ds: seq<string>, desired: map<string, string>, d: string)
    requires forall e :: e in ds ==> e in desired
    requires NoDup(ds)
    ensures Lookup(Grouped(DesiredRecords(ds, desired)), d) == (if d in ds then [desired[d]] else [])
    decreases |ds|
  {
    if ds != [] {
      var r := Record(ds[0], desired[ds[0]]);
      assert NoDup(ds[1..]) by {
        forall i, j | 0 <= i < j < |ds[1..]| ensures ds[1..][i] != ds[1..][j] {
          assert ds[1..][i] == ds[i + 1] && ds[1..][j] == ds[j + 1];
        }
      }
      assert ds[0] !in ds[1..] by {
        forall k | 0 <= k < |ds[1..]| ensures ds[1..][k] != ds[0] {
          assert ds[1..][k] == ds[k + 1];
        }
      }
      assert forall e :: e in ds <==> e == ds[0] || e in ds[1..];
      DesiredRecordsLookup(ds[1..], desired, d);
      GroupedAppend([r], DesiredRecords(ds[1..], desired), d);
      GroupedOne(r);
    }
  }

  /** With one rewrite per domain, a configured rewrite is what its domain gets. */
  lemma {:induction false} GetMember(m: Rewrites, x: Rewrite)
    requires DistinctDomains(m) && x in m
    ensures Get(m, x.domain) == Some(x.answer)
    decreases |m|
  {
    if m[0] != x {
      DistinctTail(m);
      assert x in m[1..];
      GetMember(m[1..], x);
    }
  }

  // ---------------------------------------------------------------------
  // Phases that issue no request, and phases that only add.

  /** Retiring domains that `records_by_domain` has nothing for issues nothing. */
  lemma {:induction false} RetireAllQuiet(c: Config, w: World, ds: seq<string>, g: map<string, seq<string>>)
    requires forall d :: d in ds && !IsStatic(c, d) ==> Lookup(g, d) == []
    ensures RetireAll(c, w, ds, g).dns == w.dns
    decreases |ds|
  {
    if ds != [] {
      RetireAllQuiet(c, Retire(c, w, ds[0], g), ds[1..], g);
    }
  }

  /** No excluded domain that is not static: the exclusion pass does nothing. */
  lemma {:induction false} ExcludeAllQuiet(c: Config, ph: Phase, ds: seq<string>, g0: map<string, seq<string>>)
    requires forall d :: d in ds ==> IsStatic(c, d) || !Excluded(c, d)
    ensures ExcludeAll(c, ph, ds, g0) == ph
    decreases |ds|
  {
    if ds != [] {
      ExcludeAllQuiet(c, ph, ds[1..], g0);
    }
  }

  /** Every static domain already answers its rewrite: the pass only adopts. */
  lemma {:induction false} StaticAllQuiet(c: Config, w: World, rws: Rewrites, cur: map<string, string>)
    requires forall rw :: rw in rws ==> rw.domain in cur && cur[rw.domain] == rw.answer
    ensures StaticAll(c, w, rws, cur).dns == w.dns
    decreases |rws|
  {
    if rws != [] {
      StaticAllQuiet(c, StaticStep(c, w, rws[0], cur), rws[1..], cur);
    }
  }

  /** No static domain has a record yet: every rewrite is added, in order. */
  lemma {:induction false} StaticAllFresh(c: Config, w: World, rws: Rewrites, cur: map<string, string>)
    requires forall k :: c.accepts(k)
    requires forall rw :: rw in rws ==> rw.domain !in cur
    ensures StaticAll(c, w, rws, cur).dns.records == w.dns.records + RewriteRecords(rws)
    decreases |rws|
  {
    if rws == [] {
      assert w.dns.records + [] == w.dns.records;
    } else {
      var r := Record(rws[0].domain, rws[0].answer);
      var w1 := StaticStep(c, w, rws[0], cur);
      FreshStep(c, w, rws[0], cur);
      assert forall rw :: rw in rws[1..] ==> rw in rws;
      StaticAllFresh(c, w1, rws[1..], cur);
      assert StaticAll(c, w, rws, cur) == StaticAll(c, w1, rws[1..], cur);
      assert RewriteRecords(rws) == [r] + RewriteRecords(rws[1..]);
      AppendOneThen(w.dns.records, r, RewriteRecords(rws[1..]));
    }
  }

  lemma AppendOneThen(xs: seq<Record>, r: Record, ys: seq<Record>)
    ensures xs + [r] + ys == xs + ([r] + ys)
  {
  }

  lemma FreshStep(c: Config, w: World, rw: Rewrite, cur: map<string, string>)
    requires forall k :: c.accepts(k)
    requires rw.domain !in cur
    ensures StaticStep(c, w, rw, cur).dns.records == w.dns.records + [Record(rw.domain, rw.answer)]
  {
    assert c.accepts(Add(rw.domain, rw.answer));
  }

  /** No desired domain has a record yet: every desired answer is added, in
      the order of the domains. */
  lemma {:induction false} ApplyAllFresh(c: Config, w: World, ds: seq<string>, desired: map<string, string>,
                                         g: map<string, seq<string>>)
    requires forall k :: c.accepts(k)
    requires forall d :: d in ds ==> d in desired && Lookup(g, d) == []
    ensures ApplyAll(c, w, ds, desired, g).dns.records == w.dns.records + DesiredRecords(ds, desired)
    decreases |ds|
  {
    if ds == [] {
      assert w.dns.records + [] == w.dns.records;
    } else {
      var r := Record(ds[0], desired[ds[0]]);
      var w1 := ApplyDomain(c, w, ds[0], desired[ds[0]], Lookup(g, ds[0]));
      FreshApply(c, w, ds[0], desired[ds[0]]);
      assert forall d :: d in ds[1..] ==> d in ds;
      ApplyAllFresh(c, w1, ds[1..], desired, g);
      assert ApplyAll(c, w, ds, desired, g) == ApplyAll(c, w1, ds[1..], desired, g);
      assert DesiredRecords(ds, desired) == [r] + DesiredRecords(ds[1..], desired);
      AppendOneThen(w.dns.records, r, DesiredRecords(ds[1..], desired));
    }
  }

  lemma FreshApply(c: Config, w: World, d: string, a: string)
    requires forall k :: c.accepts(k)
    ensures ApplyDomain(c, w, d, a, []).dns.records == w.dns.records + [Record(d, a)]
  {
    assert c.accepts(Add(d, a));
  }

  // ---------------------------------------------------------------------
  // The desired answers do not depend on the saved state.

  function SeenBy(p: Polled, n: string): set<string>
  {
    if n in p.seen then p.seen[n] else {}
  }

  /** Two scans of one instance's routes that saw the same hostnames, each
      recording the instance as their source with the same answer. */
  ghost predicate ScanAgree(s: Scan, t: Scan, n: string)
  {
    s.seen == t.seen &&
    forall d :: d in s.seen ==>
      d in s.st.domains && n in s.st.domains[d] && d in t.st.domains && n in t.st.domains[d] &&
      s.st.domains[d][n].answer == t.st.domains[d][n].answer
  }

  lemma {:induction false} ScanRoutesAgree(c: Config, inst: Instance, now1: nat, now2: nat, s: Scan, t: Scan, routes: seq<Route>)
    requires ScanAgree(s, t, inst.name)
    ensures ScanAgree(ScanRoutes(c, inst, now1, s, routes), ScanRoutes(c, inst, now2, t, routes), inst.name)
    decreases |routes|
  {
    if routes != [] {
      var s1 := RouteStep(c, inst, now1, s, routes[0]);
      var t1 := RouteStep(c, inst, now2, t, routes[0]);
      assert ScanAgree(s1, t1, inst.name);
      ScanRoutesAgree(c, inst, now1, now2, s1, t1, routes[1..]);
    }
  }

  /** Two polls that recorded the same successes and the same seen domains,
      and the same answer for every source they saw. */
  ghost predicate PollAgree(p: Polled, q: Polled)
  {
    p.success == q.success && p.seen == q.seen &&
    forall n, d :: n in p.seen && d in p.seen[n] ==>
      d in p.st.domains && n in p.st.domains[d] && d in q.st.domains && n in q.st.domains[d] &&
      p.st.domains[d][n].answer == q.st.domains[d][n].answer
  }

  lemma PollOneAgree(c: Config, p: Polled, q: Polled, inst: Instance, outcome: Fetch, now1: nat, now2: nat)
    requires PollAgree(p, q)
    ensures PollAgree(PollOne(c, p, inst, outcome, now1), PollOne(c, q, inst, outcome, now2))
  {
    if outcome.Fetched? {
      var m := inst.name;
      var s := ScanRoutes(c, inst, now1, Scan(p.st, {}), outcome.routes);
      var t := ScanRoutes(c, inst, now2, Scan(q.st, {}), outcome.routes);
      ScanRoutesAgree(c, inst, now1, now2, Scan(p.st, {}), Scan(q.st, {}), outcome.routes);
      ScanRoutesKeepsSources(c, inst, now1, Scan(p.st, {}), outcome.routes);
      ScanRoutesKeepsSources(c, inst, now2, Scan(q.st, {}), outcome.routes);
      var p1, q1 := PollOne(c, p, inst, outcome, now1), PollOne(c, q, inst, outcome, now2);
      assert p1.st.domains == s.st.domains && q1.st.domains == t.st.domains;
      assert p1.seen == p.seen[m := s.seen] && q1.seen == q.seen[m := t.seen];
      forall n, d | n in p1.seen && d in p1.seen[n]
        ensures d in p1.st.domains && n in p1.st.domains[d] && d in q1.st.domains && n in q1.st.domains[d] &&
                p1.st.domains[d][n].answer == q1.st.domains[d][n].answer
      {
        if n == m {
          assert p1.seen[n] == s.seen && d in s.seen;
        } else {
          assert d in p.seen[n] && p1.seen[n] == p.seen[n] && q1.seen[n] == q.seen[n];
          assert d in p.st.domains && n in p.st.domains[d] && d in q.st.domains && n in q.st.domains[d];
          assert s.st.domains[d][n] == p.st.domains[d][n] && t.st.domains[d][n] == q.st.domains[d][n];
        }
      }
    }
  }

  lemma {:induction false} PollAllAgree(c: Config, p: Polled, q: Polled, instances: seq<Instance>,
                                        fetch: Instance -> Fetch, now1: nat, now2: nat)
    requires PollAgree(p, q)
    ensures PollAgree(PollAll(c, p, instances, fetch, now1), PollAll(c, q, instances, fetch, now2))
    decreases |instances|
  {
    if instances != [] {
      var inst := instances[0];
      PollOneAgree(c, p, q, inst, fetch(inst), now1, now2);
      PollAllAgree(c, PollOne(c, p, inst, fetch(inst), now1), PollOne(c, q, inst, fetch(inst), now2),
                   instances[1..], fetch, now1, now2);
    }
  }

  lemma PollAgreeSym(p: Polled, q: Polled)
    requires PollAgree(p, q)
    ensures PollAgree(q, p)
  {
  }

  /** When every instance answers, every configured instance is a success. */
  lemma {:induction false} PollAllSucceeds(c: Config, p: Polled, instances: seq<Instance>, fetch: Instance -> Fetch, now: nat)
    requires forall i :: i in instances ==> fetch(i).Fetched?
    ensures forall n :: n in Names(instances) || (n in p.success && p.success[n]) ==>
      n in PollAll(c, p, instances, fetch, now).success && PollAll(c, p, instances, fetch, now).success[n]
    decreases |instances|
  {
    if instances != [] {
      assert Names(instances) == {instances[0].name} + Names(instances[1..]) by {
        assert forall i :: i in instances <==> i == instances[0] || i in instances[1..];
      }
      PollAllSucceeds(c, PollOne(c, p, instances[0], fetch(instances[0]), now), instances[1..], fetch, now);
    }
  }

  /** After a successful poll, a configured instance stays a source of a
      domain after pruning exactly when it reported the domain this cycle,
      with the answer it reported. */
  lemma PrunedSource(p: Polled, q: Polled, instances: seq<Instance>, d: string, n: string)
    requires PollAgree(p, q)
    requires n in Names(instances) && n in p.success && p.success[n]
    ensures n in SourcesOf(Pruned(p.st.domains, instances, p.success, p.seen), d) <==> d in SeenBy(p, n)
    ensures d in SeenBy(p, n) ==>
      SourcesOf(Pruned(p.st.domains, instances, p.success, p.seen), d)[n] == p.st.domains[d][n]
  {
    if d in p.st.domains {
      PruneSourcesKeeps(p.st.domains[d], d, instances, p.success, p.seen);
    }
  }

  lemma {:induction false} PickAgree(sp: Sources, sq: Sources, instances: seq<Instance>)
    requires forall i :: i in instances ==>
      (i.name in sp <==> i.name in sq) && (i.name in sp ==> sp[i.name].answer == sq[i.name].answer)
    ensures Pick(sp, instances) == Pick(sq, instances)
    decreases |instances|
  {
    if instances != [] {
      assert forall i :: i in instances[1..] ==> i in instances;
      PickAgree(sp, sq, instances[1..]);
    }
  }

  lemma DesiredBySources(pruned: map<string, Sources>, instances: seq<Instance>, d: string)
    ensures d in Desired(pruned, instances) <==> Pick(SourcesOf(pruned, d), instances).Some?
    ensures d in Desired(pruned, instances) ==> Desired(pruned, instances)[d] == Pick(SourcesOf(pruned, d), instances).value
  {
    PickFromNone(instances);
  }

  /** When every instance answers, the desired answers are the same whatever
      state the cycle starts from and whatever the time: they follow from the
      routes alone. */
  lemma DesiredIgnoresState(c: Config, w1: World, w2: World, instances: seq<Instance>,
                            fetch: Instance -> Fetch, now1: nat, now2: nat)
    requires forall i :: i in instances ==> fetch(i).Fetched?
    ensures MakePlan(c, w1, instances, fetch, now1).desired == MakePlan(c, w2, instances, fetch, now2).desired
  {
    var p0, q0 := Polled(w1.st, map[], map[]), Polled(w2.st, map[], map[]);
    PollAllAgree(c, p0, q0, instances, fetch, now1, now2);
    var p, q := PollAll(c, p0, instances, fetch, now1), PollAll(c, q0, instances, fetch, now2);
    PollAgreeSym(p, q);
    PollAllSucceeds(c, p0, instances, fetch, now1);
    var pp, pq := Pruned(p.st.domains, instances, p.success, p.seen), Pruned(q.st.domains, instances, q.success, q.seen);
    var dp, dq := Desired(pp, instances), Desired(pq, instances);
    forall d ensures (d in dp <==> d in dq) && (d in dp ==> dp[d] == dq[d]) {
      forall i | i in instances
        ensures (i.name in SourcesOf(pp, d) <==> i.name in SourcesOf(pq, d)) &&
                (i.name in SourcesOf(pp, d) ==> SourcesOf(pp, d)[i.name].answer == SourcesOf(pq, d)[i.name].answer)
      {
        assert i.name in Names(instances);
        PrunedSource(p, q, instances, d, i.name);
        PrunedSource(q, p, instances, d, i.name);
      }
      PickAgree(SourcesOf(pp, d), SourcesOf(pq, d), instances);
      DesiredBySources(pp, instances, d);
      DesiredBySources(pq, instances, d);
    }
    assert dp.Keys == dq.Keys;
  }

  // ---------------------------------------------------------------------
  // Which domains are desired.

  /** No route of a reachable instance names a static domain. */
  ghost predicate RoutesAvoidStatic(c: Config, instances: seq<Instance>, fetch: Instance -> Fetch)
  {
    forall i, rt :: i in instances && fetch(i).Fetched? && rt in fetch(i).routes ==> !IsStatic(c, rt.hostname)
  }

  lemma {:induction false} ScanSeenRouted(c: Config, inst: Instance, now: nat, s: Scan, routes: seq<Route>)
    requires forall rt :: rt in routes ==> !IsStatic(c, rt.hostname)
    ensures forall d :: d in ScanRoutes(c, inst, now, s, routes).seen ==> d in s.seen || (!IsStatic(c, d) && !Excluded(c, d))
    decreases |routes|
  {
    if routes != [] {
      ScanSeenRouted(c, inst, now, RouteStep(c, inst, now, s, routes[0]), routes[1..]);
    }
  }

  lemma {:induction false} PollSeenRouted(c: Config, p: Polled, instances: seq<Instance>, fetch: Instance -> Fetch, now: nat)
    requires RoutesAvoidStatic(c, instances, fetch)
    ensures forall n, d :: d in SeenBy(PollAll(c, p, instances, fetch, now), n) ==>
      d in SeenBy(p, n) || (!IsStatic(c, d) && !Excluded(c, d))
    decreases |instances|
  {
    if instances != [] {
      var inst := instances[0];
      if fetch(inst).Fetched? {
        ScanSeenRouted(c, inst, now, Scan(p.st, {}), fetch(inst).routes);
      }
      assert RoutesAvoidStatic(c, instances[1..], fetch) by {
        assert forall i :: i in instances[1..] ==> i in instances;
      }
      PollSeenRouted(c, PollOne(c, p, inst, fetch(inst), now), instances[1..], fetch, now);
    }
  }

  /** When every instance answers and no route names a static domain, every
      desired domain is neither static nor excluded. */
  lemma DesiredRouted(c: Config, w: World, instances: seq<Instance>, fetch: Instance -> Fetch, now: nat)
    requires forall i :: i in instances ==> fetch(i).Fetched?
    requires RoutesAvoidStatic(c, instances, fetch)
    ensures forall d :: d in MakePlan(c, w, instances, fetch, now).desired ==> !IsStatic(c, d) && !Excluded(c, d)
  {
    var pl := MakePlan(c, w, instances, fetch, now);
    var p0 := Polled(w.st, map[], map[]);
    var p := pl.polled;
    PollSeenRouted(c, p0, instances, fetch, now);
    PollAllSucceeds(c, p0, instances, fetch, now);
    forall d | d in pl.desired ensures !IsStatic(c, d) && !Excluded(c, d) {
      DesiredDomains(pl.pruned, instances, d);
      var k :| 0 <= k < |instances| && Reports(pl.pruned[d], instances[k]);
      var n := instances[k].name;
      assert n in Names(instances);
      PruneSourcesKeeps(p.st.domains[d], d, instances, p.success, p.seen);
      assert d in SeenBy(p, n);
    }
  }

  // ---------------------------------------------------------------------
  // Two cycles.

  /** With no records, the removed-instance cleanup issues nothing. */
  lemma CleanupFromEmpty(c: Config, w: World, instances: seq<Instance>)
    requires w.dns.records == []
    ensures CleanupRemoved(c, w, instances).dns == w.dns
  {
    var removed := w.st.instances.Keys - Names(instances);
    if removed != {} {
      var w1 := w.(st := w.st.(domains := WithoutSources(w.st.domains, removed)));
      assert Grouped(w.dns.records) == map[];
      RetireAllQuiet(c, w1, SortedList(Emptied(w.st.domains, removed)), map[]);
    }
  }

  /** A first `sync_once` against an empty provider that accepts every
      request, with every instance answering and no route naming a static
      domain, leaves exactly the static records, in configuration order,
      followed by one record per desired domain, in sorted order. */
  lemma FirstCycleFromEmpty(c: Config, cleanupDone: bool, w: World, instances: seq<Instance>,
                            fetch: Instance -> Fetch, now: nat)
    requires forall k :: c.accepts(k)
    requires w.dns.records == []
    requires DistinctDomains(c.staticRewrites)
    requires forall i :: i in instances ==> fetch(i).Fetched?
    requires RoutesAvoidStatic(c, instances, fetch)
    ensures var desired := MakePlan(c, w, instances, fetch, now).desired;
      Sync(c, cleanupDone, w, instances, fetch, now).dns.records ==
        RewriteRecords(c.staticRewrites) + DesiredRecords(SortedList(desired.Keys), desired)
  {
    var sr := RewriteRecords(c.staticRewrites);
    var wc := if cleanupDone then w else CleanupRemoved(c, w, instances);
    if !cleanupDone {
      CleanupFromEmpty(c, w, instances);
    }
    assert wc.dns == w.dns;
    var ws := SyncStatic(c, wc);
    if c.staticRewrites != [] {
      assert Current(wc.dns.records) == map[];
      StaticAllFresh(c, wc, c.staticRewrites, map[]);
    }
    assert ws.dns.records == sr;
    var pl := MakePlan(c, ws, instances, fetch, now);
    DesiredIgnoresState(c, ws, w, instances, fetch, now, now);
    DesiredRouted(c, ws, instances, fetch, now);
    var desired := pl.desired;
    var w3 := World(pl.polled.st.(domains := pl.pruned), ws.dns);
    var g0 := Grouped(sr);
    forall d ensures Lookup(g0, d) == (if IsStatic(c, d) then [Get(c.staticRewrites, d).value] else []) {
      RewriteRecordsLookup(c.staticRewrites, d);
    }
    if c.excludes != [] {
      Syncer.FirstSeenKeys(sr);
      forall d | d in FirstSeen(sr) ensures IsStatic(c, d) || !Excluded(c, d) {
        GroupedNonEmpty(sr, d);
      }
      ExcludeAllQuiet(c, Phase(w3, g0), FirstSeen(sr), g0);
    }
    var ph := CleanExcluded(c, w3, pl.snapshot);
    assert ph == Phase(w3, g0);
    var ds := SortedList(desired.Keys);
    ApplyAllFresh(c, w3, ds, desired, g0);
    var w4 := ApplyAll(c, ph.w, ds, desired, ph.g);
    RetireAllQuiet(c, w4, SortedList(pl.orphans), g0);
    assert Sync(c, cleanupDone, w, instances, fetch, now) == RetireAll(c, w4, SortedList(pl.orphans), ph.g);
  }

  /** Under the same conditions a second `sync_once` right after the first,
      with the same routes and at any later time, issues no request at all and
      leaves the provider as it was. */
  lemma SecondCycleQuiet(c: Config, cleanupDone: bool, w: World, instances: seq<Instance>,
                         fetch: Instance -> Fetch, now: nat, later: nat)
    requires forall k :: c.accepts(k)
    requires w.dns.records == []
    requires DistinctDomains(c.staticRewrites)
    requires forall i :: i in instances ==> fetch(i).Fetched?
    requires RoutesAvoidStatic(c, instances, fetch)
    ensures var w1 := Sync(c, cleanupDone, w, instances, fetch, now);
      Sync(c, true, w1, instances, fetch, later).dns == w1.dns
  {
    var w1 := Sync(c, cleanupDone, w, instances, fetch, now);
    var desired := MakePlan(c, w, instances, fetch, now).desired;
    var ds := SortedList(desired.Keys);
    StrictlySortedNoDup(ds);
    var sr := RewriteRecords(c.staticRewrites);
    var rs := sr + DesiredRecords(ds, desired);
    FirstCycleFromEmpty(c, cleanupDone, w, instances, fetch, now);
    assert w1.dns.records == rs;
    DesiredRouted(c, w, instances, fetch, now);
    var g0 := Grouped(rs);
    forall d ensures Lookup(g0, d) ==
      (if IsStatic(c, d) then [Get(c.staticRewrites, d).value] else []) + (if d in ds then [desired[d]] else [])
    {
      GroupedAppend(sr, DesiredRecords(ds, desired), d);
      RewriteRecordsLookup(c.staticRewrites, d);
      DesiredRecordsLookup(ds, desired, d);
    }
    var ws := SyncStatic(c, w1);
    if c.staticRewrites != [] {
      forall rw | rw in c.staticRewrites ensures rw.domain in Current(rs) && Current(rs)[rw.domain] == rw.answer {
        GetMember(c.staticRewrites, rw);
        CurrentIsLast(rs, rw.domain);
      }
      StaticAllQuiet(c, w1, c.staticRewrites, Current(rs));
    }
    assert ws.dns == w1.dns;
    var pl := MakePlan(c, ws, instances, fetch, later);
    DesiredIgnoresState(c, ws, w, instances, fetch, later, now);
    assert pl.desired == desired;
    var w3 := World(pl.polled.st.(domains := pl.pruned), ws.dns);
    if c.excludes != [] {
      Syncer.FirstSeenKeys(rs);
      forall d | d in FirstSeen(rs) ensures IsStatic(c, d) || !Excluded(c, d) {
        GroupedNonEmpty(rs, d);
      }
      ExcludeAllQuiet(c, Phase(w3, g0), FirstSeen(rs), g0);
    }
    var ph := CleanExcluded(c, w3, pl.snapshot);
    assert ph == Phase(w3, g0);
    ApplyAllSettled(c, w3, ds, desired, g0);
    var w4 := ApplyAll(c, ph.w, ds, desired, ph.g);
    OrphansNotDesired(pl.pruned, instances);
    RetireAllQuiet(c, w4, SortedList(pl.orphans), g0);
    assert Sync(c, true, w1, instances, fetch, later) == RetireAll(c, w4, SortedList(pl.orphans), ph.g);
  }
}
