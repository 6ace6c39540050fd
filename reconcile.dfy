/** What one `sync_once` does, phase by phase, as functions of the state
    dictionary, the provider and the fetch outcomes. `ExternalDNSSyncer` in
    module Syncer runs the same phases imperatively and is proved equal. */
module Reconcile {
  import opened Strings
  import opened Classify
  import opened Settings
  import opened Dns
  import opened Ownership

  /** One `sources` entry of a domain: the answer an instance reported. */
  datatype Source = Source(answer: string, lastSeen: nat)

  /** One `instances` entry: when the instance was last polled, its last error. */
  datatype Health = Health(lastSuccess: nat, lastError: string, url: string)

  /** A domain's `sources`: instance name to what it reported. */
  type Sources = map<string, Source>

  /** The state dictionary: `instances`, `domains` (each domain's `sources`)
      and `managed_records`. */
  datatype State = State(instances: map<string, Health>, domains: map<string, Sources>, managed: Managed)

  /** What `StateStore.load` gives when there is no state file. */
  const Fresh := State(map[], map[], map[])

  /** What `get_routes` does for one instance: routes, or a `RequestException`. */
  datatype Fetch = Fetched(routes: seq<Route>) | Unreachable(detail: string)

  /** The state dictionary and the provider together. */
  datatype World = World(st: State, dns: Provider)

  /** The syncer's fixed configuration and the provider's behaviour. */
  datatype Config = Config(staticRewrites: Rewrites, excludes: seq<Exclusion>,
                           search: (string, string) -> bool, accepts: Call -> bool)

  predicate IsStatic(c: Config, d: string)
  {
    Get(c.staticRewrites, d).Some?
  }

  // ---------------------------------------------------------------------
  // Single provider requests together with their bookkeeping.

  /** `_mark_record_managed` alone. */
  function Adopt(w: World, d: string, a: string): World
  {
    w.(st := w.st.(managed := Mark(w.st.managed, d, a)))
  }

  /** `add_record` followed by `_mark_record_managed`. */
  function AddMarked(w: World, d: string, a: string, accepts: Call -> bool): World
  {
    World(w.st.(managed := Mark(w.st.managed, d, a)), Perform(w.dns, Add(d, a), accepts))
  }

  /** `delete_record` followed by `_unmark_record_managed`. */
  function DeleteUnmarked(w: World, d: string, a: string, accepts: Call -> bool): World
  {
    World(w.st.(managed := Unmark(w.st.managed, d, a)), Perform(w.dns, Delete(d, a), accepts))
  }

  /** `state["domains"].pop(domain, None)`. */
  function Forget(w: World, d: string): World
  {
    w.(st := w.st.(domains := w.st.domains - {d}))
  }

  // ---------------------------------------------------------------------
  // `records_by_domain` and the `{domain: answer}` dictionary of records.

  function Lookup(g: map<string, seq<string>>, d: string): seq<string>
  {
    if d in g then g[d] else []
  }

  /** `records_by_domain`: each domain's answers in record order. */
  function Grouped(rs: seq<Record>): map<string, seq<string>>
    decreases |rs|
  {
    if rs == [] then map[]
    else
      var g := Grouped(rs[..|rs| - 1]);
      var r := rs[|rs| - 1];
      g[r.domain := Lookup(g, r.domain) + [r.answer]]
  }

  /** The keys of `records_by_domain` in insertion order. */
  function FirstSeen(rs: seq<Record>): seq<string>
    decreases |rs|
  {
    if rs == [] then []
    else
      var o := FirstSeen(rs[..|rs| - 1]);
      var d := rs[|rs| - 1].domain;
      if d in o then o else o + [d]
  }

  /** `{r.domain: r.answer for r in records}`: the last record of a domain wins. */
  function Current(rs: seq<Record>): map<string, string>
    decreases |rs|
  {
    if rs == [] then map[]
    else Current(rs[..|rs| - 1])[rs[|rs| - 1].domain := rs[|rs| - 1].answer]
  }

  // ---------------------------------------------------------------------
  // Deleting the managed answers of one domain.

  datatype Swept = Swept(w: World, deletedAny: bool)

  /** `for answer in answers: if managed, delete and unmark`, reporting
      whether anything was deleted. */
  function DeleteManaged(w: World, d: string, answers: seq<string>, accepts: Call -> bool): Swept
    decreases |answers|
  {
    if answers == [] then Swept(w, false)
    else if IsManaged(w.st.managed, d, answers[0]) then
      var s := DeleteManaged(DeleteUnmarked(w, d, answers[0], accepts), d, answers[1..], accepts);
      Swept(s.w, true)
    else DeleteManaged(w, d, answers[1..], accepts)
  }

  /** Deleting the managed answers of a domain that is not static, then
      dropping the domain from the state: the body of the orphan pass of
      `sync_once` and of the cleanup pass of `_cleanup_removed_instances`. */
  function Retire(c: Config, w: World, d: string, g: map<string, seq<string>>): World
  {
    if IsStatic(c, d) then w
    else Forget(DeleteManaged(w, d, Lookup(g, d), c.accepts).w, d)
  }

  function RetireAll(c: Config, w: World, ds: seq<string>, g: map<string, seq<string>>): World
    decreases |ds|
  {
    if ds == [] then w else RetireAll(c, Retire(c, w, ds[0], g), ds[1..], g)
  }

  // ---------------------------------------------------------------------
  // `_cleanup_removed_instances`

  function Names(instances: seq<Instance>): set<string>
  {
    set i | i in instances :: i.name
  }

  function RemoveKeys<V>(m: map<string, V>, ks: set<string>): map<string, V>
  {
    map k | k in m && k !in ks :: m[k]
  }

  /** Every domain's sources without the removed instances. */
  function WithoutSources(domains: map<string, Sources>, removed: set<string>): map<string, Sources>
  {
    map d | d in domains :: RemoveKeys(domains[d], removed)
  }

  /** The domains that had sources and have none once the removed instances go. */
  function Emptied(domains: map<string, Sources>, removed: set<string>): set<string>
  {
    set d | d in domains && domains[d] != map[] && RemoveKeys(domains[d], removed) == map[]
  }

  ghost function CleanupRemoved(c: Config, w: World, instances: seq<Instance>): World
  {
    var removed := w.st.instances.Keys - Names(instances);
    if removed == {} then w
    else
      var g := Grouped(w.dns.records);
      var toClean := Emptied(w.st.domains, removed);
      var w1 := w.(st := w.st.(domains := WithoutSources(w.st.domains, removed)));
      var w2 := RetireAll(c, w1, SortedList(toClean), g);
      w2.(st := w2.st.(instances := RemoveKeys(w2.st.instances, removed)))
  }

  // ---------------------------------------------------------------------
  // `_sync_static_rewrites`

  /** One configured static rewrite against the records found at the start. */
  function StaticStep(c: Config, w: World, rw: Rewrite, current: map<string, string>): World
  {
    var d, a := rw.domain, rw.answer;
    if d !in current then AddMarked(w, d, a, c.accepts)
    else if current[d] == a then Adopt(w, d, a)
    else if IsManaged(w.st.managed, d, current[d]) then
      World(w.st.(managed := Mark(Unmark(w.st.managed, d, current[d]), d, a)),
            Update(w.dns, d, current[d], a, c.accepts))
    else w
  }

  function StaticAll(c: Config, w: World, rws: Rewrites, current: map<string, string>): World
    decreases |rws|
  {
    if rws == [] then w else StaticAll(c, StaticStep(c, w, rws[0], current), rws[1..], current)
  }

  function SyncStatic(c: Config, w: World): World
  {
    if c.staticRewrites == [] then w
    else StaticAll(c, w, c.staticRewrites, Current(w.dns.records))
  }

  // ---------------------------------------------------------------------
  // Polling the instances.

  function SourcesOf(domains: map<string, Sources>, h: string): Sources
  {
    if h in domains then domains[h] else map[]
  }

  /** The state and the `seen` set while the routes of one instance are read. */
  datatype Scan = Scan(st: State, seen: set<string>)

  predicate Excluded(c: Config, d: string)
  {
    IsDomainExcluded(d, c.excludes, c.search)
  }

  /** One route: excluded and external ones are skipped, any other records
      the instance as a source of its hostname. */
  function RouteStep(c: Config, inst: Instance, now: nat, s: Scan, rt: Route): Scan
  {
    if Excluded(c, rt.hostname) || rt.zone == External then s
    else
      var h := rt.hostname;
      var src := SourcesOf(s.st.domains, h)[inst.name := Source(rt.targetIp, now)];
      Scan(s.st.(domains := s.st.domains[h := src]), s.seen + {h})
  }

  function ScanRoutes(c: Config, inst: Instance, now: nat, s: Scan, routes: seq<Route>): Scan
    decreases |routes|
  {
    if routes == [] then s else ScanRoutes(c, inst, now, RouteStep(c, inst, now, s, routes[0]), routes[1..])
  }

  /** The state with `instance_success` and `instance_seen_domains`. */
  datatype Polled = Polled(st: State, success: map<string, bool>, seen: map<string, set<string>>)

  function PollOne(c: Config, p: Polled, inst: Instance, outcome: Fetch, now: nat): Polled
  {
    match outcome
    case Fetched(routes) =>
      var s := ScanRoutes(c, inst, now, Scan(p.st, {}), routes);
      Polled(s.st.(instances := s.st.instances[inst.name := Health(now, "", inst.url)]),
             p.success[inst.name := true], p.seen[inst.name := s.seen])
    case Unreachable(detail) =>
      var prev := if inst.name in p.st.instances then p.st.instances[inst.name].lastSuccess else 0;
      Polled(p.st.(instances := p.st.instances[inst.name := Health(prev, detail, inst.url)]),
             p.success[inst.name := false], p.seen[inst.name := {}])
  }

  function PollAll(c: Config, p: Polled, instances: seq<Instance>, fetch: Instance -> Fetch, now: nat): Polled
    decreases |instances|
  {
    if instances == [] then p
    else PollAll(c, PollOne(c, p, instances[0], fetch(instances[0]), now), instances[1..], fetch, now)
  }

  // ---------------------------------------------------------------------
  // Pruning, and the desired answers.

  /** The instance was polled this cycle and did not report the domain. */
  predicate ConfirmedAbsent(success: map<string, bool>, seen: map<string, set<string>>, name: string, d: string)
  {
    name in success && success[name] && d !in (if name in seen then seen[name] else {})
  }

  /** A domain's sources without the instances that confirmed it absent. */
  function PruneSources(src: Sources, d: string, instances: seq<Instance>,
                        success: map<string, bool>, seen: map<string, set<string>>): Sources
    decreases |instances|
  {
    if instances == [] then src
    else
      var n := instances[0].name;
      var src' := if ConfirmedAbsent(success, seen, n, d) && n in src then src - {n} else src;
      PruneSources(src', d, instances[1..], success, seen)
  }

  function Pruned(domains: map<string, Sources>, instances: seq<Instance>,
                  success: map<string, bool>, seen: map<string, set<string>>): map<string, Sources>
  {
    map d | d in domains :: PruneSources(domains[d], d, instances, success, seen)
  }

  /** `domains_to_delete_from_state`. */
  function Orphans(pruned: map<string, Sources>): set<string>
  {
    set d | d in pruned && pruned[d] == map[]
  }

  /** The answer of the first configured instance that is a source with a
      non-empty answer. */
  function Pick(src: Sources, instances: seq<Instance>): Option<string>
    decreases |instances|
  {
    if instances == [] then None
    else
      var n := instances[0].name;
      if n in src && src[n].answer != "" then Some(src[n].answer) else Pick(src, instances[1..])
  }

  /** A domain without sources gets no answer. */
  lemma {:induction false} PickFromNone(instances: seq<Instance>)
    ensures Pick(map[], instances) == None
    decreases |instances|
  {
    if instances != [] {
      PickFromNone(instances[1..]);
    }
  }

  /** `desired`: one answer per domain that some configured instance reports. */
  function Desired(domains: map<string, Sources>, instances: seq<Instance>): map<string, string>
  {
    map d | d in domains && Pick(domains[d], instances).Some? :: Pick(domains[d], instances).value
  }

  // ---------------------------------------------------------------------
  // Removing excluded domains.

  /** The world and what is left of `records_by_domain`. */
  datatype Phase = Phase(w: World, g: map<string, seq<string>>)

  function ExcludeStep(c: Config, ph: Phase, d: string, g0: map<string, seq<string>>): Phase
  {
    if IsStatic(c, d) || !Excluded(c, d) then ph
    else
      var s := DeleteManaged(ph.w, d, Lookup(g0, d), c.accepts);
      Phase(Forget(s.w, d), if s.deletedAny then ph.g - {d} else ph.g)
  }

  function ExcludeAll(c: Config, ph: Phase, ds: seq<string>, g0: map<string, seq<string>>): Phase
    decreases |ds|
  {
    if ds == [] then ph else ExcludeAll(c, ExcludeStep(c, ph, ds[0], g0), ds[1..], g0)
  }

  function CleanExcluded(c: Config, w: World, records: seq<Record>): Phase
  {
    var g0 := Grouped(records);
    if c.excludes == [] then Phase(w, g0) else ExcludeAll(c, Phase(w, g0), FirstSeen(records), g0)
  }

  // ---------------------------------------------------------------------
  // Creating, adopting and consolidating the desired records.

  function ManagedOf(m: Managed, d: string, xs: seq<string>): (r: seq<string>)
    ensures forall a :: a in r <==> a in xs && IsManaged(m, d, a)
    decreases |xs|
  {
    if xs == [] then []
    else (if IsManaged(m, d, xs[0]) then [xs[0]] else []) + ManagedOf(m, d, xs[1..])
  }

  function UnmanagedOf(m: Managed, d: string, xs: seq<string>): (r: seq<string>)
    ensures forall a :: a in r <==> a in xs && !IsManaged(m, d, a)
    decreases |xs|
  {
    if xs == [] then []
    else (if IsManaged(m, d, xs[0]) then [] else [xs[0]]) + UnmanagedOf(m, d, xs[1..])
  }

  function Except(xs: seq<string>, a: string): (r: seq<string>)
    ensures forall b :: b in r <==> b in xs && b != a
    decreases |xs|
  {
    if xs == [] then [] else (if xs[0] == a then [] else [xs[0]]) + Except(xs[1..], a)
  }

  /** `delete_record` and unmark, for every answer in turn. */
  function DeleteEach(w: World, d: string, xs: seq<string>, accepts: Call -> bool): World
    decreases |xs|
  {
    if xs == [] then w else DeleteEach(DeleteUnmarked(w, d, xs[0], accepts), d, xs[1..], accepts)
  }

  /** One desired `(domain, answer)` against the answers the provider has. */
  function ApplyDomain(c: Config, w: World, d: string, answer: string, existing: seq<string>): World
  {
    if existing == [] then AddMarked(w, d, answer, c.accepts)
    else if |existing| == 1 && existing[0] == answer then Adopt(w, d, answer)
    else
      var mine := ManagedOf(w.st.managed, d, existing);
      var others := UnmanagedOf(w.st.managed, d, existing);
      if others != [] then
        if answer in others then DeleteEach(Adopt(w, d, answer), d, Except(mine, answer), c.accepts)
        else DeleteEach(w, d, mine, c.accepts)
      else AddMarked(DeleteEach(w, d, existing, c.accepts), d, answer, c.accepts)
  }

  function ApplyAll(c: Config, w: World, ds: seq<string>, desired: map<string, string>, g: map<string, seq<string>>): World
    requires forall d :: d in ds ==> d in desired
    decreases |ds|
  {
    if ds == [] then w
    else ApplyAll(c, ApplyDomain(c, w, ds[0], desired[ds[0]], Lookup(g, ds[0])), ds[1..], desired, g)
  }

  // ---------------------------------------------------------------------
  // One whole cycle.

  /** Everything `sync_once` computes before it applies changes. */
  datatype Plan = Plan(polled: Polled, pruned: map<string, Sources>, orphans: set<string>,
                       desired: map<string, string>, snapshot: seq<Record>)

  function MakePlan(c: Config, w: World, instances: seq<Instance>, fetch: Instance -> Fetch, now: nat): Plan
  {
    var p := PollAll(c, Polled(w.st, map[], map[]), instances, fetch, now);
    var pruned := Pruned(p.st.domains, instances, p.success, p.seen);
    Plan(p, pruned, Orphans(pruned), Desired(pruned, instances), w.dns.records)
  }

  /** The changes planned by `MakePlan`, applied to the world after the static
      rewrites. */
  ghost function Execute(c: Config, w: World, pl: Plan): World
  {
    var w3 := World(pl.polled.st.(domains := pl.pruned), w.dns);
    var ph := CleanExcluded(c, w3, pl.snapshot);
    var w4 := ApplyAll(c, ph.w, SortedList(pl.desired.Keys), pl.desired, ph.g);
    RetireAll(c, w4, SortedList(pl.orphans), ph.g)
  }

  /** `sync_once` from the saved state and the provider's records. */
  ghost function Sync(c: Config, cleanupDone: bool, w: World, instances: seq<Instance>,
                      fetch: Instance -> Fetch, now: nat): World
  {
    var w1 := if cleanupDone then w else CleanupRemoved(c, w, instances);
    var w2 := SyncStatic(c, w1);
    Execute(c, w2, MakePlan(c, w2, instances, fetch, now))
  }
}
