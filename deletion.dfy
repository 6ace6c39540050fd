/** What the deleting passes do remove: the orphan pass of `sync_once` and
    the removed-instance cleanup delete every managed record of a domain they
    retire, each time the provider accepts the delete. (What they may not
    remove is in module Properties.) */
module Deletion {
  import opened Strings
  import opened Classify
  import opened Settings
  import opened Dns
  import opened Ownership
  import opened Reconcile
  import opened Properties

  /** Deleting managed answers keeps every list non-empty and duplicate-free. */
  lemma {:induction false} DeleteManagedWellFormed(w: World, d: string, answers: seq<string>, accepts: Call -> bool)
    requires WellFormed(w.st.managed)
    ensures WellFormed(DeleteManaged(w, d, answers, accepts).w.st.managed)
    decreases |answers|
  {
    if answers != [] {
      if IsManaged(w.st.managed, d, answers[0]) {
        UnmarkKeepsWellFormed(w.st.managed, d, answers[0]);
        DeleteManagedWellFormed(DeleteUnmarked(w, d, answers[0], accepts), d, answers[1..], accepts);
      } else {
        DeleteManagedWellFormed(w, d, answers[1..], accepts);
      }
    }
  }

  /** The managed-answer loop removes `x` when its answer is listed: once it
      reaches that answer, a present `x` is managed and its delete accepted.
      The answer is then no longer managed either. */
  lemma {:induction false} DeleteManagedDeletes(w: World, d: string, answers: seq<string>, accepts: Call -> bool, x: Record)
    requires x.domain == d && x.answer in answers
    requires x in w.dns.records ==> IsManaged(w.st.managed, d, x.answer) && accepts(Delete(d, x.answer))
    ensures x !in DeleteManaged(w, d, answers, accepts).w.dns.records
    ensures WellFormed(w.st.managed) ==> !IsManaged(DeleteManaged(w, d, answers, accepts).w.st.managed, d, x.answer)
    decreases |answers|
  {
    assert x == Record(d, x.answer);
    var a := answers[0];
    if a == x.answer {
      if IsManaged(w.st.managed, d, a) {
        var w1 := DeleteUnmarked(w, d, a, accepts);
        assert x !in w1.dns.records;
        if WellFormed(w.st.managed) {
          UnmarkKeepsWellFormed(w.st.managed, d, a);
        }
        DeleteManagedReach(w1, d, answers[1..], accepts);
      } else {
        DeleteManagedReach(w, d, answers[1..], accepts);
      }
    } else {
      assert x.answer in answers[1..];
      if IsManaged(w.st.managed, d, a) {
        var w1 := DeleteUnmarked(w, d, a, accepts);
        if WellFormed(w.st.managed) {
          UnmarkKeepsWellFormed(w.st.managed, d, a);
        }
        DeleteManagedDeletes(w1, d, answers[1..], accepts, x);
      } else {
        DeleteManagedDeletes(w, d, answers[1..], accepts, x);
      }
    }
  }

  /** Retiring a list of domains removes `x` once its domain comes up, when
      that domain is not static and `records_by_domain` lists the answer. */
  lemma {:induction false} RetireAllDeletes(c: Config, w: World, ds: seq<string>, g: map<string, seq<string>>, x: Record)
    requires x.domain in ds && !IsStatic(c, x.domain) && x.answer in Lookup(g, x.domain)
    requires x in w.dns.records ==> IsManaged(w.st.managed, x.domain, x.answer) && c.accepts(Delete(x.domain, x.answer))
    ensures x !in RetireAll(c, w, ds, g).dns.records
    ensures WellFormed(w.st.managed) ==> !IsManaged(RetireAll(c, w, ds, g).st.managed, x.domain, x.answer)
    decreases |ds|
  {
    assert x == Record(x.domain, x.answer);
    var w1 := Retire(c, w, ds[0], g);
    if ds[0] == x.domain {
      DeleteManagedDeletes(w, x.domain, Lookup(g, x.domain), c.accepts, x);
      RetireAllReach(c, w1, ds[1..], g);
    } else {
      if !IsStatic(c, ds[0]) {
        DeleteManagedReach(w, ds[0], Lookup(g, ds[0]), c.accepts);
        if WellFormed(w.st.managed) {
          DeleteManagedWellFormed(w, ds[0], Lookup(g, ds[0]), c.accepts);
        }
      }
      assert x in w1.dns.records ==> x in w.dns.records;
      assert IsManaged(w1.st.managed, x.domain, x.answer) <==> IsManaged(w.st.managed, x.domain, x.answer);
      RetireAllDeletes(c, w1, ds[1..], g, x);
    }
  }

  /** The orphan pass of `sync_once` deletes every managed record that
      `records_by_domain` lists under a domain left without sources and not
      static, whenever the provider accepts the delete; the answer is then
      unmanaged. */
  lemma OrphanPassDeletes(c: Config, w: World, pruned: map<string, Sources>, g: map<string, seq<string>>, x: Record)
    requires x in w.dns.records && x.domain in Orphans(pruned) && !IsStatic(c, x.domain)
    requires x.answer in Lookup(g, x.domain) && IsManaged(w.st.managed, x.domain, x.answer)
    requires c.accepts(Delete(x.domain, x.answer))
    ensures x !in RetireAll(c, w, SortedList(Orphans(pruned)), g).dns.records
    ensures WellFormed(w.st.managed) ==>
      !IsManaged(RetireAll(c, w, SortedList(Orphans(pruned)), g).st.managed, x.domain, x.answer)
  {
    var os := SortedList(Orphans(pruned));
    RetireAllDeletes(c, w, os, g, x);
  }

  /** The removed-instance cleanup deletes every managed record of a domain
      whose every source was a removed instance, unless the domain is static,
      whenever the provider accepts the delete. */
  lemma CleanupRemovedDeletes(c: Config, w: World, instances: seq<Instance>, x: Record)
    requires x in w.dns.records && !IsStatic(c, x.domain)
    requires x.domain in Emptied(w.st.domains, w.st.instances.Keys - Names(instances))
    requires IsManaged(w.st.managed, x.domain, x.answer) && c.accepts(Delete(x.domain, x.answer))
    ensures x !in CleanupRemoved(c, w, instances).dns.records
    ensures WellFormed(w.st.managed) ==> !IsManaged(CleanupRemoved(c, w, instances).st.managed, x.domain, x.answer)
  {
    var removed := w.st.instances.Keys - Names(instances);
    assert RemoveKeys(w.st.domains[x.domain], {}) == w.st.domains[x.domain];
    var g := Grouped(w.dns.records);
    GroupedHas(w.dns.records);
    var w1 := w.(st := w.st.(domains := WithoutSources(w.st.domains, removed)));
    RetireAllDeletes(c, w1, SortedList(Emptied(w.st.domains, removed)), g, x);
  }
}
