/** Three consequences of `sync_once` as it is written, each shown on a small
    concrete provider whose every request is accepted. */
module Behaviours {
  import opened Settings
  import opened Dns
  import opened Ownership
  import opened Reconcile

  /** A static rewrite and a route for the same host take turns: the apply
      pass replaces the static answer by the routed one, and the next static
      pass replaces it back, so the record changes on every cycle. */
  lemma StaticRouteFlap(c: Config, w: World)
    requires forall k :: c.accepts(k)
    requires c.staticRewrites == [Rewrite("d", "s")]
    requires w.dns.records == [Record("d", "s")] && w.st.managed == map[]
    ensures SyncStatic(c, w).dns == w.dns && IsManaged(SyncStatic(c, w).st.managed, "d", "s")
    ensures ApplyDomain(c, SyncStatic(c, w), "d", "t", ["s"]).dns.records == [Record("d", "t")]
    ensures SyncStatic(c, ApplyDomain(c, SyncStatic(c, w), "d", "t", ["s"])).dns.records == [Record("d", "s")]
  {
    var w1 := SyncStatic(c, w);
    assert Current(w.dns.records) == map["d" := "s"] by {
      assert w.dns.records[..0] == [];
    }
    assert StaticStep(c, w, Rewrite("d", "s"), map["d" := "s"]) == Adopt(w, "d", "s");
    assert c.staticRewrites[0] == Rewrite("d", "s") && c.staticRewrites[1..] == [];
    assert StaticAll(c, w, c.staticRewrites, map["d" := "s"]) == StaticAll(c, Adopt(w, "d", "s"), [], map["d" := "s"]);
    assert w1 == Adopt(w, "d", "s");
    var w2 := ApplyDomain(c, w1, "d", "t", ["s"]);
    assert ManagedOf(w1.st.managed, "d", ["s"]) == ["s"];
    assert UnmanagedOf(w1.st.managed, "d", ["s"]) == [];
    assert Without([Record("d", "s")], Record("d", "s")) == [];
    assert w2.dns.records == [Record("d", "t")];
    assert Current(w2.dns.records) == map["d" := "t"] by {
      assert w2.dns.records[..0] == [];
    }
    assert IsManaged(w2.st.managed, "d", "t");
    var w3 := Update(w2.dns, "d", "t", "s", c.accepts);
    assert Without([Record("d", "t")], Record("d", "t")) == [];
    assert w3.records == [Record("d", "s")];
    assert StaticStep(c, w2, Rewrite("d", "s"), map["d" := "t"]).dns == w3;
    assert StaticAll(c, w2, c.staticRewrites, map["d" := "t"]) ==
      StaticAll(c, StaticStep(c, w2, Rewrite("d", "s"), map["d" := "t"]), [], map["d" := "t"]);
  }

  /** A desired answer that the syncer adopted while an unmanaged record of
      the same domain also exists is deleted on the next cycle, and the
      unmanaged record is all that is left. */
  lemma AdoptedDuplicateDeleted(c: Config, w: World)
    requires forall k :: c.accepts(k)
    requires w.dns.records == [Record("d", "a"), Record("d", "o")] && w.st.managed == map[]
    ensures ApplyDomain(c, w, "d", "a", ["a", "o"]).dns == w.dns
    ensures IsManaged(ApplyDomain(c, w, "d", "a", ["a", "o"]).st.managed, "d", "a")
    ensures ApplyDomain(c, ApplyDomain(c, w, "d", "a", ["a", "o"]), "d", "a", ["a", "o"]).dns.records ==
      [Record("d", "o")]
  {
    AdoptsWhenAllUnmanaged(c, w);
    DeletesAdoptedDuplicate(c, ApplyDomain(c, w, "d", "a", ["a", "o"]));
  }

  /** First cycle: neither record is managed, so the desired one is adopted. */
  lemma AdoptsWhenAllUnmanaged(c: Config, w: World)
    requires w.st.managed == map[]
    ensures ApplyDomain(c, w, "d", "a", ["a", "o"]) == Adopt(w, "d", "a")
    ensures Adopt(w, "d", "a").st.managed == map["d" := ["a"]]
  {
    assert UnmanagedOf(w.st.managed, "d", ["a", "o"]) == ["a", "o"];
    assert ManagedOf(w.st.managed, "d", ["a", "o"]) == [];
    assert "a" in ["a", "o"];
    assert Except([], "a") == [];
    assert [] + ["a"] == ["a"];
    assert Mark(map[], "d", "a") == map["d" := ["a"]];
  }

  /** Second cycle: the adopted answer is the only managed one and the
      desired answer is not among the unmanaged ones, so it is deleted. */
  lemma DeletesAdoptedDuplicate(c: Config, w: World)
    requires forall k :: c.accepts(k)
    requires w.dns.records == [Record("d", "a"), Record("d", "o")] && w.st.managed == map["d" := ["a"]]
    ensures ApplyDomain(c, w, "d", "a", ["a", "o"]).dns.records == [Record("d", "o")]
  {
    assert ManagedOf(w.st.managed, "d", ["a", "o"]) == ["a"];
    assert UnmanagedOf(w.st.managed, "d", ["a", "o"]) == ["o"];
    assert Without([Record("d", "a"), Record("d", "o")], Record("d", "a")) == [Record("d", "o")];
  }

  /** A managed record of an excluded domain whose source is kept (its
      instance was unreachable) is deleted by the exclusion pass and, because
      the domain is then missing from `records_by_domain` while it is still
      desired, added again by the apply pass. */
  lemma ExcludedDomainReAdded(c: Config, w: World)
    requires forall k :: c.accepts(k)
    requires c.staticRewrites == [] && Excluded(c, "e")
    requires w.dns.records == [Record("e", "x")] && w.st.managed == map["e" := ["x"]]
    ensures ExcludeStep(c, Phase(w, Grouped(w.dns.records)), "e", Grouped(w.dns.records)).w.dns.records == []
    ensures "e" !in ExcludeStep(c, Phase(w, Grouped(w.dns.records)), "e", Grouped(w.dns.records)).g
    ensures ApplyDomain(c, ExcludeStep(c, Phase(w, Grouped(w.dns.records)), "e", Grouped(w.dns.records)).w, "e", "x", []).dns.records ==
      [Record("e", "x")]
  {
    var g0 := Grouped(w.dns.records);
    assert g0 == map["e" := ["x"]] by {
      assert w.dns.records[..0] == [];
      assert Grouped([]) == map[];
      assert Lookup(map[], "e") + ["x"] == ["x"];
    }
    assert Without([Record("e", "x")], Record("e", "x")) == [];
  }
}
