/** What `_sync_static_rewrites` does for each configured rewrite `(d, a)`,
    against the `{domain: answer}` dictionary `cur` of the records found at
    the start of the pass: which requests it issues about `d`, what it marks,
    and which records of `d` it leaves. */
module Statics {
  import opened Strings
  import opened Settings
  import opened Dns
  import opened Ownership
  import opened Reconcile

  /** The requests of `log` about domain `d`, in order. */
  function CallsOn(log: seq<Call>, d: string): seq<Call>
    decreases |log|
  {
    if log == [] then []
    else CallsOn(log[..|log| - 1], d) + (if log[|log| - 1].domain == d then [log[|log| - 1]] else [])
  }

  lemma CallsOnAppendOne(log: seq<Call>, k: Call, d: string)
    ensures CallsOn(log + [k], d) == CallsOn(log, d) + (if k.domain == d then [k] else [])
  {
    assert (log + [k])[..|log|] == log;
  }

  /** Every domain in the dictionary of the records has a record with that
      answer. */
  lemma {:induction false} CurrentHas(rs: seq<Record>, d: string)
    requires d in Current(rs)
    ensures Record(d, Current(rs)[d]) in rs
    decreases |rs|
  {
    var init := rs[..|rs| - 1];
    if rs[|rs| - 1].domain != d {
      CurrentHas(init, d);
      assert init <= rs;
    }
  }

  /** `w` and `v` agree on domain `d`: the same records, the same marks and
      the same requests about it. */
  ghost predicate AgreeAt(w: World, v: World, d: string)
  {
    && (forall b :: Record(d, b) in w.dns.records <==> Record(d, b) in v.dns.records)
    && (d in w.st.managed <==> d in v.st.managed)
    && (d in w.st.managed ==> w.st.managed[d] == v.st.managed[d])
    && CallsOn(w.dns.log, d) == CallsOn(v.dns.log, d)
  }

  lemma AgreeTrans(u: World, v: World, w: World, d: string)
    requires AgreeAt(u, v, d) && AgreeAt(v, w, d)
    ensures AgreeAt(u, w, d)
  {
  }

  /** A rewrite of another domain changes nothing about `d`. */
  lemma OtherStepAgrees(c: Config, w: World, rw: Rewrite, cur: map<string, string>, d: string)
    requires rw.domain != d
    ensures AgreeAt(w, StaticStep(c, w, rw, cur), d)
  {
    var e, a := rw.domain, rw.answer;
    if e !in cur {
      CallsOnAppendOne(w.dns.log, Add(e, a), d);
    } else if cur[e] != a && IsManaged(w.st.managed, e, cur[e]) {
      var q := Perform(w.dns, Delete(e, cur[e]), c.accepts);
      CallsOnAppendOne(w.dns.log, Delete(e, cur[e]), d);
      CallsOnAppendOne(q.log, Add(e, a), d);
    }
  }

  /** Two provider states with the same records and requests about `d`. */
  ghost predicate ProviderAgreeAt(p: Provider, q: Provider, d: string)
  {
    (forall b :: Record(d, b) in p.records <==> Record(d, b) in q.records) && CallsOn(p.log, d) == CallsOn(q.log, d)
  }

  lemma PerformAgrees(p: Provider, q: Provider, k: Call, accepts: Call -> bool)
    requires ProviderAgreeAt(p, q, k.domain)
    ensures ProviderAgreeAt(Perform(p, k, accepts), Perform(q, k, accepts), k.domain)
  {
    CallsOnAppendOne(p.log, k, k.domain);
    CallsOnAppendOne(q.log, k, k.domain);
  }

  lemma UpdateAgrees(p: Provider, q: Provider, d: string, x: string, a: string, accepts: Call -> bool)
    requires ProviderAgreeAt(p, q, d)
    ensures ProviderAgreeAt(Update(p, d, x, a, accepts), Update(q, d, x, a, accepts), d)
  {
    PerformAgrees(p, q, Delete(d, x), accepts);
    PerformAgrees(Perform(p, Delete(d, x), accepts), Perform(q, Delete(d, x), accepts), Add(d, a), accepts);
  }

  /** Two mark maps with the same list for `d`. */
  predicate MarksAgreeAt(m: Managed, n: Managed, d: string)
  {
    (d in m <==> d in n) && (d in m ==> m[d] == n[d])
  }

  lemma MarkAgrees(m: Managed, n: Managed, d: string, a: string)
    requires MarksAgreeAt(m, n, d)
    ensures MarksAgreeAt(Mark(m, d, a), Mark(n, d, a), d)
  {
  }

  lemma UnmarkAgrees(m: Managed, n: Managed, d: string, a: string)
    requires MarksAgreeAt(m, n, d)
    ensures MarksAgreeAt(Unmark(m, d, a), Unmark(n, d, a), d)
  {
  }

  /** The effect of a rewrite on its own domain depends only on that domain. */
  lemma SameStepAgrees(c: Config, w: World, v: World, rw: Rewrite, cur: map<string, string>)
    requires AgreeAt(w, v, rw.domain)
    ensures AgreeAt(StaticStep(c, w, rw, cur), StaticStep(c, v, rw, cur), rw.domain)
  {
    var d, a := rw.domain, rw.answer;
    var m, n := w.st.managed, v.st.managed;
    assert MarksAgreeAt(m, n, d) && ProviderAgreeAt(w.dns, v.dns, d);
    if d !in cur {
      MarkAgrees(m, n, d, a);
      PerformAgrees(w.dns, v.dns, Add(d, a), c.accepts);
    } else if cur[d] == a {
      MarkAgrees(m, n, d, a);
    } else if IsManaged(m, d, cur[d]) {
      assert IsManaged(n, d, cur[d]);
      UnmarkAgrees(m, n, d, cur[d]);
      MarkAgrees(Unmark(m, d, cur[d]), Unmark(n, d, cur[d]), d, a);
      UpdateAgrees(w.dns, v.dns, d, cur[d], a, c.accepts);
    } else {
      assert !IsManaged(n, d, cur[d]);
    }
  }

  lemma DistinctTail(rws: Rewrites)
    requires rws != [] && DistinctDomains(rws)
    ensures DistinctDomains(rws[1..])
    ensures forall r :: r in rws[1..] ==> r.domain != rws[0].domain
  {
    forall i, j | 0 <= i < j < |rws[1..]| ensures rws[1..][i].domain != rws[1..][j].domain {
      assert rws[1..][i] == rws[i + 1] && rws[1..][j] == rws[j + 1];
    }
    forall r | r in rws[1..] ensures r.domain != rws[0].domain {
      var k :| 0 <= k < |rws[1..]| && rws[1..][k] == r;
      assert rws[k + 1] == r;
    }
  }

  /** Rewrites of other domains leave `d` alone. */
  lemma {:induction false} StaticAllAvoids(c: Config, w: World, rws: Rewrites, cur: map<string, string>, d: string)
    requires forall r :: r in rws ==> r.domain != d
    ensures AgreeAt(w, StaticAll(c, w, rws, cur), d)
    decreases |rws|
  {
    if rws != [] {
      var w1 := StaticStep(c, w, rws[0], cur);
      OtherStepAgrees(c, w, rws[0], cur, d);
      StaticAllAvoids(c, w1, rws[1..], cur, d);
      AgreeTrans(w, w1, StaticAll(c, w1, rws[1..], cur), d);
    }
  }

  /** With one rewrite per domain, the whole pass does to the domain of `rw`
      what the step for `rw` alone does. */
  lemma {:induction false} StaticAllAt(c: Config, w: World, rws: Rewrites, cur: map<string, string>, rw: Rewrite)
    requires DistinctDomains(rws) && rw in rws
    ensures AgreeAt(StaticAll(c, w, rws, cur), StaticStep(c, w, rw, cur), rw.domain)
    decreases |rws|
  {
    DistinctTail(rws);
    var w1 := StaticStep(c, w, rws[0], cur);
    var rest := StaticAll(c, w1, rws[1..], cur);
    if rws[0] == rw {
      StaticAllAvoids(c, w1, rws[1..], cur, rw.domain);
    } else {
      assert rw in rws[1..];
      OtherStepAgrees(c, w, rws[0], cur, rw.domain);
      StaticAllAt(c, w1, rws[1..], cur, rw);
      SameStepAgrees(c, w, w1, rw, cur);
      AgreeTrans(rest, StaticStep(c, w1, rw, cur), StaticStep(c, w, rw, cur), rw.domain);
    }
  }

  /** The four cases of `_sync_static_rewrites` for one configured `(d, a)`:
      a domain without a record gets `add_record(d, a)` and `(d, a)` is
      managed (and present once accepted); a record already answering `a`
      is adopted without a request; a managed record with another answer is
      updated — delete, then add only if the delete was accepted — with the
      old answer unmarked and `a` marked; a record with another answer that
      is not managed is left alone, request, records and marks. */
  lemma StaticRewriteEffect(c: Config, w: World, d: string, a: string)
    requires DistinctDomains(c.staticRewrites) && Rewrite(d, a) in c.staticRewrites
    ensures var cur, r := Current(w.dns.records), SyncStatic(c, w);
      d !in cur ==>
        CallsOn(r.dns.log, d) == CallsOn(w.dns.log, d) + [Add(d, a)] &&
        IsManaged(r.st.managed, d, a) &&
        (c.accepts(Add(d, a)) ==> Record(d, a) in r.dns.records)
    ensures var cur, r := Current(w.dns.records), SyncStatic(c, w);
      d in cur && cur[d] == a ==>
        CallsOn(r.dns.log, d) == CallsOn(w.dns.log, d) &&
        IsManaged(r.st.managed, d, a) && Record(d, a) in r.dns.records &&
        (forall b :: Record(d, b) in r.dns.records <==> Record(d, b) in w.dns.records)
    ensures var cur, r := Current(w.dns.records), SyncStatic(c, w);
      d in cur && cur[d] != a && IsManaged(w.st.managed, d, cur[d]) ==>
        CallsOn(r.dns.log, d) == CallsOn(w.dns.log, d) + [Delete(d, cur[d])] +
          (if c.accepts(Delete(d, cur[d])) then [Add(d, a)] else []) &&
        IsManaged(r.st.managed, d, a) &&
        (WellFormed(w.st.managed) ==> !IsManaged(r.st.managed, d, cur[d])) &&
        (c.accepts(Delete(d, cur[d])) && c.accepts(Add(d, a)) ==>
          Record(d, a) in r.dns.records && Record(d, cur[d]) !in r.dns.records)
    ensures var cur, r := Current(w.dns.records), SyncStatic(c, w);
      d in cur && cur[d] != a && !IsManaged(w.st.managed, d, cur[d]) ==>
        CallsOn(r.dns.log, d) == CallsOn(w.dns.log, d) &&
        (d in r.st.managed <==> d in w.st.managed) &&
        (d in w.st.managed ==> r.st.managed[d] == w.st.managed[d]) &&
        (forall b :: Record(d, b) in r.dns.records <==> Record(d, b) in w.dns.records)
  {
    var cur := Current(w.dns.records);
    assert c.staticRewrites != [];
    StaticAllAt(c, w, c.staticRewrites, cur, Rewrite(d, a));
    var s := StaticStep(c, w, Rewrite(d, a), cur);
    if d !in cur {
      CallsOnAppendOne(w.dns.log, Add(d, a), d);
    } else if cur[d] == a {
      CurrentHas(w.dns.records, d);
    } else if IsManaged(w.st.managed, d, cur[d]) {
      var x := cur[d];
      var p := Perform(w.dns, Delete(d, x), c.accepts);
      CallsOnAppendOne(w.dns.log, Delete(d, x), d);
      CallsOnAppendOne(p.log, Add(d, a), d);
      if c.accepts(Delete(d, x)) && c.accepts(Add(d, a)) {
        UpdateReplaces(w.dns, d, x, a, c.accepts);
      }
    }
  }
}
