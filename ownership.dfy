/** `managed_records`: for each domain, the answers whose records the syncer
    created or adopted. Only records listed here are ever deleted. */
module Ownership {

  type Managed = map<string, seq<string>>

  predicate NoDup(xs: seq<string>)
  {
    forall i, j :: 0 <= i < j < |xs| ==> xs[i] != xs[j]
  }

  /** No list is empty and none repeats an answer. */
  predicate WellFormed(m: Managed)
  {
    forall d :: d in m ==> m[d] != [] && NoDup(m[d])
  }

  /** `_is_record_managed`. */
  predicate IsManaged(m: Managed, d: string, a: string)
  {
    d in m && a in m[d]
  }

  /** `_mark_record_managed`: `setdefault(domain, [])`, then append the answer
      unless it is already there. */
  function Mark(m: Managed, d: string, a: string): (r: Managed)
    ensures IsManaged(r, d, a)
    ensures forall b :: IsManaged(r, d, b) <==> b == a || IsManaged(m, d, b)
    ensures r.Keys == m.Keys + {d}
    ensures forall e :: e in m && e != d ==> r[e] == m[e]
    ensures d in m && NoDup(m[d]) ==> NoDup(r[d])
    ensures r[d] != []
  {
    var xs := if d in m then m[d] else [];
    if a in xs then m[d := xs] else m[d := xs + [a]]
  }

  /** `list.remove`: the list without the first occurrence of `a`. */
  function RemoveFirst(xs: seq<string>, a: string): (r: seq<string>)
    ensures a !in xs ==> r == xs
    ensures a in xs ==> |r| == |xs| - 1
    ensures forall b :: b != a ==> (b in r <==> b in xs)
    ensures NoDup(xs) ==> NoDup(r) && a !in r
  {
    if xs == [] then []
    else if xs[0] == a then xs[1..]
    else
      var t := RemoveFirst(xs[1..], a);
      assert forall b :: b in xs <==> b == xs[0] || b in xs[1..];
      assert NoDup(xs) ==> xs[0] !in xs[1..];
      [xs[0]] + t
  }

  /** `_unmark_record_managed`: remove the answer from the domain's list and
      drop the list once it is empty. */
  function Unmark(m: Managed, d: string, a: string): (r: Managed)
    ensures forall b :: b != a ==> (IsManaged(r, d, b) <==> IsManaged(m, d, b))
    ensures d in m && NoDup(m[d]) ==> !IsManaged(r, d, a)
    ensures d in r ==> d in m && r[d] != []
    ensures forall e :: e != d ==> (e in r <==> e in m)
    ensures forall e :: e in m && e != d ==> r[e] == m[e]
    ensures d in m && NoDup(m[d]) && d in r ==> NoDup(r[d])
  {
    if d !in m then m
    else
      var xs := RemoveFirst(m[d], a);
      if xs == [] then m - {d} else m[d := xs]
  }

  /** Marking keeps the lists non-empty and duplicate-free. */
  lemma MarkKeepsWellFormed(m: Managed, d: string, a: string)
    requires WellFormed(m)
    ensures WellFormed(Mark(m, d, a))
  {
    var r := Mark(m, d, a);
    forall e | e in r ensures r[e] != [] && NoDup(r[e]) {
      if e != d {
        assert r[e] == m[e];
      } else if d !in m {
        assert r[d] == [a];
      }
    }
  }

  /** Unmarking keeps the lists non-empty and duplicate-free, and makes the
      answer unmanaged. */
  lemma UnmarkKeepsWellFormed(m: Managed, d: string, a: string)
    requires WellFormed(m)
    ensures WellFormed(Unmark(m, d, a))
    ensures !IsManaged(Unmark(m, d, a), d, a)
  {
    var r := Unmark(m, d, a);
    forall e | e in r ensures r[e] != [] && NoDup(r[e]) {
      if e != d {
        assert r[e] == m[e];
      }
    }
  }

  /** Marking then unmarking a new answer restores the domain's other answers. */
  lemma MarkThenUnmark(m: Managed, d: string, a: string, b: string)
    requires WellFormed(m)
    ensures IsManaged(Unmark(Mark(m, d, a), d, a), d, b) <==> b != a && IsManaged(m, d, b)
  {
    MarkKeepsWellFormed(m, d, a);
  }
}
