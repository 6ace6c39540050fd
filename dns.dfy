/** The DNS provider the syncer talks to: a list of `(domain, answer)`
    rewrite records behind add/delete requests. Whether the server accepts a
    request is the provider's fixed behaviour `accepts`; a refused request
    changes nothing but is still issued. */
module Dns {

  datatype Record = Record(domain: string, answer: string)

  /** A request the syncer issues. */
  datatype Call = Add(domain: string, answer: string) | Delete(domain: string, answer: string)

  /** The provider as a value: its records and every request issued so far. */
  datatype Provider = Provider(records: seq<Record>, log: seq<Call>)

  /** The records other than `x`, in their order. */
  function Without(rs: seq<Record>, x: Record): (r: seq<Record>)
    ensures forall y :: y in r <==> y in rs && y != x
    ensures |r| <= |rs|
  {
    if rs == [] then []
    else
      assert forall y :: y in rs <==> y == rs[0] || y in rs[1..];
      (if rs[0] == x then [] else [rs[0]]) + Without(rs[1..], x)
  }

  /** One request: it is logged; an accepted add appends the record, an
      accepted delete removes every copy of it. */
  function Perform(p: Provider, c: Call, accepts: Call -> bool): (q: Provider)
    ensures q.log == p.log + [c]
    ensures !accepts(c) ==> q.records == p.records
    ensures accepts(c) && c.Add? ==> q.records == p.records + [Record(c.domain, c.answer)]
    ensures accepts(c) && c.Delete? ==>
      forall y :: y in q.records <==> y in p.records && y != Record(c.domain, c.answer)
  {
    var recs :=
      if !accepts(c) then p.records
      else match c
        case Add(d, a) => p.records + [Record(d, a)]
        case Delete(d, a) => Without(p.records, Record(d, a));
    Provider(recs, p.log + [c])
  }

  /** `DNSProvider.update_record`: delete the old answer, and add the new one
      only when the delete was accepted. */
  function Update(p: Provider, d: string, oldAnswer: string, newAnswer: string, accepts: Call -> bool): Provider
  {
    var q := Perform(p, Delete(d, oldAnswer), accepts);
    if accepts(Delete(d, oldAnswer)) then Perform(q, Add(d, newAnswer), accepts) else q
  }

  /** An update both of whose requests are accepted replaces the old record by
      the new one and leaves every other record alone. */
  lemma UpdateReplaces(p: Provider, d: string, oldAnswer: string, newAnswer: string, accepts: Call -> bool)
    requires accepts(Delete(d, oldAnswer)) && accepts(Add(d, newAnswer))
    ensures Record(d, newAnswer) in Update(p, d, oldAnswer, newAnswer, accepts).records
    ensures oldAnswer != newAnswer ==> Record(d, oldAnswer) !in Update(p, d, oldAnswer, newAnswer, accepts).records
    ensures forall y :: y != Record(d, oldAnswer) && y != Record(d, newAnswer) ==>
      (y in Update(p, d, oldAnswer, newAnswer, accepts).records <==> y in p.records)
    ensures Update(p, d, oldAnswer, newAnswer, accepts).log == p.log + [Delete(d, oldAnswer), Add(d, newAnswer)]
  {
    var q := Perform(p, Delete(d, oldAnswer), accepts);
    var r := Perform(q, Add(d, newAnswer), accepts);
    assert r.records == q.records + [Record(d, newAnswer)];
    assert forall y :: y in r.records <==> y in q.records || y == Record(d, newAnswer);
  }

  /** A refused delete aborts the update: nothing is added. */
  lemma UpdateStopsOnRefusedDelete(p: Provider, d: string, oldAnswer: string, newAnswer: string, accepts: Call -> bool)
    requires !accepts(Delete(d, oldAnswer))
    ensures Update(p, d, oldAnswer, newAnswer, accepts) == Provider(p.records, p.log + [Delete(d, oldAnswer)])
  {
  }

  /** The provider object. */
  class DnsProvider {
    var records: seq<Record>
    var log: seq<Call>
    const accepts: Call -> bool

    constructor (initial: seq<Record>, accepts: Call -> bool)
      ensures records == initial && log == [] && this.accepts == accepts
    {
      records, log := initial, [];
      this.accepts := accepts;
    }

    function Value(): Provider
      reads this
    {
      Provider(records, log)
    }

    method GetRecords() returns (rs: seq<Record>)
      ensures rs == records
    {
      rs := records;
    }

    method AddRecord(d: string, a: string) returns (ok: bool)
      modifies this
      ensures ok == accepts(Add(d, a))
      ensures Value() == Perform(old(Value()), Add(d, a), accepts)
    {
      log := log + [Add(d, a)];
      ok := accepts(Add(d, a));
      if ok {
        records := records + [Record(d, a)];
      }
    }

    method DeleteRecord(d: string, a: string) returns (ok: bool)
      modifies this
      ensures ok == accepts(Delete(d, a))
      ensures Value() == Perform(old(Value()), Delete(d, a), accepts)
    {
      log := log + [Delete(d, a)];
      ok := accepts(Delete(d, a));
      if ok {
        records := Without(records, Record(d, a));
      }
    }

    /** The default `update_record`: delete, then add if that succeeded. */
    method UpdateRecord(d: string, oldAnswer: string, newAnswer: string) returns (ok: bool)
      modifies this
      ensures ok == (accepts(Delete(d, oldAnswer)) && accepts(Add(d, newAnswer)))
      ensures Value() == Update(old(Value()), d, oldAnswer, newAnswer, accepts)
    {
      ok := DeleteRecord(d, oldAnswer);
      if ok {
        ok := AddRecord(d, newAnswer);
      }
    }
  }
}
