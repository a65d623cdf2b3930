/** The agent's shared map and driven set, updated in place by the critical
    sections of mock-snmp-agent/src/control.rs, pdu_load.rs and main.rs. Each
    method is one whole section and is proved to be the commit it logs. */
module SharedOids {
  import opened Numbers
  import opened Oids
  import opened Control
  import opened PduView
  import opened Commits

  lemma OneMoreKey(body: map<string, i64>, done: set<string>, order: seq<string>, s: string)
    requires s !in done && IsOrder(done, order) && s in body && ParseOid(s).Some?
    requires forall t | t in order :: t in body && ParseOid(t).Some?
    ensures IsOrder(done + {s}, order + [s])
    ensures forall t | t in order + [s] :: t in body && ParseOid(t).Some?
    ensures Parsed(body, order + [s]) == Parsed(body, order) + [Write(ParseOid(s).value, body[s])]
  {
    assert forall x :: x in order + [s] <==> x in order || x == s;
  }

  /** The parsing loop of `put_oids`, in the hash map's iteration order; it
      stops at the first malformed OID. */
  method ParseBody(body: map<string, i64>) returns (accepted: bool, batch: seq<Write>, ghost order: seq<string>)
    ensures accepted <==> WellFormed(body)
    ensures accepted ==> IsOrder(body.Keys, order) && batch == Parsed(body, order)
  {
    ghost var done: set<string> := {};
    var todo := body.Keys;
    batch, order := [], [];
    while todo != {}
      invariant done !! todo && done + todo == body.Keys && IsOrder(done, order)
      invariant forall s | s in order :: s in body && ParseOid(s).Some?
      invariant batch == Parsed(body, order)
      decreases todo
    {
      var dotted :| dotted in todo;
      var oid := ParseOid(dotted);
      if oid.None? {
        return false, batch, order;
      }
      OneMoreKey(body, done, order, dotted);
      batch := batch + [Write(oid.value, body[dotted])];
      order, done := order + [dotted], done + {dotted};
      todo := todo - {dotted};
    }
    assert done == body.Keys;
    return true, batch, order;
  }

  /** Some key of the body spells this OID. */
  ghost predicate Spelt(body: map<string, i64>, k: Oid) {
    exists dotted :: dotted in body && ParseOid(dotted) == Some(k)
  }

  /** Some key of the body spells this OID and carries this value. */
  ghost predicate Gives(body: map<string, i64>, k: Oid, v: i64) {
    exists dotted :: dotted in body && ParseOid(dotted) == Some(k) && body[dotted] == v
  }

  /** The body written over a state: the OIDs it spells become driven and hold a
      value it gives them, and nothing else changes. */
  ghost predicate WrittenOver(body: map<string, i64>, before: Snapshot, after: Snapshot) {
    && (forall k :: k in after.driven <==> k in before.driven || Spelt(body, k))
    && (forall k :: k in after.values <==> k in before.values || Spelt(body, k))
    && forall k :: k in after.values ==>
         if Spelt(body, k) then Gives(body, k, after.values[k]) else after.values[k] == before.values[k]
  }

  lemma SpeltAreTargets(body: map<string, i64>, order: seq<string>, k: Oid)
    requires WellFormed(body) && IsOrder(body.Keys, order)
    ensures k in Targets(Parsed(body, order)) <==> Spelt(body, k)
  {
    var batch := Parsed(body, order);
    TargetsAre(batch, k);
    if i :| 0 <= i < |batch| && batch[i].oid == k {
      assert order[i] in order && ParseOid(order[i]) == Some(k);
    }
    if dotted :| dotted in body && ParseOid(dotted) == Some(k) {
      assert dotted in order;
      var i :| 0 <= i < |order| && order[i] == dotted;
      assert batch[i].oid == k;
    }
  }

  lemma BatchGives(values: Values, body: map<string, i64>, order: seq<string>, k: Oid)
    requires WellFormed(body) && IsOrder(body.Keys, order) && k in Targets(Parsed(body, order))
    ensures k in Apply(values, Parsed(body, order)) && Gives(body, k, Apply(values, Parsed(body, order))[k])
  {
    var batch := Parsed(body, order);
    ApplyAt(values, batch, k);
    var i :| 0 <= i < |batch| && batch[i] == Write(k, Apply(values, batch)[k]);
    assert order[i] in order && ParseOid(order[i]) == Some(k) && body[order[i]] == batch[i].value;
  }

  /** In every iteration order a well-formed body is written over the state whole. */
  lemma CommitWritesBody(l: Layout, before: Snapshot, body: map<string, i64>, order: seq<string>)
    requires WellFormed(body) && IsOrder(body.Keys, order)
    ensures WrittenOver(body, before, Committed(l, before, PutCommit(Parsed(body, order))))
  {
    forall k
      ensures k in Targets(Parsed(body, order)) <==> Spelt(body, k)
      ensures var after := Apply(before.values, Parsed(body, order));
              && (k in after <==> k in before.values || Spelt(body, k))
              && (k in after ==> if Spelt(body, k) then Gives(body, k, after[k]) else after[k] == before.values[k])
    {
      SpeltAreTargets(body, order, k);
      ApplyAt(before.values, Parsed(body, order), k);
      if Spelt(body, k) {
        BatchGives(before.values, body, order, k);
      }
    }
  }

  class SharedState {
    const layout: Layout
    var values: Values
    var driven: set<Oid>

    function Now(): (r: Snapshot)
      reads this
    {
      Snapshot(values, driven)
    }

    /** `oids::initial_values` over the switch's readings. */
    constructor (layout: Layout, switch: Values)
      ensures this.layout == layout
      ensures Now() == Replay(layout, InitialValues(layout, switch), [])
    {
      this.layout := layout;
      driven := {};
      new;
      var boot := switch;
      for i := 0 to 7
        invariant boot == BootReadings(layout, switch, i)
      {
        boot := boot[layout.source[i] := BOOT_READINGS[i]];
      }
      var mirrored := MirrorMap(layout, boot);
      values := boot + mirrored;
    }

    /** `put_oids`: parse everything first, then write both collections in the
        request's iteration order. */
    method PutOids(body: map<string, i64>) returns (accepted: bool, ghost order: seq<string>)
      modifies this
      ensures accepted <==> WellFormed(body)
      ensures accepted <==> AllNumerals(body)
      ensures !accepted ==> Now() == old(Now())
      ensures accepted ==> IsOrder(body.Keys, order)
      ensures accepted ==> Now() == Committed(layout, old(Now()), PutCommit(Parsed(body, order)))
      ensures accepted ==> WrittenOver(body, old(Now()), Now())
    {
      var batch;
      WellFormedExactly(body);
      accepted, batch, order := ParseBody(body);
      if accepted {
        WriteAll(batch);
        CommitWritesBody(layout, old(Now()), body, order);
      }
    }

    method WriteAll(batch: seq<Write>)
      modifies this
      ensures Now() == Snapshot(Apply(old(values), batch), old(driven) + Targets(batch))
    {
      assert batch[..|batch|] == batch && driven + Targets(batch[..0]) == driven;
      for n := 0 to |batch|
        invariant values == Apply(old(values), batch[..n])
        invariant driven == old(driven) + Targets(batch[..n])
      {
        assert batch[..n + 1][..n] == batch[..n];
        values := values[batch[n].oid := batch[n].value];
        driven := driven + {batch[n].oid};
      }
    }

    /** The drift task's section: tick, then refresh the PDU2-MIB view. */
    method DriftSection()
      modifies `values
      ensures Now() == Committed(layout, old(Now()), DriftCommit)
    {
      TickSimulator();
      var mirrored := MirrorMap(layout, values);
      values := values + mirrored;
    }

    /** `Simulator::tick` with its one channel. */
    method TickSimulator()
      modifies `values
      ensures values == Tick(layout, old(values), driven)
    {
      var oid := layout.source[1];
      if oid !in driven {
        var cur: int := if oid in values then values[oid] else DRIFT_MIN;
        var next := if cur + DRIFT_STEP > DRIFT_MAX then DRIFT_MIN else cur + DRIFT_STEP;
        values := values[oid := next];
      }
    }

    /** `store`: mark the OIDs driven, then write them. */
    method Store(next: Values)
      modifies this
      ensures Now() == Committed(layout, old(Now()), StoreCommit(next))
    {
      driven := driven + next.Keys;
      values := values + next;
    }
  }
}
