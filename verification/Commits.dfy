/** What the shared OID map should hold: the sequential history of completed
    critical sections, replayed one whole section at a time. */
module Commits {
  import opened Numbers
  import opened Oids
  import opened Control
  import opened PduView

  /** A completed writing section: a batch PUT, a drift tick, a PDU store. */
  datatype Commit = PutCommit(batch: seq<Write>) | DriftCommit | StoreCommit(next: Values)

  datatype Snapshot = Snapshot(values: Values, driven: set<Oid>)

  function Committed(l: Layout, s: Snapshot, c: Commit): (r: Snapshot) {
    match c
    case PutCommit(batch) => Snapshot(Apply(s.values, batch), s.driven + Targets(batch))
    case DriftCommit => Snapshot(Drifted(l, s.values, s.driven), s.driven)
    case StoreCommit(next) => Snapshot(s.values + next, s.driven + next.Keys)
  }

  /** Boot, then every commit in order. */
  function Replay(l: Layout, boot: Values, log: seq<Commit>): (r: Snapshot) {
    if log == [] then Snapshot(boot, {})
    else Committed(l, Replay(l, boot, log[..|log| - 1]), log[|log| - 1])
  }

  lemma ReplayOneMore(l: Layout, boot: Values, log: seq<Commit>, c: Commit)
    ensures Replay(l, boot, log + [c]) == Committed(l, Replay(l, boot, log), c)
  {
    assert (log + [c])[..|log|] == log;
  }

  /** Commits the agent can make: batches of parsed OIDs, and readings. */
  ghost predicate Genuine(l: Layout, c: Commit) {
    match c
    case PutCommit(batch) => ParsedBatch(batch)
    case DriftCommit => true
    case StoreCommit(next) => IsReadings(l, next)
  }

  ghost predicate ParsedBatch(batch: seq<Write>) {
    exists body, order :: WellFormed(body) && IsOrder(body.Keys, order) && batch == Parsed(body, order)
  }

  ghost predicate IsReadings(l: Layout, next: Values) {
    exists powerW, snapshot :: next == ReadingsOf(l, powerW, snapshot)
  }

  ghost predicate AllGenuine(l: Layout, log: seq<Commit>) {
    forall c | c in log :: Genuine(l, c)
  }

  // ----- Keys only grow -----

  lemma CommitGrows(l: Layout, s: Snapshot, c: Commit)
    ensures s.values.Keys <= Committed(l, s, c).values.Keys
    ensures s.driven <= Committed(l, s, c).driven
  {
    if c.PutCommit? {
      ApplyAt(s.values, c.batch, []);
    }
  }

  /** No commit ever removes a key from the map or the driven set. */
  lemma {:induction false} ReplayGrows(l: Layout, boot: Values, log: seq<Commit>, i: nat, j: nat)
    requires i <= j <= |log|
    ensures Replay(l, boot, log[..i]).values.Keys <= Replay(l, boot, log[..j]).values.Keys
    ensures Replay(l, boot, log[..i]).driven <= Replay(l, boot, log[..j]).driven
    decreases j
  {
    if i < j {
      ReplayGrows(l, boot, log, i, j - 1);
      assert log[..j] == log[..j - 1] + [log[j - 1]];
      ReplayOneMore(l, boot, log[..j - 1], log[j - 1]);
      CommitGrows(l, Replay(l, boot, log[..j - 1]), log[j - 1]);
    }
  }

  // ----- Driven values survive -----

  /** The value of `k`'s last external write, if any: the last batch or store
      that names it. */
  function WrittenBy(c: Commit, k: Oid): (r: Option<i64>) {
    match c
    case PutCommit(batch) => if k in Targets(batch) then Some(LastIn(batch, k)) else None
    case DriftCommit => None
    case StoreCommit(next) => if k in next then Some(next[k]) else None
  }

  function LastIn(batch: seq<Write>, k: Oid): (r: i64)
    requires k in Targets(batch)
  {
    ApplyAt(map[], batch, k);
    Apply(map[], batch)[k]
  }

  lemma {:induction false} LastInApplies(values: Values, batch: seq<Write>, k: Oid)
    requires k in Targets(batch)
    ensures k in Apply(values, batch) && Apply(values, batch)[k] == LastIn(batch, k)
  {
    ApplyAt(values, batch, k);
    ApplyAt(map[], batch, k);
    if k != batch[|batch| - 1].oid {
      LastInApplies(values, batch[..|batch| - 1], k);
    }
  }

  function LastWrite(log: seq<Commit>, k: Oid): (r: Option<i64>) {
    if log == [] then None
    else
      var last := WrittenBy(log[|log| - 1], k);
      if last.Some? then last else LastWrite(log[..|log| - 1], k)
  }

  /** An OID is driven exactly when some commit wrote it; outside the PDU2-MIB
      view it then holds the last value written, whatever ticks ran since. */
  lemma {:induction false} DrivenHoldsLastWrite(l: Layout, boot: Values, log: seq<Commit>, k: Oid)
    requires HasSources(l, boot)
    ensures k in Replay(l, boot, log).driven <==> LastWrite(log, k).Some?
    ensures k in Replay(l, boot, log).driven && k !in MirrorKeys(l) ==>
              k in Replay(l, boot, log).values && Replay(l, boot, log).values[k] == LastWrite(log, k).value
  {
    if log != [] {
      var before := Replay(l, boot, log[..|log| - 1]);
      DrivenHoldsLastWrite(l, boot, log[..|log| - 1], k);
      match log[|log| - 1]
      case PutCommit(batch) =>
        ApplyAt(before.values, batch, k);
        if k in Targets(batch) {
          LastInApplies(before.values, batch, k);
        }
      case DriftCommit =>
        SourcesStay(l, boot, log[..|log| - 1]);
        DriftRestores(l, before.values, before.driven);
      case StoreCommit(next) =>
    }
  }

  lemma SourcesStay(l: Layout, boot: Values, log: seq<Commit>)
    requires HasSources(l, boot)
    ensures HasSources(l, Replay(l, boot, log).values)
  {
    ReplayGrows(l, boot, log, 0, |log|);
    assert log[..0] == [] && log[..|log|] == log;
  }

  // ----- Driven OIDs inside the PDU2-MIB view -----

  /** The last drift tick since `k` was last written, if there was one. */
  function TickSince(log: seq<Commit>, k: Oid): (t: Option<nat>)
    ensures t.Some? ==> t.value < |log| && log[t.value].DriftCommit?
    ensures t.Some? ==> forall j | t.value < j < |log| :: !log[j].DriftCommit? && WrittenBy(log[j], k).None?
  {
    if log == [] then None
    else if log[|log| - 1].DriftCommit? then Some(|log| - 1)
    else if WrittenBy(log[|log| - 1], k).Some? then None
    else TickSince(log[..|log| - 1], k)
  }

  /** What a tick after `log` leaves at a PDU2-MIB OID. */
  function MirroredAt(l: Layout, boot: Values, log: seq<Commit>, i: nat): (x: i64)
    requires i < 7 && HasSources(l, boot)
  {
    SourcesStay(l, boot, log);
    var before := Replay(l, boot, log);
    assert l.source[i] in before.values;
    Convert(l, i, NextReading(l, before.values, before.driven, i))
  }

  /** What a PDU2-MIB OID shows: the last write to it, or the mirror of its source
      at the last tick since. */
  lemma {:induction false} TargetShows(l: Layout, boot: Values, log: seq<Commit>, i: nat)
    requires i < 7 && HasSources(l, boot) && LastWrite(log, l.target[i]).Some?
    ensures l.target[i] in Replay(l, boot, log).values
    ensures
      var t := TickSince(log, l.target[i]);
      Replay(l, boot, log).values[l.target[i]] ==
        if t.None? then LastWrite(log, l.target[i]).value
        else MirroredAt(l, boot, log[..t.value], i)
    decreases |log|, 1
  {
    var rest, last, k := log[..|log| - 1], log[|log| - 1], l.target[i];
    var before := Replay(l, boot, rest);
    SourcesStay(l, boot, rest);
    match last
    case DriftCommit => DriftShows(l, before.values, before.driven, i);
    case PutCommit(batch) =>
      ApplyAt(before.values, batch, k);
      if k in Targets(batch) {
        LastInApplies(before.values, batch, k);
      } else {
        TargetShowsBefore(l, boot, log, i);
      }
    case StoreCommit(next) =>
      if k !in next {
        TargetShowsBefore(l, boot, log, i);
      }
  }

  lemma {:induction false} TargetShowsBefore(l: Layout, boot: Values, log: seq<Commit>, i: nat)
    requires i < 7 && HasSources(l, boot) && log != [] && LastWrite(log, l.target[i]).Some?
    requires !log[|log| - 1].DriftCommit? && WrittenBy(log[|log| - 1], l.target[i]).None?
    ensures
      var rest, k := log[..|log| - 1], l.target[i];
      && k in Replay(l, boot, rest).values && TickSince(rest, k) == TickSince(log, k)
      && (TickSince(rest, k).Some? ==> rest[..TickSince(rest, k).value] == log[..TickSince(rest, k).value])
      && Replay(l, boot, rest).values[k] ==
           if TickSince(log, k).None? then LastWrite(log, k).value
           else MirroredAt(l, boot, log[..TickSince(log, k).value], i)
    decreases |log|, 0
  {
    TargetShows(l, boot, log[..|log| - 1], i);
  }

  /** Over every history, a driven PDU2-MIB OID still holds its last written value
      if and only if no tick ran since, or the last one mirrored that very value. */
  lemma DrivenTargetHolds(l: Layout, boot: Values, log: seq<Commit>, i: nat)
    requires i < 7 && HasSources(l, boot) && LastWrite(log, l.target[i]).Some?
    ensures l.target[i] in Replay(l, boot, log).driven && l.target[i] in Replay(l, boot, log).values
    ensures
      var t, v := TickSince(log, l.target[i]), LastWrite(log, l.target[i]).value;
      Replay(l, boot, log).values[l.target[i]] == v <==>
        t.None? || MirroredAt(l, boot, log[..t.value], i) == v
  {
    DrivenHoldsLastWrite(l, boot, log, l.target[i]);
    TargetShows(l, boot, log, i);
  }

  lemma LostIsGenuine(l: Layout, log: seq<Commit>)
    requires log == [PutCommit([Write(l.target[0], 5)]), DriftCommit]
    ensures AllGenuine(l, log)
  {
    EmptyIsNoReading(l);
    assert l.target[0] in l.target;
    OneWriteIsGenuine(l.target[0], 5);
  }

  /** The failing history: 5 W put on the PDU2-MIB input power, then one tick. The
      OID is driven, its last write is 5, and it shows 10 800. */
  lemma DrivenTargetLost(l: Layout, switch: Values, log: seq<Commit>)
    requires log == [PutCommit([Write(l.target[0], 5)]), DriftCommit]
    ensures AllGenuine(l, log)
    ensures
      var r := Replay(l, InitialValues(l, switch), log);
      && l.target[0] in r.driven && LastWrite(log, l.target[0]) == Some(5)
      && l.target[0] in r.values && r.values[l.target[0]] == 10_800
  {
    var boot, k := InitialValues(l, switch), l.target[0];
    var put := log[0];
    BootAgrees(l, switch);
    LostIsGenuine(l, log);
    OneWrite(boot, k, 5);
    OneWrite(map[], k, 5);
    ReplayOneMore(l, boot, [], put);
    ReplayOneMore(l, boot, [put], DriftCommit);
    assert [] + [put] == [put] && [put] + [DriftCommit] == log;
    assert log[..1] == [put] && [put][..0] == [];
    DrivenHoldsLastWrite(l, boot, log, k);
    SourcesStay(l, boot, [put]);
    assert l.source[0] in boot && l.slot(l.source[0]) == 0 && l.slot(k) == 7;
    DriftShows(l, boot[k := 5], {k}, 0);
  }

  /** One dotted OID is a batch any client can send. */
  lemma OneWriteIsGenuine(k: Oid, v: i64)
    requires k != []
    ensures ParsedBatch([Write(k, v)])
  {
    DottedRoundTrip(k);
    var body, order := map[Dotted(k) := v], [Dotted(k)];
    assert WellFormed(body) && IsOrder(body.Keys, order);
    assert Parsed(body, order) == [Write(k, v)];
  }

  lemma OneWrite(values: Values, k: Oid, v: i64)
    ensures Apply(values, [Write(k, v)]) == values[k := v] && Targets([Write(k, v)]) == {k}
  {
    assert [Write(k, v)][..0] == [];
  }

  // ----- The PDU2-MIB view -----

  predicate NoPut(log: seq<Commit>) {
    forall c | c in log :: !c.PutCommit?
  }

  /** Once the views agree, they agree after every commit that is not a PUT. */
  lemma {:induction false} AgreementLasts(l: Layout, boot: Values, log: seq<Commit>, since: nat)
    requires HasSources(l, boot) && AllGenuine(l, log) && since <= |log|
    requires Agree(l, Replay(l, boot, log[..since]).values)
    requires NoPut(log[since..])
    ensures Agree(l, Replay(l, boot, log).values)
    decreases |log|
  {
    if since == |log| {
      assert log[..since] == log;
    } else {
      var rest, last := log[..|log| - 1], log[|log| - 1];
      assert rest[..since] == log[..since];
      assert log[since..] == rest[since..] + [last];
      AgreementLasts(l, boot, rest, since);
      assert last in log[since..] && last in log;
      match last
      case DriftCommit =>
        SourcesStay(l, boot, rest);
        DriftRestores(l, Replay(l, boot, rest).values, Replay(l, boot, rest).driven);
      case StoreCommit(next) =>
        var powerW, snapshot :| next == ReadingsOf(l, powerW, snapshot);
        StoreKeepsAgreement(l, Replay(l, boot, rest).values, powerW, snapshot);
    }
  }

  /** Without PUTs the PDU2-MIB view always mirrors the Sentry4 one. */
  lemma AgreementWithoutPuts(l: Layout, switch: Values, log: seq<Commit>)
    requires AllGenuine(l, log) && NoPut(log)
    ensures Agree(l, Replay(l, InitialValues(l, switch), log).values)
  {
    BootAgrees(l, switch);
    assert log[..0] == [] && log[0..] == log;
    AgreementLasts(l, InitialValues(l, switch), log, 0);
  }

  /** With PUTs, every tick restores agreement, which then lasts until the next PUT. */
  lemma AgreementAfterTick(l: Layout, boot: Values, log: seq<Commit>, tick: nat)
    requires HasSources(l, boot) && AllGenuine(l, log)
    requires tick < |log| && log[tick].DriftCommit? && NoPut(log[tick + 1..])
    ensures Agree(l, Replay(l, boot, log).values)
  {
    var before := log[..tick];
    assert log[..tick + 1] == before + [log[tick]];
    ReplayOneMore(l, boot, before, log[tick]);
    SourcesStay(l, boot, before);
    DriftRestores(l, Replay(l, boot, before).values, Replay(l, boot, before).driven);
    AgreementLasts(l, boot, log, tick + 1);
  }

  // ----- The drifting current -----

  function Ticks(log: seq<Commit>): (r: nat) {
    if log == [] then 0
    else Ticks(log[..|log| - 1]) + if log[|log| - 1].DriftCommit? then 1 else 0
  }

  /** While nothing drives it, the L1 current after `n` ticks is the `n`-th
      value of the 21-value sawtooth, so it stays within 15.00 and 16.00 A. */
  lemma {:induction false} DriftClosedForm(l: Layout, switch: Values, log: seq<Commit>)
    requires l.source[1] !in Replay(l, InitialValues(l, switch), log).driven
    ensures l.source[1] in Replay(l, InitialValues(l, switch), log).values
    ensures Replay(l, InitialValues(l, switch), log).values[l.source[1]] == 1500 + Ticks(log) % 21 * 5
  {
    var boot := InitialValues(l, switch);
    BootAgrees(l, switch);
    if log != [] {
      var rest, last := log[..|log| - 1], log[|log| - 1];
      var before := Replay(l, boot, rest);
      CommitGrows(l, before, last);
      DriftClosedForm(l, switch, rest);
      match last
      case PutCommit(batch) => ApplyAt(before.values, batch, l.source[1]);
      case DriftCommit =>
        DriftStep(l, before, Ticks(rest));
      case StoreCommit(next) =>
    }
  }

  lemma DriftStep(l: Layout, s: Snapshot, n: nat)
    requires l.source[1] !in s.driven && l.source[1] in s.values
    requires s.values[l.source[1]] == 1500 + n % 21 * 5
    ensures l.source[1] in Drifted(l, s.values, s.driven)
    ensures Drifted(l, s.values, s.driven)[l.source[1]] == 1500 + (n + 1) % 21 * 5
  {
    SourcesAreNotTargets(l, 1);
    MirrorAt(l, Tick(l, s.values, s.driven), 1);
    SawStep(n);
  }

  lemma SawStep(n: nat)
    ensures (n + 1) % 21 == if n % 21 == 20 then 0 else n % 21 + 1
  {
  }

  // ----- No empty OID -----

  /** The empty OID never becomes a key, so a response always has a name. */
  lemma {:induction false} NoEmptyKey(l: Layout, switch: Values, log: seq<Commit>)
    requires [] !in switch && AllGenuine(l, log)
    ensures [] !in Replay(l, InitialValues(l, switch), log).values
  {
    if log == [] {
      BootHasNoEmptyKey(l, switch, 7);
      MirrorAt(l, BootReadings(l, switch, 7), 0);
      EmptyIsNoReading(l);
    } else {
      var rest, last := log[..|log| - 1], log[|log| - 1];
      var before := Replay(l, InitialValues(l, switch), rest);
      NoEmptyKey(l, switch, rest);
      assert last in log;
      EmptyIsNoReading(l);
      match last
      case PutCommit(batch) =>
        ApplyAt(before.values, batch, []);
        var body, order :| WellFormed(body) && IsOrder(body.Keys, order) && batch == Parsed(body, order);
        assert forall i | 0 <= i < |batch| :: order[i] in order && batch[i].oid != [];
      case DriftCommit =>
        MirrorAt(l, Tick(l, before.values, before.driven), 0);
      case StoreCommit(next) =>
        var powerW, snapshot :| next == ReadingsOf(l, powerW, snapshot);
        LoadReadingsKeys(l, powerW, snapshot, 3);
        MirrorAt(l, LoadReadings(l, powerW, snapshot, 3), 0);
    }
  }

  lemma EmptyIsNoReading(l: Layout)
    ensures [] !in l.source && [] !in l.target && [] !in MirrorKeys(l)
  {
    assert l.slot([]) == -1;
    assert forall i | 0 <= i < 7 :: l.slot(l.source[i]) == i && l.slot(l.target[i]) == 7 + i;
  }

  lemma {:induction false} BootHasNoEmptyKey(l: Layout, switch: Values, n: nat)
    requires [] !in switch && n <= 7
    ensures [] !in BootReadings(l, switch, n)
  {
    EmptyIsNoReading(l);
    if n > 0 {
      BootHasNoEmptyKey(l, switch, n - 1);
      assert l.source[n - 1] in l.source;
    }
  }

  lemma {:induction false} LoadReadingsKeys(l: Layout, powerW: real, values: Values, n: nat)
    requires n <= 3
    ensures [] !in LoadReadings(l, powerW, values, n)
  {
    EmptyIsNoReading(l);
    assert l.source[n] in l.source;
    if n > 0 {
      LoadReadingsKeys(l, powerW, values, n - 1);
    }
  }
}
