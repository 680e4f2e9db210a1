/** The once-per-sighting alert engine (alerts/engine.py) over its conflict-ignoring table
    (alerts/repository.py, record_matches).

    The engine's memory and the table's unique key cooperate: the memory forgets on
    removal, on restart and on a change of sighting, and the table does not. */
module Alerts {
  import opened Sequences
  import opened Wrappers

  type Icao = string

  /** The dedupe identity: one user rule or one built-in. */
  datatype Key = Rule(id: int) | Builtin(name: string)

  datatype Severity = Info | Interesting | High | Critical

  datatype Proposal = Proposal(key: Key, severity: Severity, reason: string)

  /** The persistence worker's answer for an open sighting; ids arrive with its commit. */
  datatype Ids = Ids(sightingId: Option<int>, aircraftId: Option<int>)

  datatype AircraftState = AircraftState(
    sightingId: Option<int>, fired: map<Key, Severity>, pending: seq<Proposal>, awaitingMetadata: bool)

  datatype LiveEvent = Changed(icao: Icao) | WentStale(icao: Icao) | Removed(icao: Icao)

  /** What one cycle reads from memory: the live set, the open sightings, which airframes'
      metadata has resolved, and what evaluate() answers for each aircraft. visit is not read by
      anything: it names the sighting an aircraft is in by the id it has or will be given. */
  datatype World = World(
    live: set<Icao>, sighting: Icao -> Option<Ids>, resolved: Icao -> bool, matches: Icao -> seq<Proposal>,
    visit: Icao -> int)

  datatype RowKey = RowKey(key: Key, sightingId: int)

  /** A match ready to be written. */
  datatype Match = Match(icao: Icao, proposal: Proposal, sightingId: int)

  type States = map<Icao, AircraftState>
  type Table = map<RowKey, Proposal>

  const NEW_STATE := AircraftState(None, map[], [], true)

  // ----- Ordered dictionaries of proposals -----

  function Keys(ps: seq<Proposal>): set<Key> { set p | p in ps :: p.key }

  lemma KeysSnoc(ps: seq<Proposal>, p: Proposal)
    ensures Keys(ps + [p]) == Keys(ps) + {p.key}
  {
  }

  function SetDefault(ps: seq<Proposal>, p: Proposal): seq<Proposal> {
    if p.key in Keys(ps) then ps else ps + [p]
  }

  function Pop(ps: seq<Proposal>, k: Key): seq<Proposal> {
    if ps == [] then []
    else
      var n := |ps| - 1;
      if ps[n].key == k then Pop(ps[..n], k) else Pop(ps[..n], k) + [ps[n]]
  }

  // ----- Collecting -----

  datatype Collected = Collected(states: States, wanted: set<Icao>)

  function Drain(states: States, events: seq<LiveEvent>): Collected {
    if events == [] then Collected(states, {})
    else
      var before := Drain(states, events[..|events| - 1]);
      match events[|events| - 1]
      case Removed(icao) => Collected(before.states - {icao}, before.wanted - {icao})
      case WentStale(_) => before
      case Changed(icao) => Collected(before.states, before.wanted + {icao})
  }

  predicate Owes(a: AircraftState) { a.awaitingMetadata || a.pending != [] }

  function Collect(states: States, events: seq<LiveEvent>): Collected {
    var c := Drain(states, events);
    Collected(c.states, c.wanted + set icao | icao in c.states && Owes(c.states[icao]))
  }

  function Resync(states: States, live: set<Icao>): Collected {
    Collected(map icao | icao in states && icao in live :: states[icao], live)
  }

  // ----- Evaluating -----

  function SightingOf(w: World, icao: Icao): Option<int> {
    var ids := w.sighting(icao);
    if ids.None? then None else ids.value.sightingId
  }

  /** Both ids are known, so a match can be written. */
  predicate Writable(w: World, icao: Icao) {
    var ids := w.sighting(icao);
    ids.Some? && ids.value.sightingId.Some? && ids.value.aircraftId.Some?
  }

  function StateFor(states: States, adopted: map<int, map<Key, Severity>>, w: World, icao: Icao): AircraftState {
    var a := if icao in states then states[icao] else NEW_STATE;
    var sighting := SightingOf(w, icao);
    var scoped :=
      if sighting == a.sightingId then a
      else a.(fired := if sighting.Some? && sighting.value in adopted then adopted[sighting.value] else map[],
              sightingId := sighting);
    scoped.(awaitingMetadata := !w.resolved(icao))
  }

  function ProposeOne(a: AircraftState, p: Proposal): AircraftState {
    if p.key in a.fired then a else a.(pending := SetDefault(a.pending, p))
  }

  function Propose(a: AircraftState, ps: seq<Proposal>): AircraftState {
    if ps == [] then a
    else
      ProposeOne(Propose(a, ps[..|ps| - 1]), ps[|ps| - 1])
  }

  datatype Evaluated = Evaluated(states: States, owed: seq<(Icao, Proposal)>)

  function Paired(icao: Icao, ps: seq<Proposal>): seq<(Icao, Proposal)> {
    seq(|ps|, i requires 0 <= i < |ps| => (icao, ps[i]))
  }

  function Evaluate(states: States, adopted: map<int, map<Key, Severity>>, w: World, order: seq<Icao>): Evaluated {
    if order == [] then Evaluated(states, [])
    else
      var n := |order| - 1;
      var before := Evaluate(states, adopted, w, order[..n]);
      var icao := order[n];
      if icao !in w.live then Evaluated(before.states - {icao}, before.owed)
      else
        var a := Propose(StateFor(before.states, adopted, w, icao), w.matches(icao));
        Evaluated(before.states[icao := a], before.owed + Paired(icao, a.pending))
  }

  // ----- Recording -----

  function WritableMatches(w: World, owed: seq<(Icao, Proposal)>): seq<Match> {
    if owed == [] then []
    else
      var n := |owed| - 1;
      var before := WritableMatches(w, owed[..n]);
      if Writable(w, owed[n].0)
      then before + [Match(owed[n].0, owed[n].1, w.sighting(owed[n].0).value.sightingId.value)] else before
  }

  function OfSeverity(ms: seq<Match>, v: Severity): seq<Match> {
    if ms == [] then []
    else
      var n := |ms| - 1;
      OfSeverity(ms[..n], v) + if ms[n].proposal.severity == v then [ms[n]] else []
  }

  /** The stable sort by descending severity rank. */
  function BySeverity(ms: seq<Match>): seq<Match> {
    OfSeverity(ms, Critical) + OfSeverity(ms, High) + OfSeverity(ms, Interesting) + OfSeverity(ms, Info)
  }

  function RowOf(m: Match): RowKey { RowKey(m.proposal.key, m.sightingId) }

  datatype Written = Written(table: Table, created: seq<bool>)

  /** INSERT ... ON CONFLICT DO NOTHING, one match after another. */
  function Insert(table: Table, ms: seq<Match>): Written {
    if ms == [] then Written(table, [])
    else
      var n := |ms| - 1;
      var before := Insert(table, ms[..n]);
      var row := RowOf(ms[n]);
      if row in before.table then Written(before.table, before.created + [false])
      else Written(before.table[row := ms[n].proposal], before.created + [true])
  }

  /** The attempted key leaves pending and counts as fired, whether or not a row was created. */
  function SettleOne(states: States, m: Match): States {
    if m.icao !in states then states
    else
      var a := states[m.icao];
      states[m.icao := a.(pending := Pop(a.pending, m.proposal.key),
                          fired := a.fired[m.proposal.key := m.proposal.severity])]
  }

  function Settle(states: States, ms: seq<Match>): States {
    if ms == [] then states
    else
      var n := |ms| - 1;
      SettleOne(Settle(states, ms[..n]), ms[n])
  }

  function Facts(ms: seq<Match>, created: seq<bool>): seq<RowKey>
    requires |created| == |ms|
  {
    if ms == [] then []
    else
      var n := |ms| - 1;
      Facts(ms[..n], created[..n]) + if created[n] then [RowOf(ms[n])] else []
  }

  lemma {:induction false} InsertLength(table: Table, ms: seq<Match>)
    ensures |Insert(table, ms).created| == |ms|
  {
    if ms != [] {
      InsertLength(table, ms[..|ms| - 1]);
    }
  }

  // ----- The engine as a state machine -----

  /** How the write of a cycle ends: committed, rolled back, or committed with the reply
      lost, which the engine cannot tell from rolled back. */
  datatype Outcome = Committed | RolledBack | ReplyLost

  datatype Input = Drained(events: seq<LiveEvent>) | Overflowed

  datatype System = System(states: States, adopted: map<int, map<Key, Severity>>, table: Table, announced: seq<RowKey>)

  datatype Step =
    | Cycle(w: World, input: Input, order: seq<Icao>, outcome: Outcome)
    | Restart(open: set<int>)

  function Wanted(s: System, c: Step): Collected
    requires c.Cycle?
  {
    match c.input
    case Drained(events) => Collect(s.states, events)
    case Overflowed => Resync(s.states, c.w.live)
  }

  /** Every wanted aircraft is evaluated once, in some order. */
  predicate Enabled(s: System, c: Step) {
    c.Cycle? ==>
      && (forall i, j :: 0 <= i < j < |c.order| ==> c.order[i] != c.order[j])
      && (set i | 0 <= i < |c.order| :: c.order[i]) == Wanted(s, c).wanted
  }

  function EvaluatedIn(s: System, c: Step): Evaluated
    requires c.Cycle?
  {
    Evaluate(Wanted(s, c).states, s.adopted, c.w, c.order)
  }

  function BatchOf(s: System, c: Step): seq<Match>
    requires c.Cycle?
  {
    BySeverity(WritableMatches(c.w, EvaluatedIn(s, c).owed))
  }

  /** open_sighting_match_keys: what the open sightings have already matched. */
  function Adopt(table: Table, open: set<int>): map<int, map<Key, Severity>> {
    map sid | sid in open && (exists r :: r in table && r.sightingId == sid) ::
      map k | k in (set r | r in table && r.sightingId == sid :: r.key) :: table[RowKey(k, sid)].severity
  }

  /** The write leg: nothing to write, or one transaction and its outcome. */
  function Write(s: System, states: States, batch: seq<Match>, outcome: Outcome): System {
    var written := Insert(s.table, batch);
    InsertLength(s.table, batch);
    if batch == [] || outcome.RolledBack? then s.(states := states)
    else if outcome.ReplyLost? then s.(states := states, table := written.table)
    else System(Settle(states, batch), s.adopted, written.table, s.announced + Facts(batch, written.created))
  }

  function Next(s: System, c: Step): System {
    match c
    case Restart(open) => System(map[], Adopt(s.table, open), s.table, s.announced)
    case Cycle(w, _, _, outcome) => Write(s, EvaluatedIn(s, c).states, BatchOf(s, c), outcome)
  }

  function Run(s: System, cs: seq<Step>): System {
    if cs == [] then s else Next(Run(s, cs[..|cs| - 1]), cs[|cs| - 1])
  }

  predicate Feasible(s: System, cs: seq<Step>) {
    forall i :: 0 <= i < |cs| ==> Enabled(Run(s, cs[..i]), cs[i])
  }

  const FRESH_SYSTEM := System(map[], map[], map[], [])

  // ----- What must hold -----

  predicate DistinctKeys(ps: seq<Proposal>) { DistinctBy(ps, (p: Proposal) => p.key) }

  /** Everything remembered as fired has a row for the sighting it is remembered under. */
  predicate StateOk(a: AircraftState, table: Table) {
    && (forall k :: k in a.fired ==> a.sightingId.Some? && RowKey(k, a.sightingId.value) in table)
    && DistinctKeys(a.pending)
  }

  predicate StatesOk(states: States, table: Table) { forall icao :: icao in states ==> StateOk(states[icao], table) }

  predicate AdoptedHasRow(adopted: map<int, map<Key, Severity>>, table: Table) {
    forall sid :: sid in adopted ==> forall k :: k in adopted[sid] ==> RowKey(k, sid) in table
  }

  predicate AnnouncedOnce(announced: seq<RowKey>, table: Table) {
    && (forall i, j :: 0 <= i < j < |announced| ==> announced[i] != announced[j])
    && (forall i :: 0 <= i < |announced| ==> announced[i] in table)
  }

  predicate Invariant(s: System) {
    StatesOk(s.states, s.table) && AdoptedHasRow(s.adopted, s.table) && AnnouncedOnce(s.announced, s.table)
  }

  // ----- Memory -----

  lemma {:induction false} DrainKeeps(states: States, events: seq<LiveEvent>)
    ensures
      var c := Drain(states, events);
      && (forall icao :: icao in c.states ==> icao in states && c.states[icao] == states[icao])
      && (forall icao :: icao in states && icao !in c.states ==> Removed(icao) in events)
  {
    if events != [] {
      DrainKeeps(states, events[..|events| - 1]);
    }
  }

  /** The aircraft changed, and was not removed afterwards. */
  predicate ChangedAndStays(events: seq<LiveEvent>, icao: Icao) {
    exists i :: 0 <= i < |events| && events[i] == Changed(icao) && Removed(icao) !in events[i + 1..]
  }

  lemma ChangedSnoc(events: seq<LiveEvent>, e: LiveEvent, icao: Icao)
    ensures ChangedAndStays(events + [e], icao) <==> e == Changed(icao) || (ChangedAndStays(events, icao) && e != Removed(icao))
  {
    var all := events + [e];
    assert all[|events|] == e && all[|events| + 1..] == [];
    forall i | 0 <= i < |events| ensures all[i] == events[i] && all[i + 1..] == events[i + 1..] + [e] {
    }
    if ChangedAndStays(events, icao) && e != Removed(icao) {
      var i :| 0 <= i < |events| && events[i] == Changed(icao) && Removed(icao) !in events[i + 1..];
      assert all[i] == Changed(icao) && Removed(icao) !in all[i + 1..];
    }
  }

  lemma {:induction false} DrainWants(states: States, events: seq<LiveEvent>, icao: Icao)
    ensures icao in Drain(states, events).wanted <==> ChangedAndStays(events, icao)
    ensures icao in Drain(states, events).states <==> icao in states && Removed(icao) !in events
  {
    if events != [] {
      var n := |events| - 1;
      DrainWants(states, events[..n], icao);
      ChangedSnoc(events[..n], events[n], icao);
      hide ChangedAndStays;
      assert events == events[..n] + [events[n]];
    }
  }

  /** A cycle evaluates exactly the aircraft that changed and were not removed afterwards, and
      those not removed that owe an evaluation: for metadata, or for a match not yet written. */
  lemma CollectWants(states: States, events: seq<LiveEvent>, icao: Icao)
    ensures
      var c := Collect(states, events);
      && (icao in c.states <==> icao in states && Removed(icao) !in events)
      && (icao in c.states ==> c.states[icao] == states[icao])
      && (icao in c.wanted <==>
          || ChangedAndStays(events, icao)
          || (icao in states && Removed(icao) !in events && (states[icao].awaitingMetadata || states[icao].pending != [])))
  {
    DrainWants(states, events, icao);
    DrainKeeps(states, events);
    hide Drain, ChangedAndStays;
  }

  lemma {:induction false} PopSpec(ps: seq<Proposal>, k: Key)
    ensures k !in Keys(Pop(ps, k))
    ensures forall p :: p in Pop(ps, k) <==> p in ps && p.key != k
    ensures DistinctKeys(ps) ==> DistinctKeys(Pop(ps, k))
  {
    if ps != [] {
      var n := |ps| - 1;
      PopSpec(ps[..n], k);
      assert ps == ps[..n] + [ps[n]];
      if DistinctKeys(ps) && ps[n].key != k {
        forall i | 0 <= i < |Pop(ps[..n], k)| ensures Pop(ps[..n], k)[i].key != ps[n].key {
          assert Pop(ps[..n], k)[i] in Pop(ps[..n], k);
        }
      }
    }
  }

  lemma ProposeOneSpec(a: AircraftState, p: Proposal)
    ensures
      var b := ProposeOne(a, p);
      && b == a.(pending := b.pending)
      && (DistinctKeys(a.pending) ==> DistinctKeys(b.pending))
      && a.pending <= b.pending
      && Keys(b.pending) == Keys(a.pending) + ({p.key} - a.fired.Keys)
  {
    hide Keys, DistinctKeys;
    KeysSnoc(a.pending, p);
    if p.key !in Keys(a.pending) {
      DistinctSnoc(a.pending, p);
    }
  }

  lemma {:induction false} ProposeSpec(a: AircraftState, ps: seq<Proposal>)
    ensures
      var b := Propose(a, ps);
      && b == a.(pending := b.pending)
      && (DistinctKeys(a.pending) ==> DistinctKeys(b.pending))
      && a.pending <= b.pending
      && Keys(b.pending) == Keys(a.pending) + (Keys(ps) - a.fired.Keys)
  {
    hide Keys, DistinctKeys, ProposeOne;
    if ps == [] {
      NoKeys(ps);
    } else {
      var n := |ps| - 1;
      ProposeSpec(a, ps[..n]);
      assert ps == ps[..n] + [ps[n]];
      KeysSnoc(ps[..n], ps[n]);
      ProposeOneSpec(Propose(a, ps[..n]), ps[n]);
    }
  }

  lemma NoKeys(ps: seq<Proposal>)
    requires ps == []
    ensures Keys(ps) == {}
  {
  }

  lemma DistinctSnoc(ps: seq<Proposal>, p: Proposal)
    requires p.key !in Keys(ps)
    ensures DistinctKeys(ps) ==> DistinctKeys(ps + [p])
  {
    forall i | 0 <= i < |ps| ensures ps[i].key != p.key {
      assert ps[i] in ps;
    }
  }

  /** One aircraft's state after its evaluation. */
  function AfterEvaluation(states: States, adopted: map<int, map<Key, Severity>>, w: World, icao: Icao): AircraftState {
    Propose(StateFor(states, adopted, w, icao), w.matches(icao))
  }

  lemma {:induction false} EvaluateSpec(states: States, adopted: map<int, map<Key, Severity>>, w: World, order: seq<Icao>)
    requires forall i, j :: 0 <= i < j < |order| ==> order[i] != order[j]
    ensures
      var e := Evaluate(states, adopted, w, order);
      && (forall icao :: icao in order && icao in w.live ==>
            && icao in e.states && e.states[icao] == AfterEvaluation(states, adopted, w, icao)
            && (forall p :: p in e.states[icao].pending ==> (icao, p) in e.owed))
      && (forall icao :: icao in order && icao !in w.live ==> icao !in e.states)
      && (forall icao :: icao !in order ==> (icao in e.states <==> icao in states))
      && (forall icao :: icao !in order && icao in states ==> e.states[icao] == states[icao])
      && (forall o :: o in e.owed ==> o.0 in order && o.0 in w.live && o.1 in e.states[o.0].pending)
  {
    hide StateFor, Propose;
    if order != [] {
      var n := |order| - 1;
      EvaluateSpec(states, adopted, w, order[..n]);
      assert order == order[..n] + [order[n]];
      var icao, before := order[n], Evaluate(states, adopted, w, order[..n]);
      assert icao !in order[..n];
      SameMemory(before.states, states, adopted, w, icao);
      if icao in w.live {
        var a := AfterEvaluation(states, adopted, w, icao);
        assert forall i :: 0 <= i < |a.pending| ==> Paired(icao, a.pending)[i] == (icao, a.pending[i]);
      }
    }
  }

  lemma SameMemory(states: States, other: States, adopted: map<int, map<Key, Severity>>, w: World, icao: Icao)
    requires icao in states <==> icao in other
    requires icao in states ==> states[icao] == other[icao]
    ensures AfterEvaluation(states, adopted, w, icao) == AfterEvaluation(other, adopted, w, icao)
  {
  }

  lemma EvaluatedOk(states: States, adopted: map<int, map<Key, Severity>>, w: World, icao: Icao, table: Table)
    requires StatesOk(states, table) && AdoptedHasRow(adopted, table)
    ensures
      var a := AfterEvaluation(states, adopted, w, icao);
      StateOk(a, table) && a.sightingId == SightingOf(w, icao)
  {
    ProposeSpec(StateFor(states, adopted, w, icao), w.matches(icao));
    assert icao in states ==> StateOk(states[icao], table);
  }

  // ----- The batch -----

  lemma {:induction false} WritableSpec(w: World, owed: seq<(Icao, Proposal)>)
    ensures forall m :: m in WritableMatches(w, owed) <==>
      (m.icao, m.proposal) in owed && Writable(w, m.icao) && w.sighting(m.icao).value.sightingId == Some(m.sightingId)
  {
    if owed != [] {
      var n := |owed| - 1;
      WritableSpec(w, owed[..n]);
      assert owed == owed[..n] + [owed[n]];
    }
  }

  lemma {:induction false} OfSeveritySpec(ms: seq<Match>, v: Severity)
    ensures forall m :: m in OfSeverity(ms, v) <==> m in ms && m.proposal.severity == v
  {
    if ms != [] {
      OfSeveritySpec(ms[..|ms| - 1], v);
      assert ms == ms[..|ms| - 1] + [ms[|ms| - 1]];
    }
  }

  function Rank(v: Severity): nat {
    match v
    case Info => 0
    case Interesting => 1
    case High => 2
    case Critical => 3
  }

  /** Sorting by severity is the stable sort: it keeps each match as often as it occurs, never
      puts a lower severity before a higher one, and leaves the matches of each severity in
      the order they came in. */
  lemma BySeveritySpec(ms: seq<Match>)
    ensures multiset(BySeverity(ms)) == multiset(ms)
    ensures forall m :: m in BySeverity(ms) <==> m in ms
    ensures forall i, j :: 0 <= i < j < |BySeverity(ms)| ==>
              Rank(BySeverity(ms)[i].proposal.severity) >= Rank(BySeverity(ms)[j].proposal.severity)
    ensures forall v :: OfSeverity(BySeverity(ms), v) == OfSeverity(ms, v)
  {
    BySeverityKeeps(ms);
    BySeverityMembers(ms);
    BySeverityDescends(ms);
    forall v ensures OfSeverity(BySeverity(ms), v) == OfSeverity(ms, v) {
      BySeverityIsStable(ms, v);
    }
  }

  lemma BySeverityMembers(ms: seq<Match>)
    ensures forall m :: m in BySeverity(ms) <==> m in ms
  {
    hide OfSeverity;
    OfSeveritySpec(ms, Critical);
    OfSeveritySpec(ms, High);
    OfSeveritySpec(ms, Interesting);
    OfSeveritySpec(ms, Info);
  }

  lemma {:induction false} OfSeverityCounts(ms: seq<Match>, v: Severity, m: Match)
    ensures multiset(OfSeverity(ms, v))[m] == if m.proposal.severity == v then multiset(ms)[m] else 0
  {
    if ms != [] {
      var n := |ms| - 1;
      OfSeverityCounts(ms[..n], v, m);
      assert ms == ms[..n] + [ms[n]];
    }
  }

  lemma BySeverityKeeps(ms: seq<Match>)
    ensures multiset(BySeverity(ms)) == multiset(ms)
  {
    hide OfSeverity;
    forall m ensures multiset(BySeverity(ms))[m] == multiset(ms)[m] {
      OfSeverityCounts(ms, Critical, m);
      OfSeverityCounts(ms, High, m);
      OfSeverityCounts(ms, Interesting, m);
      OfSeverityCounts(ms, Info, m);
    }
  }

  lemma BySeverityDescends(ms: seq<Match>)
    ensures forall i, j :: 0 <= i < j < |BySeverity(ms)| ==>
              Rank(BySeverity(ms)[i].proposal.severity) >= Rank(BySeverity(ms)[j].proposal.severity)
  {
    OfSeveritySpec(ms, Critical);
    OfSeveritySpec(ms, High);
    OfSeveritySpec(ms, Interesting);
    OfSeveritySpec(ms, Info);
    var a, b, c, d := OfSeverity(ms, Critical), OfSeverity(ms, High), OfSeverity(ms, Interesting), OfSeverity(ms, Info);
    hide OfSeverity;
    assert forall i :: 0 <= i < |a| ==> a[i] in a;
    assert forall i :: 0 <= i < |b| ==> b[i] in b;
    assert forall i :: 0 <= i < |c| ==> c[i] in c;
    assert forall i :: 0 <= i < |d| ==> d[i] in d;
  }

  lemma {:induction false} OfSeverityJoin(a: seq<Match>, b: seq<Match>, v: Severity)
    ensures OfSeverity(a + b, v) == OfSeverity(a, v) + OfSeverity(b, v)
  {
    if b == [] {
      assert a + b == a;
    } else {
      OfSeverityJoin(a, b[..|b| - 1], v);
      assert (a + b)[..|a + b| - 1] == a + b[..|b| - 1];
    }
  }

  lemma OfSeverityOne(m: Match, v: Severity)
    ensures OfSeverity([m], v) == if m.proposal.severity == v then [m] else []
  {
    assert [m][..0] == [];
    assert OfSeverity([], v) == [];
  }

  lemma {:induction false} OfSeverityTwice(ms: seq<Match>, v: Severity, w: Severity)
    ensures OfSeverity(OfSeverity(ms, v), w) == if v == w then OfSeverity(ms, v) else []
  {
    if ms != [] {
      var n := |ms| - 1;
      OfSeverityTwice(ms[..n], v, w);
      if ms[n].proposal.severity == v {
        OfSeverityJoin(OfSeverity(ms[..n], v), [ms[n]], w);
        OfSeverityOne(ms[n], w);
      } else {
        assert OfSeverity(ms, v) == OfSeverity(ms[..n], v);
      }
    }
  }

  lemma BySeverityIsStable(ms: seq<Match>, v: Severity)
    ensures OfSeverity(BySeverity(ms), v) == OfSeverity(ms, v)
  {
    hide OfSeverity;
    var a, b, c, d := OfSeverity(ms, Critical), OfSeverity(ms, High), OfSeverity(ms, Interesting), OfSeverity(ms, Info);
    OfSeverityJoin(a + b + c, d, v);
    OfSeverityJoin(a + b, c, v);
    OfSeverityJoin(a, b, v);
    OfSeverityTwice(ms, Critical, v);
    OfSeverityTwice(ms, High, v);
    OfSeverityTwice(ms, Interesting, v);
    OfSeverityTwice(ms, Info, v);
  }

  // ----- The table -----

  function Rows(ms: seq<Match>): set<RowKey> { set m | m in ms :: RowOf(m) }

  lemma {:induction false} InsertSpec(table: Table, ms: seq<Match>)
    ensures
      var w := Insert(table, ms);
      && |w.created| == |ms|
      && (forall r :: r in table ==> r in w.table && w.table[r] == table[r])
      && w.table.Keys == table.Keys + Rows(ms)
  {
    if ms != [] {
      var n := |ms| - 1;
      InsertSpec(table, ms[..n]);
      assert ms == ms[..n] + [ms[n]];
      assert Rows(ms) == Rows(ms[..n]) + {RowOf(ms[n])};
    }
  }

  /** The announced rows of a batch are exactly the rows it created, each once. */
  lemma {:induction false} FactsSpec(table: Table, ms: seq<Match>)
    ensures |Insert(table, ms).created| == |ms|
    ensures
      var w := Insert(table, ms);
      var facts := Facts(ms, w.created);
      && (forall r :: r in facts <==> r in w.table && r !in table)
      && (forall i, j :: 0 <= i < j < |facts| ==> facts[i] != facts[j])
  {
    InsertLength(table, ms);
    if ms != [] {
      var n := |ms| - 1;
      FactsSpec(table, ms[..n]);
      InsertSpec(table, ms[..n]);
      var before, w := Insert(table, ms[..n]), Insert(table, ms);
      assert w.created[..n] == before.created;
      var earlier := Facts(ms[..n], before.created);
      assert Facts(ms, w.created) == earlier + if w.created[n] then [RowOf(ms[n])] else [];
      if w.created[n] {
        assert RowOf(ms[n]) !in before.table;
        assert RowOf(ms[n]) !in earlier;
      }
    }
  }

  // ----- Settling -----

  /** What settling does to memory: aircraft and scopes stay, and a key that is no longer
      pending has fired. */
  predicate Advances(a: AircraftState, b: AircraftState) {
    && a.sightingId == b.sightingId && a.fired.Keys <= b.fired.Keys
    && Keys(b.pending) <= Keys(a.pending) && Keys(a.pending) <= Keys(b.pending) + b.fired.Keys
  }

  predicate AllAdvance(states: States, after: States) {
    states.Keys == after.Keys && forall icao :: icao in states ==> Advances(states[icao], after[icao])
  }

  predicate Settled(states: States, m: Match) {
    m.icao in states ==> m.proposal.key in states[m.icao].fired && m.proposal.key !in Keys(states[m.icao].pending)
  }

  lemma SettleOneSpec(states: States, m: Match, table: Table)
    requires StatesOk(states, table) && RowOf(m) in table
    requires m.icao in states ==> states[m.icao].sightingId == Some(m.sightingId)
    ensures
      var t := SettleOne(states, m);
      && AllAdvance(states, t) && StatesOk(t, table) && Settled(t, m)
      && (m.icao in states ==> t[m.icao].fired[m.proposal.key] == m.proposal.severity)
  {
    if m.icao in states {
      var a := states[m.icao];
      PopSpec(a.pending, m.proposal.key);
      assert Keys(Pop(a.pending, m.proposal.key)) == Keys(a.pending) - {m.proposal.key};
      assert StateOk(a, table);
    }
  }

  lemma AdvancesChain(a: States, b: States, c: States)
    requires AllAdvance(a, b) && AllAdvance(b, c)
    ensures AllAdvance(a, c)
    ensures forall m :: Settled(b, m) ==> Settled(c, m)
  {
    hide Keys;
    forall icao | icao in a ensures Advances(a[icao], c[icao]) {
      assert Advances(a[icao], b[icao]) && Advances(b[icao], c[icao]);
    }
    forall m | Settled(b, m) ensures Settled(c, m) {
      assert m.icao in b ==> Advances(b[m.icao], c[m.icao]);
    }
  }

  lemma {:induction false} SettleSpec(states: States, ms: seq<Match>, table: Table)
    requires StatesOk(states, table)
    requires forall m :: m in ms ==>
      RowOf(m) in table && (m.icao in states ==> states[m.icao].sightingId == Some(m.sightingId))
    ensures
      var t := Settle(states, ms);
      && AllAdvance(states, t) && StatesOk(t, table)
      && (forall m :: m in ms ==> Settled(t, m))
  {
    hide SettleOne, StateOk, Settled;
    if ms != [] {
      var n := |ms| - 1;
      assert ms == ms[..n] + [ms[n]];
      SettleSpec(states, ms[..n], table);
      var before := Settle(states, ms[..n]);
      assert ms[n].icao in before ==> Advances(states[ms[n].icao], before[ms[n].icao]);
      SettleOneSpec(before, ms[n], table);
      AdvancesChain(states, before, SettleOne(before, ms[n]));
    }
  }

  // ----- One cycle -----

  /** Collecting forgets states and changes none. */
  lemma WantedOk(s: System, c: Step)
    requires StatesOk(s.states, s.table) && c.Cycle?
    ensures StatesOk(Wanted(s, c).states, s.table)
  {
    hide StateOk, Drain;
    if c.input.Drained? {
      DrainKeeps(s.states, c.input.events);
    }
  }

  /** What the write leg of a cycle starts from. */
  lemma BeforeTheWrite(s: System, c: Step)
    requires Invariant(s) && c.Cycle? && Enabled(s, c)
    ensures
      var e, batch := EvaluatedIn(s, c), BatchOf(s, c);
      && StatesOk(e.states, s.table)
      && (forall icao :: icao in c.order && icao in c.w.live ==>
            icao in e.states && e.states[icao] == AfterEvaluation(Wanted(s, c).states, s.adopted, c.w, icao)
            && e.states[icao].sightingId == SightingOf(c.w, icao))
      && (forall m :: m in batch <==>
            && m.icao in c.order && m.icao in c.w.live && m.proposal in e.states[m.icao].pending
            && Writable(c.w, m.icao) && SightingOf(c.w, m.icao) == Some(m.sightingId))
  {
    hide AfterEvaluation, StateOk, BySeverity, WritableMatches, Evaluate, AdoptedHasRow, AnnouncedOnce;
    var states := Wanted(s, c).states;
    WantedOk(s, c);
    hide Wanted;
    EvaluateSpec(states, s.adopted, c.w, c.order);
    var e := EvaluatedIn(s, c);
    WritableSpec(c.w, e.owed);
    BySeverityMembers(WritableMatches(c.w, e.owed));
    forall icao | icao in e.states ensures StateOk(e.states[icao], s.table) {
      if icao in c.order {
        EvaluatedOk(states, s.adopted, c.w, icao, s.table);
      }
    }
    forall icao | icao in c.order && icao in c.w.live ensures e.states[icao].sightingId == SightingOf(c.w, icao) {
      EvaluatedOk(states, s.adopted, c.w, icao, s.table);
    }
  }

  lemma LargerTableOk(states: States, adopted: map<int, map<Key, Severity>>, announced: seq<RowKey>, table: Table, larger: Table)
    requires table.Keys <= larger.Keys
    requires StatesOk(states, table) && AdoptedHasRow(adopted, table) && AnnouncedOnce(announced, table)
    ensures StatesOk(states, larger) && AdoptedHasRow(adopted, larger) && AnnouncedOnce(announced, larger)
  {
    forall icao | icao in states ensures StateOk(states[icao], larger) {
      assert StateOk(states[icao], table);
    }
  }

  lemma AdoptSpec(table: Table, open: set<int>)
    ensures AdoptedHasRow(Adopt(table, open), table) && Adopt(table, open).Keys <= open
    ensures forall r :: r in table && r.sightingId in open ==>
      && r.sightingId in Adopt(table, open) && r.key in Adopt(table, open)[r.sightingId]
      && Adopt(table, open)[r.sightingId][r.key] == table[r].severity
  {
    var adopted := Adopt(table, open);
    forall sid, k | sid in adopted && k in adopted[sid] ensures RowKey(k, sid) in table {
      var r :| r in table && r.sightingId == sid && r.key == k;
      assert r == RowKey(k, sid);
    }
  }

  /** The batch written by a cycle and the memory afterwards. */
  lemma Writing(s: System, c: Step)
    requires Invariant(s) && c.Cycle? && Enabled(s, c)
    ensures
      var e, batch, w := EvaluatedIn(s, c), BatchOf(s, c), Insert(s.table, BatchOf(s, c));
      && w.table.Keys == s.table.Keys + Rows(batch)
      && StatesOk(e.states, w.table) && AdoptedHasRow(s.adopted, w.table)
      && StatesOk(Settle(e.states, batch), w.table)
      && AllAdvance(e.states, Settle(e.states, batch))
      && (forall m :: m in batch ==> Settled(Settle(e.states, batch), m))
      && |w.created| == |batch|
      && AnnouncedOnce(s.announced, w.table)
      && AnnouncedOnce(s.announced + Facts(batch, w.created), w.table)
  {
    hide StateOk, EvaluatedIn, BatchOf, Insert, Settle, Facts, Enabled, AdoptedHasRow;
    var e, batch := EvaluatedIn(s, c), BatchOf(s, c);
    BeforeTheWrite(s, c);
    InsertSpec(s.table, batch);
    FactsSpec(s.table, batch);
    var w := Insert(s.table, batch);
    BatchRows(batch, w.table, s.table.Keys);
    LargerTableOk(e.states, s.adopted, s.announced, s.table, w.table);
    SettleSpec(e.states, batch, w.table);
    var facts := Facts(batch, w.created);
    forall i, j | 0 <= i < |s.announced| && 0 <= j < |facts| ensures s.announced[i] != facts[j] {
      assert facts[j] in facts;
    }
    forall j | 0 <= j < |facts| ensures facts[j] in w.table {
      assert facts[j] in facts;
    }
  }

  lemma StepKeeps(s: System, c: Step, t: System)
    requires Invariant(s) && Enabled(s, c) && t == Next(s, c)
    ensures Invariant(t)
    ensures s.table.Keys <= t.table.Keys && s.announced <= t.announced
  {
    if c.Restart? {
      AdoptSpec(s.table, c.open);
    } else {
      Writing(s, c);
      BeforeTheWrite(s, c);
      NextIsWrite(s, c);
      hide *;
      WriteKeeps(s, EvaluatedIn(s, c).states, BatchOf(s, c), c.outcome);
    }
  }

  lemma WriteKeeps(s: System, states: States, batch: seq<Match>, outcome: Outcome)
    requires Invariant(s) && StatesOk(states, s.table)
    requires
      var w := Insert(s.table, batch);
      && w.table.Keys == s.table.Keys + Rows(batch) && |w.created| == |batch|
      && StatesOk(states, w.table) && AdoptedHasRow(s.adopted, w.table) && StatesOk(Settle(states, batch), w.table)
      && AnnouncedOnce(s.announced, w.table) && AnnouncedOnce(s.announced + Facts(batch, w.created), w.table)
    ensures
      var t := Write(s, states, batch, outcome);
      Invariant(t) && s.table.Keys <= t.table.Keys && s.announced <= t.announced
  {
    hide Insert, Settle, Facts, StatesOk, AdoptedHasRow, AnnouncedOnce;
  }

  lemma NextIsWrite(s: System, c: Step)
    requires c.Cycle?
    ensures Next(s, c) == Write(s, EvaluatedIn(s, c).states, BatchOf(s, c), c.outcome)
  {
  }

  // ----- Whole runs -----

  lemma {:induction false} RunKeeps(s: System, cs: seq<Step>)
    requires Invariant(s) && Feasible(s, cs)
    ensures Invariant(Run(s, cs))
    ensures s.table.Keys <= Run(s, cs).table.Keys && s.announced <= Run(s, cs).announced
  {
    hide Invariant, Enabled, Next;
    if cs != [] {
      var n := |cs| - 1;
      assert forall i :: 0 <= i < n ==> cs[..n][..i] == cs[..i] && cs[..n][i] == cs[i];
      RunKeeps(s, cs[..n]);
      StepKeeps(Run(s, cs[..n]), cs[n], Run(s, cs));
    }
  }

  /** Over any run of cycles with failed writes, overflows, removals, changes of sighting and
      restarts: what is remembered as fired has a row for the sighting it is remembered
      under, and no (rule, sighting) is announced twice. */
  lemma OncePerSighting(cs: seq<Step>)
    requires Feasible(FRESH_SYSTEM, cs)
    ensures
      var s := Run(FRESH_SYSTEM, cs);
      && (forall icao, k :: icao in s.states && k in s.states[icao].fired ==>
            s.states[icao].sightingId.Some? && RowKey(k, s.states[icao].sightingId.value) in s.table)
      && (forall i, j :: 0 <= i < j < |s.announced| ==> s.announced[i] != s.announced[j])
      && (forall i :: 0 <= i < |s.announced| ==> s.announced[i] in s.table)
  {
    RunKeeps(FRESH_SYSTEM, cs);
    var s := Run(FRESH_SYSTEM, cs);
    forall icao, k | icao in s.states && k in s.states[icao].fired
      ensures s.states[icao].sightingId.Some? && RowKey(k, s.states[icao].sightingId.value) in s.table
    {
      assert StateOk(s.states[icao], s.table);
    }
  }

  lemma BatchRows(batch: seq<Match>, table: Table, rest: set<RowKey>)
    requires table.Keys == rest + Rows(batch)
    ensures forall m :: m in batch ==> RowOf(m) in table
  {
  }

  /** Every pending key of a writable aircraft is in the batch. */
  lemma BatchCovers(c: Step, e: Evaluated, batch: seq<Match>, icao: Icao)
    requires c.Cycle? && icao in c.order && icao in c.w.live && icao in e.states && Writable(c.w, icao)
    requires forall m :: m in batch <==>
      && m.icao in c.order && m.icao in c.w.live && m.icao in e.states && m.proposal in e.states[m.icao].pending
      && Writable(c.w, m.icao) && SightingOf(c.w, m.icao) == Some(m.sightingId)
    ensures forall k :: k in Keys(e.states[icao].pending) ==> exists m :: m in batch && m.icao == icao && m.proposal.key == k
  {
    forall k | k in Keys(e.states[icao].pending) ensures exists m :: m in batch && m.icao == icao && m.proposal.key == k {
      var q :| q in e.states[icao].pending && q.key == k;
      var m := Match(icao, q, SightingOf(c.w, icao).value);
      assert m in batch;
    }
  }

  /** What is pending for a live aircraft once it has been evaluated: what was carried over,
      and what matches now and has not fired. */
  function PendingKeys(s: System, c: Step, icao: Icao): set<Key>
    requires c.Cycle?
  {
    var before := Wanted(s, c).states;
    (if icao in before then Keys(before[icao].pending) else {})
    + (Keys(c.w.matches(icao)) - StateFor(before, s.adopted, c.w, icao).fired.Keys)
  }

  lemma EvaluatedPending(s: System, c: Step, icao: Icao)
    requires Invariant(s) && c.Cycle? && Enabled(s, c) && icao in c.order && icao in c.w.live
    ensures icao in EvaluatedIn(s, c).states
    ensures Keys(EvaluatedIn(s, c).states[icao].pending) == PendingKeys(s, c, icao)
    ensures EvaluatedIn(s, c).states[icao].fired == StateFor(Wanted(s, c).states, s.adopted, c.w, icao).fired
    ensures StateOk(EvaluatedIn(s, c).states[icao], s.table)
    ensures EvaluatedIn(s, c).states[icao].sightingId == SightingOf(c.w, icao)
  {
    BeforeTheWrite(s, c);
    hide EvaluatedIn, BatchOf, Enabled, Wanted, Invariant, Propose, Keys;
    NoKeys([]);
    ProposeSpec(StateFor(Wanted(s, c).states, s.adopted, c.w, icao), c.w.matches(icao));
  }

  /** What a cycle leaves: memory advanced from the evaluation, and, when the write
      committed, every attempted row present and every attempted key settled. */
  lemma AfterTheWrite(s: System, c: Step, t: System)
    requires Invariant(s) && c.Cycle? && Enabled(s, c) && t == Next(s, c)
    ensures AllAdvance(EvaluatedIn(s, c).states, t.states)
    ensures t.table.Keys == s.table.Keys + if c.outcome.RolledBack? then {} else Rows(BatchOf(s, c))
    ensures c.outcome.Committed? ==> forall m :: m in BatchOf(s, c) ==> Settled(t.states, m)
  {
    Writing(s, c);
    hide *;
    WriteSpec(s, EvaluatedIn(s, c).states, BatchOf(s, c), c.outcome);
    NextIsWrite(s, c);
  }

  lemma WriteSpec(s: System, states: States, batch: seq<Match>, outcome: Outcome)
    requires Insert(s.table, batch).table.Keys == s.table.Keys + Rows(batch)
    requires AllAdvance(states, Settle(states, batch))
    requires forall m :: m in batch ==> Settled(Settle(states, batch), m)
    ensures
      var t := Write(s, states, batch, outcome);
      && AllAdvance(states, t.states)
      && t.table.Keys == s.table.Keys + (if outcome.RolledBack? then {} else Rows(batch))
      && (outcome.Committed? ==> forall m :: m in batch ==> Settled(t.states, m))
  {
    hide Insert, Settle, Facts, Settled, Keys;
    SameMemoryAdvances(states);
    assert batch == [] ==> Rows(batch) == {};
  }

  lemma SameMemoryAdvances(states: States)
    ensures AllAdvance(states, states)
  {
  }

  /** After a cycle whose write commits, everything that matched is recorded for the sighting
      it matched in, or waits only because the sighting's ids are not known yet. */
  lemma CommittedCycleRecords(s: System, c: Step, icao: Icao, p: Proposal)
    requires Invariant(s) && c.Cycle? && Enabled(s, c) && c.outcome.Committed?
    requires icao in c.order && icao in c.w.live && p in c.w.matches(icao)
    ensures
      var t := Next(s, c);
      && icao in t.states
      && if Writable(c.w, icao) then
           && RowKey(p.key, SightingOf(c.w, icao).value) in t.table
           && p.key in t.states[icao].fired && p.key !in Keys(t.states[icao].pending)
         else
           p.key in t.states[icao].fired || p.key in Keys(t.states[icao].pending)
  {
    var t := Next(s, c);
    InKeys(c.w.matches(icao), p);
    EvaluatedPending(s, c, icao);
    BeforeTheWrite(s, c);
    AfterTheWrite(s, c, t);
    hide EvaluatedIn, BatchOf, Enabled, Wanted, Invariant, Keys, StateFor, Next, StatesOk;
    var e, batch := EvaluatedIn(s, c), BatchOf(s, c);
    assert Advances(e.states[icao], t.states[icao]);
    if p.key in Keys(e.states[icao].pending) && Writable(c.w, icao) {
      BatchCovers(c, e, batch, icao);
      var m :| m in batch && m.icao == icao && m.proposal.key == p.key;
      assert Settled(t.states, m);
      assert RowOf(m) in Rows(batch);
    }
  }

  /** What a cycle takes notice of: after an overflow everything; otherwise an aircraft that
      changed and was not removed afterwards. */
  predicate Notices(c: Step, icao: Icao) {
    c.Cycle? && icao in c.w.live && match c.input case Overflowed => true case Drained(events) => ChangedAndStays(events, icao)
  }

  lemma NoticedIsEvaluated(s: System, c: Step, icao: Icao)
    requires Enabled(s, c) && Notices(c, icao)
    ensures icao in c.order
  {
    if c.input.Drained? {
      CollectWants(s.states, c.input.events, icao);
    }
    hide Drain, ChangedAndStays;
    assert icao in Wanted(s, c).wanted;
  }

  /** So after a cycle whose write commits, whatever matches a live aircraft that changed is
      recorded for its sighting, or waits for the sighting's ids. */
  lemma NoticedIsRecorded(s: System, c: Step, icao: Icao, p: Proposal)
    requires Invariant(s) && Enabled(s, c) && Notices(c, icao) && c.outcome.Committed? && p in c.w.matches(icao)
    ensures
      var t := Next(s, c);
      && icao in t.states
      && if Writable(c.w, icao) then
           && RowKey(p.key, SightingOf(c.w, icao).value) in t.table
           && p.key in t.states[icao].fired && p.key !in Keys(t.states[icao].pending)
         else
           p.key in t.states[icao].fired || p.key in Keys(t.states[icao].pending)
  {
    NoticedIsEvaluated(s, c, icao);
    CommittedCycleRecords(s, c, icao, p);
  }

  /** A pending match leaves memory only by being recorded or with its aircraft: whatever
      happens to the write, if no removal is drained and the aircraft is live, the key is
      afterwards still pending or fired. */
  lemma NothingOwedIsDropped(s: System, c: Step, icao: Icao, k: Key)
    requires Invariant(s) && c.Cycle? && Enabled(s, c)
    requires icao in s.states && k in Keys(s.states[icao].pending) && icao in c.w.live
    requires c.input.Drained? ==> Removed(icao) !in c.input.events
    ensures
      var t := Next(s, c);
      icao in t.states && (k in Keys(t.states[icao].pending) || k in t.states[icao].fired)
  {
    if c.input.Drained? {
      DrainKeeps(s.states, c.input.events);
    }
    assert icao in Wanted(s, c).states && Wanted(s, c).states[icao] == s.states[icao];
    assert icao in Wanted(s, c).wanted;
    assert icao in c.order;
    hide EvaluatedIn, BatchOf, Enabled, Wanted, Invariant, Keys, StateFor, Next, Drain;
    EvaluatedPending(s, c, icao);
    AfterTheWrite(s, c, Next(s, c));
    assert Advances(EvaluatedIn(s, c).states[icao], Next(s, c).states[icao]);
  }

  /** Exactly the rows a cycle stores when its write commits, reply or no reply: the
      unrecorded keys pending for a live aircraft whose ids are known, under its present
      sighting. */
  lemma CreatedRows(s: System, c: Step, r: RowKey)
    requires Invariant(s) && c.Cycle? && Enabled(s, c) && !c.outcome.RolledBack?
    ensures
      r in Next(s, c).table <==>
      r in s.table || exists icao ::
        && icao in c.order && icao in c.w.live
        && c.w.sighting(icao).Some? && c.w.sighting(icao).value.sightingId == Some(r.sightingId) && c.w.sighting(icao).value.aircraftId.Some?
        && r.key in PendingKeys(s, c, icao)
  {
    AfterTheWrite(s, c, Next(s, c));
    BeforeTheWrite(s, c);
    hide EvaluatedIn, BatchOf, Enabled, Wanted, Invariant, Keys, StateFor, Next, PendingKeys, StatesOk;
    var e, batch := EvaluatedIn(s, c), BatchOf(s, c);
    if r in Rows(batch) {
      var m :| m in batch && RowOf(m) == r;
      InKeys(e.states[m.icao].pending, m.proposal);
      EvaluatedPending(s, c, m.icao);
    }
    if icao :| icao in c.order && icao in c.w.live && Writable(c.w, icao)
               && SightingOf(c.w, icao) == Some(r.sightingId) && r.key in PendingKeys(s, c, icao) {
      EvaluatedPending(s, c, icao);
      BatchCovers(c, e, batch, icao);
      var m :| m in batch && m.icao == icao && m.proposal.key == r.key;
      assert RowOf(m) == r;
    }
  }

  lemma InKeys(ps: seq<Proposal>, p: Proposal)
    requires p in ps
    ensures p.key in Keys(ps)
  {
  }

  /** A write that fails, or whose reply is lost, leaves memory as the evaluation left it: whatever
      was pending is tried again. */
  lemma FailedWriteKeepsPending(s: System, c: Step, icao: Icao)
    requires Invariant(s) && c.Cycle? && Enabled(s, c) && !c.outcome.Committed? && icao in c.order && icao in c.w.live
    ensures
      var t := Next(s, c);
      && icao in t.states && Keys(t.states[icao].pending) == PendingKeys(s, c, icao)
      && t.states[icao].fired == StateFor(Wanted(s, c).states, s.adopted, c.w, icao).fired
      && t.announced == s.announced
  {
    EvaluatedPending(s, c, icao);
    NextIsWrite(s, c);
    hide EvaluatedIn, BatchOf, Enabled, Wanted, Invariant, Keys, StateFor, Next, StateOk, PendingKeys, Insert, Settle, Facts;
  }

  /** A restart proposes nothing again: what is recorded for a sighting that is still open counts
      as fired as soon as the aircraft is evaluated in it. */
  lemma RestartReproposesNothing(s: System, open: set<int>, c: Step, icao: Icao, sid: int, k: Key)
    requires Invariant(s) && c.Cycle? && Enabled(Next(s, Restart(open)), c) && icao in c.order && icao in c.w.live
    requires SightingOf(c.w, icao) == Some(sid) && sid in open && RowKey(k, sid) in s.table
    ensures
      var t := Next(s, Restart(open));
      && k !in PendingKeys(t, c, icao)
      && icao in EvaluatedIn(t, c).states && k in EvaluatedIn(t, c).states[icao].fired
  {
    var t := Next(s, Restart(open));
    AdoptSpec(s.table, open);
    StepKeeps(s, Restart(open), t);
    NothingRemembered(t, c, icao, sid);
    EvaluatedPending(t, c, icao);
    hide EvaluatedIn, Enabled, Wanted, Invariant, Keys, StateFor, Next, StateOk, PendingKeys;
    assert k in StateFor(Wanted(t, c).states, t.adopted, c.w, icao).fired;
    FiredIsNotPending(t, c, icao, k);
  }

  lemma NothingRemembered(t: System, c: Step, icao: Icao, sid: int)
    requires t.states == map[] && c.Cycle? && SightingOf(c.w, icao) == Some(sid)
    ensures icao !in Wanted(t, c).states
    ensures StateFor(Wanted(t, c).states, t.adopted, c.w, icao).fired == if sid in t.adopted then t.adopted[sid] else map[]
  {
    if c.input.Drained? {
      DrainKeeps(t.states, c.input.events);
    }
  }

  lemma FiredIsNotPending(s: System, c: Step, icao: Icao, k: Key)
    requires c.Cycle? && icao !in Wanted(s, c).states && k in StateFor(Wanted(s, c).states, s.adopted, c.w, icao).fired
    ensures k !in PendingKeys(s, c, icao)
  {
    hide Wanted, StateFor, Keys;
  }

  lemma {:induction false} SettleKeepsAwaiting(states: States, ms: seq<Match>)
    ensures
      var t := Settle(states, ms);
      t.Keys == states.Keys && forall icao :: icao in states ==> t[icao].awaitingMetadata == states[icao].awaitingMetadata
  {
    if ms != [] {
      SettleKeepsAwaiting(states, ms[..|ms| - 1]);
    }
  }

  lemma WriteKeepsAwaiting(s: System, states: States, batch: seq<Match>, outcome: Outcome)
    ensures
      var t := Write(s, states, batch, outcome).states;
      t.Keys == states.Keys && forall icao :: icao in states ==> t[icao].awaitingMetadata == states[icao].awaitingMetadata
  {
    hide Insert, Settle, Facts;
    SettleKeepsAwaiting(states, batch);
  }

  /** An aircraft evaluated before its metadata had resolved is evaluated again in the next cycle,
      changed or not, unless it is removed; one whose metadata has resolved is not kept waiting
      for that. */
  lemma UnresolvedIsLookedAtAgain(s: System, c: Step, t: System, d: Step, icao: Icao)
    requires Invariant(s) && c.Cycle? && Enabled(s, c) && t == Next(s, c) && icao in c.order && icao in c.w.live
    requires d.Cycle? && d.input.Drained? && Removed(icao) !in d.input.events
    ensures icao in t.states && (t.states[icao].awaitingMetadata <==> !c.w.resolved(icao))
    ensures !c.w.resolved(icao) ==> icao in Wanted(t, d).wanted
  {
    hide Invariant, Enabled, AllAdvance, Drain, ChangedAndStays, BatchOf;
    BeforeTheWrite(s, c);
    NextIsWrite(s, c);
    WriteKeepsAwaiting(s, EvaluatedIn(s, c).states, BatchOf(s, c), c.outcome);
    AwaitingAfterEvaluation(Wanted(s, c).states, s.adopted, c.w, icao);
    hide Next, EvaluatedIn;
    CollectWants(t.states, d.input.events, icao);
  }

  lemma AwaitingAfterEvaluation(states: States, adopted: map<int, map<Key, Severity>>, w: World, icao: Icao)
    ensures AfterEvaluation(states, adopted, w, icao).awaitingMetadata <==> !w.resolved(icao)
  {
    ProposeSpec(StateFor(states, adopted, w, icao), w.matches(icao));
  }

  /** What memory a cycle leaves: of an aircraft evaluated, if and only if it is live; of any
      other, what the cycle began with. After an overflow that is the live set. */
  lemma RemembersExactly(s: System, c: Step, t: System, icao: Icao)
    requires Invariant(s) && c.Cycle? && Enabled(s, c) && t == Next(s, c)
    ensures
      match c.input
      case Overflowed => icao in t.states <==> icao in c.w.live
      case Drained(events) =>
        icao in t.states <==>
        if icao in c.order then icao in c.w.live else icao in s.states && Removed(icao) !in events
    ensures c.input.Drained? && Removed(icao) in c.input.events && !ChangedAndStays(c.input.events, icao) ==> icao !in t.states
  {
    NextIsWrite(s, c);
    WriteKeepsAwaiting(s, EvaluatedIn(s, c).states, BatchOf(s, c), c.outcome);
    EvaluateSpec(Wanted(s, c).states, s.adopted, c.w, c.order);
    if c.input.Drained? {
      CollectWants(s.states, c.input.events, icao);
    }
    hide Invariant, Drain, ChangedAndStays, Evaluate, BatchOf, Next;
    assert icao in c.order <==> icao in Wanted(s, c).wanted;
  }

  lemma InsertOne(table: Table, ms: seq<Match>, m: Match)
    ensures
      var before := Insert(table, ms).table;
      Insert(table, ms + [m]).table == if RowOf(m) in before then before else before[RowOf(m) := m.proposal]
  {
    assert (ms + [m])[..|ms|] == ms;
  }

  lemma {:induction false} InsertStores(table: Table, ms: seq<Match>, r: RowKey) returns (m: Match)
    requires r in Insert(table, ms).table && r !in table
    ensures m in ms && RowOf(m) == r && m.proposal == Insert(table, ms).table[r]
  {
    if ms == [] {
      assert false;
    } else {
      var n := |ms| - 1;
      assert ms == ms[..n] + [ms[n]];
      InsertOne(table, ms[..n], ms[n]);
      hide Insert;
      m := ms[n];
      if r in Insert(table, ms[..n]).table {
        m := InsertStores(table, ms[..n], r);
      }
    }
  }

  /** A row is stored with the severity and reason of a match that was pending for a live
      aircraft in that sighting. */
  lemma RowsCarryTheirMatch(s: System, c: Step, r: RowKey)
    requires Invariant(s) && c.Cycle? && Enabled(s, c) && r in Next(s, c).table && r !in s.table
    ensures
      exists icao ::
        && icao in c.order && icao in c.w.live && SightingOf(c.w, icao) == Some(r.sightingId)
        && Next(s, c).table[r].key == r.key
        && (|| Next(s, c).table[r] in c.w.matches(icao)
            || (icao in Wanted(s, c).states && Next(s, c).table[r] in Wanted(s, c).states[icao].pending))
  {
    var batch := BatchOf(s, c);
    NextIsWrite(s, c);
    BeforeTheWrite(s, c);
    WrittenByInsert(s, EvaluatedIn(s, c).states, batch, c.outcome, r);
    var m := InsertStores(s.table, batch, r);
    hide Invariant, Enabled, Insert, BatchOf, Next, EvaluatedIn, StatesOk;
    PendingFrom(Wanted(s, c).states, s.adopted, c.w, m.icao, m.proposal);
  }

  lemma WrittenByInsert(s: System, states: States, batch: seq<Match>, outcome: Outcome, r: RowKey)
    requires r in Write(s, states, batch, outcome).table && r !in s.table
    ensures r in Insert(s.table, batch).table && Write(s, states, batch, outcome).table[r] == Insert(s.table, batch).table[r]
  {
    hide Insert, Settle, Facts;
  }

  lemma {:induction false} ProposeAdds(a: AircraftState, ps: seq<Proposal>, p: Proposal)
    requires p in Propose(a, ps).pending
    ensures p in a.pending || p in ps
  {
    hide Keys;
    if ps != [] {
      var n := |ps| - 1;
      assert ps == ps[..n] + [ps[n]];
      if p in Propose(a, ps[..n]).pending {
        ProposeAdds(a, ps[..n], p);
      }
    }
  }

  lemma PendingFrom(states: States, adopted: map<int, map<Key, Severity>>, w: World, icao: Icao, p: Proposal)
    requires p in AfterEvaluation(states, adopted, w, icao).pending
    ensures p in w.matches(icao) || (icao in states && p in states[icao].pending)
  {
    ProposeAdds(StateFor(states, adopted, w, icao), w.matches(icao), p);
  }

  function InsideTheArea(): Proposal { Proposal(Rule(1), High, "inside the area") }

  lemma OneAircraft(states: States, adopted: map<int, map<Key, Severity>>, w: World, icao: Icao)
    requires icao in w.live
    ensures
      var a := Propose(StateFor(states, adopted, w, icao), w.matches(icao));
      Evaluate(states, adopted, w, [icao]) == Evaluated(states[icao := a], Paired(icao, a.pending))
  {
    assert [icao][..0] == [];
    assert Evaluate(states, adopted, w, []) == Evaluated(states, []);
  }

  lemma OneOwed(w: World, icao: Icao, p: Proposal)
    ensures
      WritableMatches(w, [(icao, p)])
      == if Writable(w, icao) then [Match(icao, p, w.sighting(icao).value.sightingId.value)] else []
  {
    assert [(icao, p)][..0] == [];
  }

  lemma OneInBatch(m: Match)
    ensures BySeverity([m]) == [m]
  {
    forall v: Severity ensures OfSeverity([m], v) == if m.proposal.severity == v then [m] else [] {
      OfSeverityOne(m, v);
    }
  }

  // ----- Which rows are announced -----

  function Told(s: System): set<RowKey> { set r | r in s.announced }

  /** Stored rows no listener was ever told about. */
  function Unannounced(s: System): set<RowKey> { s.table.Keys - Told(s) }

  /** The rows a cycle creates by a commit whose reply is lost. */
  function LostRows(s: System, c: Step): set<RowKey> {
    if c.Cycle? && c.outcome.ReplyLost? then Rows(BatchOf(s, c)) - s.table.Keys else {}
  }

  function AllLost(s: System, cs: seq<Step>): set<RowKey> {
    if cs == [] then {}
    else AllLost(s, cs[..|cs| - 1]) + LostRows(Run(s, cs[..|cs| - 1]), cs[|cs| - 1])
  }

  lemma ToldAfterWrite(table: Table, announced: seq<RowKey>, batch: seq<Match>)
    ensures |Insert(table, batch).created| == |batch|
    ensures (set r | r in announced + Facts(batch, Insert(table, batch).created))
         == (set r | r in announced) + (Rows(batch) - table.Keys)
    ensures Insert(table, batch).table.Keys == table.Keys + Rows(batch)
  {
    FactsSpec(table, batch);
    InsertSpec(table, batch);
    hide Insert, Facts, Rows;
  }

  lemma UnannouncedStep(s: System, c: Step, t: System)
    requires Invariant(s) && Enabled(s, c) && t == Next(s, c)
    ensures Unannounced(t) == Unannounced(s) + LostRows(s, c)
  {
    assert Told(s) <= s.table.Keys;
    if c.Cycle? {
      ToldAfterWrite(s.table, s.announced, BatchOf(s, c));
    }
    hide EvaluatedIn, BatchOf, Insert, Settle, Facts, Enabled, StatesOk, AdoptedHasRow;
  }

  /** The stored rows that no listener was told about are exactly those created by commits
      whose reply was lost: the engine cannot tell such a commit from a failure, retries, finds
      the row taken and has nothing to announce. */
  lemma {:induction false} UnannouncedExactly(s: System, cs: seq<Step>)
    requires Invariant(s) && Feasible(s, cs)
    ensures Unannounced(Run(s, cs)) == Unannounced(s) + AllLost(s, cs)
  {
    hide Invariant, Enabled, Next, Unannounced, LostRows;
    if cs != [] {
      var n := |cs| - 1;
      assert forall i :: 0 <= i < n ==> cs[..n][..i] == cs[..i] && cs[..n][i] == cs[i];
      UnannouncedExactly(s, cs[..n]);
      RunKeeps(s, cs[..n]);
      UnannouncedStep(Run(s, cs[..n]), cs[n], Run(s, cs));
    }
  }

  lemma {:induction false} NoReplyLostNothingLost(s: System, cs: seq<Step>)
    requires forall i :: 0 <= i < |cs| && cs[i].Cycle? ==> !cs[i].outcome.ReplyLost?
    ensures AllLost(s, cs) == {}
  {
    if cs != [] {
      NoReplyLostNothingLost(s, cs[..|cs| - 1]);
    }
  }

  /** From a fresh database, the rows announced are the rows stored if and only if no commit
      whose reply was lost created a row; in particular when no reply is lost. */
  lemma EveryRowIsAnnounced(cs: seq<Step>)
    requires Feasible(FRESH_SYSTEM, cs)
    ensures var s := Run(FRESH_SYSTEM, cs); (forall r :: r in s.table <==> r in s.announced) <==> AllLost(FRESH_SYSTEM, cs) == {}
    ensures (forall i :: 0 <= i < |cs| && cs[i].Cycle? ==> !cs[i].outcome.ReplyLost?) ==> AllLost(FRESH_SYSTEM, cs) == {}
  {
    hide Run, Feasible, Enabled;
    assert Invariant(FRESH_SYSTEM) && Unannounced(FRESH_SYSTEM) == {};
    RunKeeps(FRESH_SYSTEM, cs);
    UnannouncedExactly(FRESH_SYSTEM, cs);
    if forall i :: 0 <= i < |cs| && cs[i].Cycle? ==> !cs[i].outcome.ReplyLost? {
      NoReplyLostNothingLost(FRESH_SYSTEM, cs);
    }
    hide AllLost;
    ToldOrNot(Run(FRESH_SYSTEM, cs));
  }

  /** The facts of a batch come in its order: each later one from a later match. */
  lemma {:induction false} FactsInOrder(ms: seq<Match>, created: seq<bool>, i: nat, j: nat) returns (a: nat, b: nat)
    requires |created| == |ms| && i < j < |Facts(ms, created)|
    ensures a < b < |ms| && Facts(ms, created)[i] == RowOf(ms[a]) && Facts(ms, created)[j] == RowOf(ms[b])
  {
    var n := |ms| - 1;
    var before := Facts(ms[..n], created[..n]);
    if j < |before| {
      a, b := FactsInOrder(ms[..n], created[..n], i, j);
    } else {
      a := FactAt(ms[..n], created[..n], i);
      b := n;
    }
  }

  lemma {:induction false} FactAt(ms: seq<Match>, created: seq<bool>, i: nat) returns (a: nat)
    requires |created| == |ms| && i < |Facts(ms, created)|
    ensures a < |ms| && Facts(ms, created)[i] == RowOf(ms[a])
  {
    var n := |ms| - 1;
    var before := Facts(ms[..n], created[..n]);
    a := n;
    if i < |before| {
      a := FactAt(ms[..n], created[..n], i);
    }
  }

  /** A cycle announces what it created highest severity first, whatever was announced before. */
  lemma AnnouncedBySeverity(s: System, c: Step, i: nat, j: nat) returns (m: Match, n: Match)
    requires c.Cycle? && |s.announced| <= i < j < |Next(s, c).announced|
    ensures m in BatchOf(s, c) && n in BatchOf(s, c) && Next(s, c).announced[i] == RowOf(m) && Next(s, c).announced[j] == RowOf(n)
    ensures Rank(m.proposal.severity) >= Rank(n.proposal.severity)
  {
    hide EvaluatedIn, BatchOf, Insert, Settle, Next, Facts;
    var batch := BatchOf(s, c);
    var created := Insert(s.table, batch).created;
    InsertLength(s.table, batch);
    NextIsWrite(s, c);
    BatchDescends(s, c);
    var a, b := FactsInOrder(batch, created, i - |s.announced|, j - |s.announced|);
    m, n := batch[a], batch[b];
  }

  lemma BatchDescends(s: System, c: Step)
    requires c.Cycle?
    ensures forall i, j :: 0 <= i < j < |BatchOf(s, c)| ==>
              Rank(BatchOf(s, c)[i].proposal.severity) >= Rank(BatchOf(s, c)[j].proposal.severity)
  {
    hide BySeverity;
    BySeverityDescends(WritableMatches(c.w, EvaluatedIn(s, c).owed));
  }

  lemma ToldOrNot(s: System)
    requires Invariant(s)
    ensures Told(s) <= s.table.Keys
    ensures (forall r :: r in s.table <==> r in s.announced) <==> Unannounced(s) == {}
  {
    hide StatesOk, AdoptedHasRow;
    if Unannounced(s) == {} {
      forall r | r in s.table ensures r in s.announced {
        assert r !in Unannounced(s);
      }
    }
  }

  lemma SilentStep(s: System, c: Step, t: System, r: RowKey)
    requires Enabled(s, c) && t == Next(s, c)
    requires r in s.table && r !in s.announced
    ensures r in t.table && r !in t.announced
  {
    if c.Cycle? {
      var batch := BatchOf(s, c);
      hide EvaluatedIn, BatchOf, Insert, Settle, Facts, Enabled;
      FactsSpec(s.table, batch);
      InsertSpec(s.table, batch);
    }
  }

  /** A row whose creation was not announced is never announced, by any later run. */
  lemma {:induction false} LostReplyStaysSilent(s: System, cs: seq<Step>, r: RowKey)
    requires Feasible(s, cs) && r in s.table && r !in s.announced
    ensures r in Run(s, cs).table && r !in Run(s, cs).announced
  {
    hide Enabled, Next;
    if cs != [] {
      var n := |cs| - 1;
      assert forall i :: 0 <= i < n ==> cs[..n][..i] == cs[..i] && cs[..n][i] == cs[i];
      LostReplyStaysSilent(s, cs[..n], r);
      SilentStep(Run(s, cs[..n]), cs[n], Run(s, cs), r);
    }
  }

  /** The aircraft matches, and its sighting has ids. */
  function WithIds(): World { World({"a"}, i => Some(Ids(Some(7), Some(1))), i => true, i => [InsideTheArea()], i => 7) }

  lemma MetWithIds(c: Step)
    requires c == Cycle(WithIds(), Drained([Changed("a")]), ["a"], ReplyLost)
    ensures Wanted(FRESH_SYSTEM, c) == Collected(map[], {"a"})
  {
    hide WithIds;
    assert [Changed("a")][..0] == [];
  }

  lemma OwedWithIds(c: Step)
    requires c == Cycle(WithIds(), Drained([Changed("a")]), ["a"], ReplyLost)
    ensures EvaluatedIn(FRESH_SYSTEM, c).owed == [("a", InsideTheArea())]
  {
    var p, w := InsideTheArea(), WithIds();
    MetWithIds(c);
    hide Wanted;
    OneAircraft(map[], map[], w, "a");
    hide Evaluate;
    assert [p][..0] == [];
    assert Propose(AircraftState(Some(7), map[], [], false), [p]).pending == [p];
    assert Paired("a", [p]) == [("a", p)];
  }

  lemma FirstBatch(c: Step)
    requires c == Cycle(WithIds(), Drained([Changed("a")]), ["a"], ReplyLost)
    ensures Enabled(FRESH_SYSTEM, c) && BatchOf(FRESH_SYSTEM, c) == [Match("a", InsideTheArea(), 7)]
  {
    MetWithIds(c);
    OwedWithIds(c);
    OneOwed(WithIds(), "a", InsideTheArea());
    OneInBatch(Match("a", InsideTheArea(), 7));
    hide WritableMatches, BySeverity, OfSeverity, Wanted, EvaluatedIn;
  }

  /** And the code does reach such a row: one cycle, one match, one lost reply. */
  lemma LostReplyReaches()
    ensures
      var cs := [Cycle(WithIds(), Drained([Changed("a")]), ["a"], ReplyLost)];
      && Feasible(FRESH_SYSTEM, cs)
      && Unannounced(Run(FRESH_SYSTEM, cs)) == {RowKey(Rule(1), 7)}
  {
    var c := Cycle(WithIds(), Drained([Changed("a")]), ["a"], ReplyLost);
    var cs := [c];
    hide Next, BatchOf, Enabled, WithIds;
    FirstBatch(c);
    assert cs[..0] == [] && Run(FRESH_SYSTEM, []) == FRESH_SYSTEM;
    UnannouncedExactly(FRESH_SYSTEM, cs);
    assert AllLost(FRESH_SYSTEM, []) == {} && Unannounced(FRESH_SYSTEM) == {};
    hide Run;
    assert AllLost(FRESH_SYSTEM, cs) == LostRows(FRESH_SYSTEM, c);
    OneRow(Match("a", InsideTheArea(), 7));
  }

  lemma OneRow(m: Match)
    ensures Rows([m]) == {RowOf(m)}
  {
  }

  lemma WriteReplacesMemory(s: System, states: States, batch: seq<Match>, outcome: Outcome)
    ensures Write(s.(states := states), states, batch, outcome) == Write(s, states, batch, outcome)
  {
  }

  lemma CycleParts(s: System, c: Step)
    requires c.Cycle?
    ensures Wanted(s, c) == if c.input.Drained? then Collect(s.states, c.input.events) else Resync(s.states, c.w.live)
    ensures EvaluatedIn(s, c) == Evaluate(Wanted(s, c).states, s.adopted, c.w, c.order)
    ensures BatchOf(s, c) == BySeverity(WritableMatches(c.w, EvaluatedIn(s, c).owed))
  {
  }
}

/** The engine as the object the source has: its methods compute the state machine's steps. */
module Engine {
  import opened Alerts

  class AlertEngine {
    var states: States
    var adopted: map<int, map<Key, Severity>>
    // The alert_matches table, and what listeners have been handed.
    var table: Table
    var announced: seq<RowKey>

    ghost function State(): System
      reads this
    {
      System(states, adopted, table, announced)
    }

    constructor ()
      ensures State() == FRESH_SYSTEM
    {
      states, adopted, table, announced := map[], map[], map[], [];
    }

    method Collect(events: seq<LiveEvent>) returns (wanted: set<Icao>)
      modifies this`states
      ensures Collected(states, wanted) == Alerts.Collect(old(states), events)
    {
      wanted := {};
      for n := 0 to |events|
        invariant Collected(states, wanted) == Drain(old(states), events[..n])
      {
        assert events[..n + 1][..n] == events[..n];
        match events[n]
        case Removed(icao) =>
          states := states - {icao};
          wanted := wanted - {icao};
        case WentStale(_) =>
        case Changed(icao) =>
          wanted := wanted + {icao};
      }
      assert events[..|events|] == events;
      wanted := wanted + set icao | icao in states && Owes(states[icao]);
    }

    method Resync(live: set<Icao>) returns (wanted: set<Icao>)
      modifies this`states
      ensures Collected(states, wanted) == Alerts.Resync(old(states), live)
    {
      states := map icao | icao in states && icao in live :: states[icao];
      wanted := live;
    }

    method Evaluate(w: World, order: seq<Icao>) returns (owed: seq<(Icao, Proposal)>)
      modifies this`states
      ensures Evaluated(states, owed) == Alerts.Evaluate(old(states), adopted, w, order)
    {
      hide StateFor, Propose;
      owed := [];
      for n := 0 to |order|
        invariant Evaluated(states, owed) == Alerts.Evaluate(old(states), adopted, w, order[..n])
      {
        assert order[..n + 1][..n] == order[..n];
        var icao := order[n];
        if icao !in w.live {
          states := states - {icao};
        } else {
          var a := ProposeAll(StateFor(states, adopted, w, icao), w.matches(icao));
          states := states[icao := a];
          owed := owed + Paired(icao, a.pending);
        }
      }
      assert order[..|order|] == order;
    }

    /** The inner loop over one aircraft's proposals. */
    static method ProposeAll(a: AircraftState, ps: seq<Proposal>) returns (b: AircraftState)
      ensures b == Propose(a, ps)
    {
      b := a;
      for n := 0 to |ps|
        invariant b == Propose(a, ps[..n])
      {
        assert ps[..n + 1][..n] == ps[..n];
        if ps[n].key !in b.fired {
          b := b.(pending := SetDefault(b.pending, ps[n]));
        }
      }
      assert ps[..|ps|] == ps;
    }

    /** record_matches: one conflict-ignoring insert per match, in order. */
    method RecordMatches(ms: seq<Match>) returns (created: seq<bool>)
      modifies this`table
      ensures Written(table, created) == Insert(old(table), ms)
    {
      created := [];
      for n := 0 to |ms|
        invariant Written(table, created) == Insert(old(table), ms[..n])
      {
        assert ms[..n + 1][..n] == ms[..n];
        var row := RowOf(ms[n]);
        if row in table {
          created := created + [false];
        } else {
          table := table[row := ms[n].proposal];
          created := created + [true];
        }
      }
      assert ms[..|ms|] == ms;
    }

    method Record(w: World, owed: seq<(Icao, Proposal)>, outcome: Outcome)
      modifies this
      ensures State() == Write(old(State()), old(states), BySeverity(WritableMatches(w, owed)), outcome)
    {
      hide OfSeverity, SettleOne;
      var writable: seq<Match> := [];
      for n := 0 to |owed|
        invariant writable == WritableMatches(w, owed[..n])
        invariant State() == old(State())
      {
        assert owed[..n + 1][..n] == owed[..n];
        var (icao, proposal) := owed[n];
        if Writable(w, icao) {
          writable := writable + [Match(icao, proposal, w.sighting(icao).value.sightingId.value)];
        }
      }
      assert owed[..|owed|] == owed;
      var batch := BySeverity(writable);
      if batch == [] || outcome.RolledBack? {
        return;
      }
      var created := RecordMatches(batch);
      InsertLength(old(table), batch);
      if outcome.ReplyLost? {
        return;
      }
      Remember(batch, created);
    }

    /** After the commit: every match is settled in memory, and what was created announced. */
    method Remember(batch: seq<Match>, created: seq<bool>)
      requires |created| == |batch|
      modifies `states, `announced
      ensures states == Settle(old(states), batch) && announced == old(announced) + Facts(batch, created)
    {
      hide SettleOne;
      var facts: seq<RowKey> := [];
      for n := 0 to |batch|
        invariant states == Settle(old(states), batch[..n])
        invariant facts == Facts(batch[..n], created[..n]) && announced == old(announced)
      {
        assert batch[..n + 1][..n] == batch[..n] && created[..n + 1][..n] == created[..n];
        states := SettleOne(states, batch[n]);
        if created[n] {
          facts := facts + [RowOf(batch[n])];
        }
      }
      assert batch[..|batch|] == batch && created[..|created|] == created;
      announced := announced + facts;
    }

    /** One evaluation cycle over the drained events, or over the snapshot after an overflow. */
    method Cycle(c: Step)
      requires c.Cycle? && Enabled(State(), c)
      modifies this
      ensures State() == Next(old(State()), c)
    {
      hide Next, Write, EvaluatedIn, BatchOf, Wanted, Enabled, BySeverity, WritableMatches;
      hide Alerts.Evaluate, Alerts.Collect, Alerts.Resync;
      ghost var s := State();
      NextIsWrite(s, c);
      CycleParts(s, c);
      WriteReplacesMemory(s, EvaluatedIn(s, c).states, BatchOf(s, c), c.outcome);
      var wanted;
      match c.input {
        case Drained(events) => wanted := Collect(events);
        case Overflowed => wanted := Resync(c.w.live);
      }
      var owed := Evaluate(c.w, c.order);
      Record(c.w, owed, c.outcome);
    }

    /** What start does after a restart: nothing in memory but the open sightings' matches. */
    method Restart(open: set<int>)
      modifies this
      ensures State() == Next(old(State()), Step.Restart(open))
    {
      states, adopted := map[], Adopt(table, open);
    }
  }
}
