/** Under which sighting the alert engine records a match: the one it was proposed in, except
    for matches carried over from one sighting of an aircraft to the next. */
module AlertSightings {
  import opened Alerts
  import opened Wrappers

  /** A sighting that has an id is called by it. */
  ghost predicate Named(c: Step) {
    c.Cycle? ==> forall icao :: SightingOf(c.w, icao).Some? ==> SightingOf(c.w, icao).value == c.w.visit(icao)
  }

  ghost predicate AllNamed(cs: seq<Step>) { forall i :: 0 <= i < |cs| ==> Named(cs[i]) }

  predicate Evaluates(c: Step, icao: Icao) { c.Cycle? && icao in c.order && icao in c.w.live }

  /** In this cycle the rule matched an aircraft that was in the sighting. */
  ghost predicate MatchesIn(c: Step, k: Key, sighting: int) {
    exists icao :: Evaluates(c, icao) && c.w.visit(icao) == sighting && k in Keys(c.w.matches(icao))
  }

  ghost predicate Matched(cs: seq<Step>, k: Key, sighting: int) {
    exists i :: 0 <= i < |cs| && MatchesIn(cs[i], k, sighting)
  }

  /** The rows that the last step of a run stores for sightings the rule has not matched in. */
  ghost function ForeignIn(cs: seq<Step>, c: Step): set<RowKey> {
    var s := Run(FRESH_SYSTEM, cs);
    set r | r in Next(s, c).table.Keys - s.table.Keys && !Matched(cs + [c], r.key, r.sightingId)
  }

  /** The rows of a run that were stored for a sighting the rule had not matched in. */
  ghost function Foreign(cs: seq<Step>): set<RowKey> {
    if cs == [] then {} else Foreign(cs[..|cs| - 1]) + ForeignIn(cs[..|cs| - 1], cs[|cs| - 1])
  }

  predicate Pending(states: States, icao: Icao, k: Key) { icao in states && k in Keys(states[icao].pending) }

  /** Proposed in cycle j of the run, and pending for the aircraft ever since. */
  ghost predicate PendingSince(cs: seq<Step>, icao: Icao, k: Key, j: nat) {
    && j < |cs| && Evaluates(cs[j], icao) && k in Keys(cs[j].w.matches(icao))
    && forall i :: j < i <= |cs| ==> Pending(Run(FRESH_SYSTEM, cs[..i]).states, icao, k)
  }

  /** A match proposed while the aircraft was in another sighting is still pending, and the rule
      has not matched in the present one. */
  ghost predicate CarriedOver(cs: seq<Step>, c: Step, icao: Icao, k: Key) {
    && Evaluates(c, icao) && Pending(Wanted(Run(FRESH_SYSTEM, cs), c).states, icao, k)
    && (exists j: nat :: PendingSince(cs, icao, k, j) && cs[j].w.visit(icao) != c.w.visit(icao))
    && !Matched(cs + [c], k, c.w.visit(icao))
  }

  /** The cycle's write commits, and can write what is pending for the aircraft. */
  predicate Writes(c: Step, icao: Icao) { c.Cycle? && !c.outcome.RolledBack? && Writable(c.w, icao) }

  // ----- Where what is pending comes from -----

  lemma WantedPending(s: System, c: Step, icao: Icao, k: Key)
    requires c.Cycle? && Pending(Wanted(s, c).states, icao, k)
    ensures Pending(s.states, icao, k)
  {
    hide Keys, Drain;
    if c.input.Drained? {
      DrainKeeps(s.states, c.input.events);
    }
  }

  /** What is pending after a cycle was pending when it began, or matches in it. */
  lemma PendingStep(s: System, c: Step, t: System, icao: Icao, k: Key)
    requires Invariant(s) && c.Cycle? && Enabled(s, c) && t == Next(s, c) && Pending(t.states, icao, k)
    ensures Pending(Wanted(s, c).states, icao, k) || (Evaluates(c, icao) && k in Keys(c.w.matches(icao)))
  {
    AfterTheWrite(s, c, t);
    assert Advances(EvaluatedIn(s, c).states[icao], t.states[icao]);
    if Evaluates(c, icao) {
      EvaluatedPending(s, c, icao);
    } else {
      NotEvaluated(s, c, icao);
    }
    hide Keys, EvaluatedIn, Next, Wanted, Enabled, Invariant, BatchOf, Rows;
  }

  lemma NotEvaluated(s: System, c: Step, icao: Icao)
    requires c.Cycle? && Enabled(s, c) && !Evaluates(c, icao) && icao in EvaluatedIn(s, c).states
    ensures icao in Wanted(s, c).states && EvaluatedIn(s, c).states[icao] == Wanted(s, c).states[icao]
  {
    hide Wanted, Evaluate;
    EvaluateSpec(Wanted(s, c).states, s.adopted, c.w, c.order);
  }

  lemma FeasiblePrefix(cs: seq<Step>, c: Step)
    requires Feasible(FRESH_SYSTEM, cs + [c])
    ensures Feasible(FRESH_SYSTEM, cs) && Enabled(Run(FRESH_SYSTEM, cs), c)
    ensures Run(FRESH_SYSTEM, cs + [c]) == Next(Run(FRESH_SYSTEM, cs), c)
    ensures Invariant(Run(FRESH_SYSTEM, cs))
  {
    hide Enabled, Next, Invariant;
    var all := cs + [c];
    assert all[..|cs|] == cs && all[|cs|] == c;
    assert forall i :: 0 <= i < |cs| ==> all[..i] == cs[..i] && all[i] == cs[i];
    FreshInvariant();
    RunKeeps(FRESH_SYSTEM, cs);
  }

  lemma FreshInvariant()
    ensures Invariant(FRESH_SYSTEM)
  {
  }

  lemma PendingLonger(init: seq<Step>, c: Step, icao: Icao, k: Key, j: nat)
    requires PendingSince(init, icao, k, j) && Pending(Run(FRESH_SYSTEM, init + [c]).states, icao, k)
    ensures PendingSince(init + [c], icao, k, j)
  {
    hide Run, Pending, Evaluates, Keys;
    var cs := init + [c];
    assert cs[j] == init[j];
    forall i | j < i <= |cs| ensures Pending(Run(FRESH_SYSTEM, cs[..i]).states, icao, k) {
      if i <= |init| {
        assert cs[..i] == init[..i];
      } else {
        assert cs[..i] == cs;
      }
    }
  }

  lemma PendingFromNow(init: seq<Step>, c: Step, icao: Icao, k: Key)
    requires Evaluates(c, icao) && k in Keys(c.w.matches(icao)) && Pending(Run(FRESH_SYSTEM, init + [c]).states, icao, k)
    ensures PendingSince(init + [c], icao, k, |init|)
  {
    hide Run, Pending, Keys;
    var cs := init + [c];
    assert cs[..|cs|] == cs;
  }

  lemma FreshForgets(icao: Icao, k: Key)
    ensures !Pending(Run(FRESH_SYSTEM, []).states, icao, k)
  {
  }

  lemma RestartForgets(s: System, c: Step, icao: Icao, k: Key)
    requires Pending(Next(s, c).states, icao, k)
    ensures c.Cycle?
  {
  }

  /** Everything pending was proposed in some cycle, in the sighting the aircraft was then in. */
  lemma {:induction false} WasProposed(cs: seq<Step>, icao: Icao, k: Key) returns (j: nat)
    requires Feasible(FRESH_SYSTEM, cs) && Pending(Run(FRESH_SYSTEM, cs).states, icao, k)
    ensures PendingSince(cs, icao, k, j)
  {
    hide Run, PendingSince, Feasible, Next, Wanted, Enabled, Invariant, Pending, Evaluates, Keys;
    FreshForgets(icao, k);
    var n := |cs| - 1;
    var init, c := cs[..n], cs[n];
    assert cs == init + [c];
    FeasiblePrefix(init, c);
    var s := Run(FRESH_SYSTEM, init);
    RestartForgets(s, c, icao, k);
    PendingStep(s, c, Run(FRESH_SYSTEM, cs), icao, k);
    if Pending(Wanted(s, c).states, icao, k) {
      WantedPending(s, c, icao, k);
      j := WasProposed(init, icao, k);
      PendingLonger(init, c, icao, k, j);
    } else {
      j := n;
      PendingFromNow(init, c, icao, k);
    }
  }

  // ----- One cycle -----

  /** A row the step creates is one that a committing write makes of a key pending for a live
      aircraft, under the aircraft's sighting. */
  lemma CreatedFrom(s: System, c: Step, r: RowKey)
    requires Invariant(s) && Enabled(s, c) && Named(c)
    ensures r in Next(s, c).table.Keys - s.table.Keys <==>
            && r !in s.table
            && exists icao :: Evaluates(c, icao) && Writes(c, icao) && c.w.visit(icao) == r.sightingId && r.key in PendingKeys(s, c, icao)
  {
    hide Invariant, Enabled, Next, PendingKeys, Keys;
    if c.Cycle? && !c.outcome.RolledBack? {
      CreatedRows(s, c, r);
    } else {
      NothingStored(s, c);
    }
  }

  lemma NothingStored(s: System, c: Step)
    requires c.Restart? || c.outcome.RolledBack?
    ensures Next(s, c).table == s.table
  {
  }

  /** A key no aircraft in this sighting has ever matched is pending here only because it was
      proposed elsewhere. */
  lemma UnmatchedIsCarried(cs: seq<Step>, c: Step, icao: Icao, k: Key)
    requires Feasible(FRESH_SYSTEM, cs + [c]) && Evaluates(c, icao) && !Matched(cs + [c], k, c.w.visit(icao))
    ensures k in PendingKeys(Run(FRESH_SYSTEM, cs), c, icao) <==> CarriedOver(cs, c, icao, k)
  {
    FeasiblePrefix(cs, c);
    var s := Run(FRESH_SYSTEM, cs);
    hide Run, Feasible, Enabled, Invariant, Next, Keys, PendingSince;
    NotMatchedNow(cs, c, icao, k);
    if Pending(Wanted(s, c).states, icao, k) {
      WantedPending(s, c, icao, k);
      var j := WasProposed(cs, icao, k);
      ProposedElsewhere(cs, c, icao, k, j);
    }
  }

  lemma NotMatchedNow(cs: seq<Step>, c: Step, icao: Icao, k: Key)
    requires Evaluates(c, icao) && !Matched(cs + [c], k, c.w.visit(icao))
    ensures k !in Keys(c.w.matches(icao))
  {
    hide Keys;
    assert (cs + [c])[|cs|] == c;
    var sighting := c.w.visit(icao);
    assert k in Keys(c.w.matches(icao)) ==> MatchesIn(c, k, sighting);
  }

  lemma ProposedElsewhere(cs: seq<Step>, c: Step, icao: Icao, k: Key, j: nat)
    requires PendingSince(cs, icao, k, j) && Evaluates(c, icao) && !Matched(cs + [c], k, c.w.visit(icao))
    ensures cs[j].w.visit(icao) != c.w.visit(icao)
  {
    hide Keys, Pending;
    assert (cs + [c])[j] == cs[j];
    assert MatchesIn(cs[j], k, cs[j].w.visit(icao));
  }

  /** The rows a cycle stores for sightings the rule has not matched in are exactly those of
      matches carried over from another sighting, if they are not recorded there already. */
  lemma ForeignStep(cs: seq<Step>, c: Step, r: RowKey)
    requires Feasible(FRESH_SYSTEM, cs + [c]) && Named(c)
    ensures r in ForeignIn(cs, c) <==>
            && r !in Run(FRESH_SYSTEM, cs).table
            && exists icao :: CarriedOver(cs, c, icao, r.key) && Writes(c, icao) && c.w.visit(icao) == r.sightingId
  {
    FeasiblePrefix(cs, c);
    CreatedFrom(Run(FRESH_SYSTEM, cs), c, r);
    hide Run, Feasible, Enabled, Invariant, Next, PendingKeys, Named, Writes;
    if !Matched(cs + [c], r.key, r.sightingId) {
      forall icao | Evaluates(c, icao) && c.w.visit(icao) == r.sightingId
        ensures r.key in PendingKeys(Run(FRESH_SYSTEM, cs), c, icao) <==> CarriedOver(cs, c, icao, r.key)
      {
        UnmatchedIsCarried(cs, c, icao, r.key);
      }
    }
    hide Matched, Evaluates, PendingSince, Pending;
  }

  // ----- Whole runs -----

  /** In the cycle, no carried-over match is about to be stored where it is not yet recorded. */
  ghost predicate StoresNoneCarried(cs: seq<Step>, c: Step) {
    forall icao, k :: CarriedOver(cs, c, icao, k) && Writes(c, icao) ==> RowKey(k, c.w.visit(icao)) in Run(FRESH_SYSTEM, cs).table
  }

  /** Every row is stored for a sighting its rule matched in, if and only if no committing cycle
      finds pending, and not yet recorded, a match that the aircraft carried over from another
      sighting. */
  lemma {:induction false} ForeignExactly(cs: seq<Step>)
    requires Feasible(FRESH_SYSTEM, cs) && AllNamed(cs)
    ensures Foreign(cs) == {} <==> forall i :: 0 <= i < |cs| ==> StoresNoneCarried(cs[..i], cs[i])
  {
    hide Run, Feasible, StoresNoneCarried, ForeignIn, Named;
    if cs != [] {
      var n := |cs| - 1;
      var init := cs[..n];
      assert cs == init + [cs[n]];
      FeasiblePrefix(init, cs[n]);
      assert forall i :: 0 <= i < n ==> init[..i] == cs[..i] && init[i] == cs[i];
      ForeignExactly(init);
      LastForeign(init, cs[n]);
    }
  }

  /** In particular none is, while no aircraft changes sightings with a match pending. */
  lemma SettledBeforeMoving(cs: seq<Step>)
    requires Feasible(FRESH_SYSTEM, cs) && AllNamed(cs)
    requires forall i, j: nat, icao, k :: 0 <= i < |cs| && PendingSince(cs[..i], icao, k, j) && Evaluates(cs[i], icao) ==>
               cs[j].w.visit(icao) == cs[i].w.visit(icao)
    ensures Foreign(cs) == {}
  {
    hide Run, Feasible, PendingSince, Evaluates, Matched, Writes, Pending, Named, Foreign;
    forall i | 0 <= i < |cs| ensures StoresNoneCarried(cs[..i], cs[i]) {
      assert forall j: nat :: j < i ==> cs[..i][j] == cs[j];
      assert forall icao, k, j: nat :: PendingSince(cs[..i], icao, k, j) ==> j < i by {
        forall icao, k, j: nat | PendingSince(cs[..i], icao, k, j) ensures j < i {
          SinceEarlier(cs[..i], icao, k, j);
        }
      }
    }
    ForeignExactly(cs);
  }

  lemma SinceEarlier(cs: seq<Step>, icao: Icao, k: Key, j: nat)
    requires PendingSince(cs, icao, k, j)
    ensures j < |cs| && cs[j].Cycle?
  {
  }

  lemma LastForeign(cs: seq<Step>, c: Step)
    requires Feasible(FRESH_SYSTEM, cs + [c]) && Named(c)
    ensures ForeignIn(cs, c) == {} <==> StoresNoneCarried(cs, c)
  {
    hide Run, Feasible, PendingSince, Matched, ForeignIn, Named, Pending;
    forall r ensures r in ForeignIn(cs, c) <==>
            && r !in Run(FRESH_SYSTEM, cs).table
            && exists icao :: CarriedOver(cs, c, icao, r.key) && Writes(c, icao) && c.w.visit(icao) == r.sightingId
    {
      ForeignStep(cs, c, r);
    }
    hide CarriedOver;
    if ForeignIn(cs, c) == {} {
      forall icao, k | CarriedOver(cs, c, icao, k) && Writes(c, icao) ensures RowKey(k, c.w.visit(icao)) in Run(FRESH_SYSTEM, cs).table {
        assert RowKey(k, c.w.visit(icao)) !in ForeignIn(cs, c);
      }
    }
  }

  // ----- And it happens -----

  /** The aircraft matches in sighting 5. */
  function FifthSighting(): World {
    World({"a"}, i => Some(Ids(Some(5), Some(1))), i => true, i => [InsideTheArea()], i => 5)
  }

  /** It does not match in sighting 7. */
  function SeventhSighting(): World {
    World({"a"}, i => Some(Ids(Some(7), Some(1))), i => true, i => [], i => 7)
  }

  /** A match whose write is rolled back; and a cycle after an overflow that hid the aircraft's
      removal and return. */
  function FirstCycle(): Step { Cycle(FifthSighting(), Drained([Changed("a")]), ["a"], RolledBack) }

  function SecondCycle(): Step { Cycle(SeventhSighting(), Overflowed, ["a"], Committed) }

  function Unwritten(): System {
    System(map["a" := AircraftState(Some(5), map[], [InsideTheArea()], false)], map[], map[], [])
  }

  lemma FirstWanted()
    ensures Wanted(FRESH_SYSTEM, FirstCycle()) == Collected(map[], {"a"})
  {
    hide FifthSighting;
    assert [Changed("a")][..0] == [];
  }

  lemma FirstEvaluated()
    ensures EvaluatedIn(FRESH_SYSTEM, FirstCycle()).states == Unwritten().states
  {
    var p, w := InsideTheArea(), FifthSighting();
    FirstWanted();
    hide Wanted;
    OneAircraft(map[], map[], w, "a");
    hide Evaluate;
    assert [p][..0] == [];
    assert Propose(AircraftState(Some(5), map[], [], false), [p]) == AircraftState(Some(5), map[], [p], false);
  }

  lemma OneInOrder(s: System, c: Step)
    requires c.Cycle? && c.order == ["a"] && Wanted(s, c).wanted == {"a"}
    ensures Enabled(s, c)
  {
    hide Wanted;
    assert c.order[0] == "a";
  }

  lemma FirstRolledBack()
    ensures Enabled(FRESH_SYSTEM, FirstCycle()) && Next(FRESH_SYSTEM, FirstCycle()) == Unwritten()
  {
    FirstWanted();
    FirstEvaluated();
    OneInOrder(FRESH_SYSTEM, FirstCycle());
    hide Wanted, EvaluatedIn, BatchOf, Insert, Facts, Settle, Enabled;
  }

  lemma SecondEvaluated()
    ensures Wanted(Unwritten(), SecondCycle()) == Collected(Unwritten().states, {"a"})
    ensures EvaluatedIn(Unwritten(), SecondCycle()).owed == [("a", InsideTheArea())]
  {
    var p := InsideTheArea();
    OneAircraft(Unwritten().states, map[], SeventhSighting(), "a");
    hide Evaluate;
    assert Propose(AircraftState(Some(7), map[], [p], false), []).pending == [p];
    assert Paired("a", [p]) == [("a", p)];
  }

  lemma SecondBatch()
    ensures Enabled(Unwritten(), SecondCycle()) && BatchOf(Unwritten(), SecondCycle()) == [Match("a", InsideTheArea(), 7)]
  {
    SecondEvaluated();
    OneInOrder(Unwritten(), SecondCycle());
    OneOwed(SeventhSighting(), "a", InsideTheArea());
    OneInBatch(Match("a", InsideTheArea(), 7));
    hide Wanted, Enabled, EvaluatedIn, OfSeverity, BySeverity, WritableMatches;
  }

  lemma WriteOne(s: System, states: States, m: Match)
    requires s.table == map[]
    ensures Write(s, states, [m], Committed).announced == s.announced + [RowOf(m)]
    ensures Write(s, states, [m], Committed).table.Keys == {RowOf(m)}
  {
    FreshRow(m);
    hide Insert, Facts, Settle;
  }

  lemma FreshRow(m: Match)
    ensures Insert(map[], [m]) == Written(map[RowOf(m) := m.proposal], [true]) && Facts([m], [true]) == [RowOf(m)]
  {
    assert [m][..0] == [] && [true][..0] == [];
  }

  lemma SecondWritten()
    ensures
      var t := Next(Unwritten(), SecondCycle());
      t.announced == [RowKey(Rule(1), 7)] && t.table.Keys == {RowKey(Rule(1), 7)}
  {
    SecondBatch();
    NextIsWrite(Unwritten(), SecondCycle());
    hide EvaluatedIn, BatchOf, Next;
    WriteOne(Unwritten(), EvaluatedIn(Unwritten(), SecondCycle()).states, Match("a", InsideTheArea(), 7));
  }

  lemma NeverInTheSeventh()
    ensures !Matched([FirstCycle(), SecondCycle()], Rule(1), 7)
  {
    assert Keys([]) == {};
    assert !MatchesIn(FirstCycle(), Rule(1), 7) && !MatchesIn(SecondCycle(), Rule(1), 7);
  }

  /** A match made in one sighting is recorded, and announced, under the aircraft's next, in
      which it never matched, and never under its own. */
  lemma CarriedToTheNextSighting()
    ensures
      var cs := [FirstCycle(), SecondCycle()];
      && Feasible(FRESH_SYSTEM, cs) && AllNamed(cs)
      && SightingOf(FirstCycle().w, "a") == Some(5) && SightingOf(SecondCycle().w, "a") == Some(7)
      && SecondCycle().w.matches("a") == []
      && Run(FRESH_SYSTEM, cs).announced == [RowKey(Rule(1), 7)] && Run(FRESH_SYSTEM, cs).table.Keys == {RowKey(Rule(1), 7)}
      && Foreign(cs) == {RowKey(Rule(1), 7)}
  {
    hide Next, Enabled, FirstCycle, SecondCycle, Matched, Run;
    assert Unwritten().table == map[];
    hide Unwritten;
    var first, second := FirstCycle(), SecondCycle();
    var cs := [first, second];
    BothNamed();
    FirstRolledBack();
    SecondBatch();
    SecondWritten();
    NeverInTheSeventh();
    RunTwo(first, second);
    ForeignTwo(first, second);
    assert [first] + [second] == cs;
    var none: set<RowKey> := {};
    assert ForeignIn([], first) == none;
    assert ForeignIn([first], second) == {RowKey(Rule(1), 7)};
  }

  lemma BothNamed()
    ensures Named(FirstCycle()) && Named(SecondCycle())
    ensures SightingOf(FirstCycle().w, "a") == Some(5) && SightingOf(SecondCycle().w, "a") == Some(7)
    ensures SecondCycle().w.matches("a") == []
  {
  }

  lemma RunTwo(a: Step, b: Step)
    ensures
      var s, t := Next(FRESH_SYSTEM, a), Next(Next(FRESH_SYSTEM, a), b);
      && Run(FRESH_SYSTEM, []) == FRESH_SYSTEM && Run(FRESH_SYSTEM, [a]) == s && Run(FRESH_SYSTEM, [a, b]) == t
      && (Feasible(FRESH_SYSTEM, [a, b]) <==> Enabled(FRESH_SYSTEM, a) && Enabled(s, b))
  {
    hide Next, Enabled;
    var cs := [a, b];
    assert cs[..0] == [] && cs[..1] == [a] && [a][..0] == [];
    assert cs[0] == a && cs[1] == b;
  }

  lemma ForeignTwo(a: Step, b: Step)
    ensures Foreign([a, b]) == ForeignIn([], a) + ForeignIn([a], b)
  {
    hide ForeignIn;
    assert [a, b][..1] == [a] && [a][..0] == [];
    assert Foreign([]) == {};
  }
}
