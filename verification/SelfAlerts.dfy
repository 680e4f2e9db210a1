/** Receiver self-alerts (alerts/self_alerts.py): two debounced conditions whose raised
    episodes are saved so that a restart can resume them. */
module SelfAlerts {
  import opened DecoderHealth
  import opened Numbers
  import opened Wrappers

  const MS_PER_MINUTE := 60_000
  const DECODER_RESTORE_HOLD_MS := MS_PER_MINUTE
  const RATE_RECOVERY_FACTOR: real := 1.25
  const RATE_RESTORE_HOLD_MS := 5 * MS_PER_MINUTE

  // ----- One reading -----

  datatype Baseline = Baseline(ready: bool, msgsPerSec: Option<real>)

  /** What a reading says about a condition: it continues an outage, it continues a recovery,
      or it is no evidence either way. */
  datatype Verdict = Bad(thresholdMs: int) | Good(holdMs: int) | NoEvidence

  function DecoderVerdict(health: Option<HealthState>, minutes: nat): Verdict {
    match health
    case None => NoEvidence
    case Some(Down) => Bad(minutes * MS_PER_MINUTE)
    case Some(Connected) => Good(DECODER_RESTORE_HOLD_MS)
    case Some(Degraded) => NoEvidence
  }

  function RateVerdict(rate: Option<real>, baseline: Option<Baseline>, sharePct: nat, minutes: nat, connected: bool): Verdict {
    if rate.None? || baseline.None? || !baseline.value.ready || baseline.value.msgsPerSec.None? || !connected then NoEvidence
    else
      var normal := baseline.value.msgsPerSec.value;
      var threshold := normal * sharePct as real / 100.0;
      if rate.value < threshold then Bad(minutes * MS_PER_MINUTE)
      else if rate.value >= Min(normal, threshold * RATE_RECOVERY_FACTOR) then Good(RATE_RESTORE_HOLD_MS)
      else NoEvidence
  }

  /** Only a decoder that is down counts as an outage, for the minutes set, and only a connected
      one as recovered, for a minute; a degraded one, or none, as neither. */
  lemma DecoderJudgedExactly(health: Option<HealthState>, minutes: nat)
    ensures
      var v := DecoderVerdict(health, minutes);
      && (v.Bad? <==> health == Some(Down)) && (v.Bad? ==> v.thresholdMs == minutes * 60_000)
      && (v.Good? <==> health == Some(Connected)) && (v.Good? ==> v.holdMs == 60_000)
  {
  }

  /** The rate is judged only with the decoder connected and a baseline ready: it counts as an
      outage below the share of the baseline, and as recovered from the baseline up, or from
      five quarters of the share, whichever is less. */
  lemma RateJudgedExactly(rate: Option<real>, baseline: Option<Baseline>, sharePct: nat, minutes: nat, connected: bool)
    ensures
      var v := RateVerdict(rate, baseline, sharePct, minutes, connected);
      var usable := connected && rate.Some? && baseline.Some? && baseline.value.ready && baseline.value.msgsPerSec.Some?;
      && (v.Bad? <==> usable && rate.value * 100.0 < baseline.value.msgsPerSec.value * sharePct as real)
      && (v.Bad? ==> v.thresholdMs == minutes * 60_000)
      && (v.Good? <==>
          && usable && rate.value * 100.0 >= baseline.value.msgsPerSec.value * sharePct as real
          && (rate.value >= baseline.value.msgsPerSec.value || rate.value * 400.0 >= 5.0 * (baseline.value.msgsPerSec.value * sharePct as real)))
      && (v.Good? ==> v.holdMs == 300_000)
  {
    if baseline.Some? && baseline.value.msgsPerSec.Some? {
      var product := baseline.value.msgsPerSec.value * sharePct as real;
      assert product / 100.0 * RATE_RECOVERY_FACTOR == product * 5.0 / 400.0;
    }
  }

  /** The hysteresis band: between the raise threshold and the recovery threshold there are
      rates that continue neither run, for every share the settings allow. */
  lemma HysteresisBand(normal: real, sharePct: nat, minutes: nat)
    requires normal > 0.0 && 5 <= sharePct <= 95
    ensures
      exists rate ::
        && RateVerdict(Some(rate), Some(Baseline(true, Some(normal))), sharePct, minutes, true) == NoEvidence
        && (forall r :: r < rate ==> !RateVerdict(Some(r), Some(Baseline(true, Some(normal))), sharePct, minutes, true).Good?)
        && (forall r :: r > rate ==> !RateVerdict(Some(r), Some(Baseline(true, Some(normal))), sharePct, minutes, true).Bad?)
  {
    var share := sharePct as real;
    var threshold := normal * share / 100.0;
    ShareBelow(normal, share, normal * share, threshold);
    assert threshold < Min(normal, threshold * RATE_RECOVERY_FACTOR);
    assert RateVerdict(Some(threshold), Some(Baseline(true, Some(normal))), sharePct, minutes, true) == NoEvidence;
  }

  lemma ShareBelow(normal: real, share: real, product: real, threshold: real)
    requires normal > 0.0 && 5.0 <= share <= 95.0 && product == normal * share && threshold == product / 100.0
    ensures 0.0 < threshold < normal
  {
    var rest := normal * (100.0 - share);
    assert product > 0.0 && rest > 0.0;
    assert product + rest == normal * 100.0;
  }

  // ----- One condition -----

  datatype Active = Active(sinceMs: int, raisedMs: int)

  datatype Condition = Condition(active: Option<Active>, badSince: Option<int>, goodSince: Option<int>)

  /** A raise or a restore, as handed to the sink. */
  datatype Episode = Episode(raised: bool, sinceMs: int, atMs: int)

  datatype Observed = Observed(condition: Condition, episode: Option<Episode>)

  const QUIET := Condition(None, None, None)

  function Observe(c: Condition, now: int, v: Verdict): Observed {
    match v
    case NoEvidence => Observed(c.(badSince := None, goodSince := None), None)
    case Bad(thresholdMs) =>
      var since := if c.badSince.None? then now else c.badSince.value;
      var running := c.(goodSince := None, badSince := Some(since));
      if c.active.Some? || now - since < thresholdMs then Observed(running, None)
      else Observed(running.(active := Some(Active(since, now))), Some(Episode(true, since, now)))
    case Good(holdMs) =>
      if c.active.None? then Observed(c.(badSince := None, goodSince := None), None)
      else
        var since := if c.goodSince.None? then now else c.goodSince.value;
        if now - since < holdMs then Observed(c.(badSince := None, goodSince := Some(since)), None)
        else Observed(QUIET, Some(Episode(false, c.active.value.sinceMs, now)))
  }

  function Resume(saved: Option<Active>): Condition { Condition(saved, None, None) }

  /** The condition as the object the source has. */
  class ConditionObject {
    var active: Option<Active>
    var badSince: Option<int>
    var goodSince: Option<int>

    ghost function Value(): Condition
      reads this
    {
      Condition(active, badSince, goodSince)
    }

    constructor ()
      ensures Value() == QUIET
    {
      active, badSince, goodSince := None, None, None;
    }

    method Resume(saved: Active)
      modifies this
      ensures Value() == Condition(Some(saved), None, None)
    {
      active := Some(saved);
      badSince := None;
      goodSince := None;
    }

    method Reset()
      modifies this
      ensures Value() == QUIET
    {
      active := None;
      badSince := None;
      goodSince := None;
    }

    method Hold()
      modifies this`badSince, this`goodSince
      ensures Observed(Value(), None) == Observe(old(Value()), 0, NoEvidence)
    {
      badSince := None;
      goodSince := None;
    }

    method Bad(now: int, thresholdMs: int) returns (episode: Option<Episode>)
      modifies this
      ensures Observed(Value(), episode) == Observe(old(Value()), now, Verdict.Bad(thresholdMs))
    {
      goodSince := None;
      if badSince.None? {
        badSince := Some(now);
      }
      if active.Some? || now - badSince.value < thresholdMs {
        return None;
      }
      active := Some(Active(badSince.value, now));
      return Some(Episode(true, badSince.value, now));
    }

    method Good(now: int, holdMs: int) returns (episode: Option<Episode>)
      modifies this
      ensures Observed(Value(), episode) == Observe(old(Value()), now, Verdict.Good(holdMs))
    {
      badSince := None;
      var was := active;
      if was.None? {
        goodSince := None;
        return None;
      }
      if goodSince.None? {
        goodSince := Some(now);
      }
      if now - goodSince.value < holdMs {
        return None;
      }
      active := None;
      goodSince := None;
      return Some(Episode(false, was.value.sinceMs, now));
    }

    /** DecoderDownCondition.observe. */
    method ObserveHealth(now: int, health: Option<HealthState>, minutes: nat) returns (episode: Option<Episode>)
      modifies this
      ensures Observed(Value(), episode) == Observe(old(Value()), now, DecoderVerdict(health, minutes))
    {
      episode := None;
      if health.None? {
        Hold();
        return;
      }
      match health.value {
        case Down => episode := Bad(now, minutes * MS_PER_MINUTE);
        case Connected => episode := Good(now, DECODER_RESTORE_HOLD_MS);
        case Degraded => Hold();
      }
    }

    /** MessageRateCondition.observe. */
    method ObserveRate(now: int, rate: Option<real>, baseline: Option<Baseline>, sharePct: nat, minutes: nat, connected: bool)
      returns (episode: Option<Episode>)
      modifies this
      ensures Observed(Value(), episode) == Observe(old(Value()), now, RateVerdict(rate, baseline, sharePct, minutes, connected))
    {
      episode := None;
      if rate.None? || baseline.None? || !baseline.value.ready || baseline.value.msgsPerSec.None? || !connected {
        Hold();
        return;
      }
      var normal := baseline.value.msgsPerSec.value;
      var threshold := normal * sharePct as real / 100.0;
      if rate.value < threshold {
        episode := Bad(now, minutes * MS_PER_MINUTE);
      } else if rate.value >= Min(normal, threshold * RATE_RECOVERY_FACTOR) {
        episode := Good(now, RATE_RESTORE_HOLD_MS);
      } else {
        Hold();
      }
    }
  }

  // ----- Histories of one condition -----

  /** A reading, the condition being switched off, or a restart resuming what was saved. */
  datatype Event = Reading(now: int, verdict: Verdict) | SwitchedOff | Restarted(saved: Option<Active>)

  datatype Life = Life(condition: Condition, episodes: seq<Episode>)

  function Live(l: Life, e: Event): Life {
    match e
    case Reading(now, v) =>
      var o := Observe(l.condition, now, v);
      Life(o.condition, if o.episode.Some? then l.episodes + [o.episode.value] else l.episodes)
    case SwitchedOff => l.(condition := QUIET)
    case Restarted(saved) => l.(condition := Resume(saved))
  }

  function History(l: Life, es: seq<Event>): Life {
    if es == [] then l else Live(History(l, es[..|es| - 1]), es[|es| - 1])
  }

  // ----- Every raise and every restore is justified by an unbroken run -----

  predicate BadRun(es: seq<Event>, from: nat, since: int) {
    && from < |es| && es[from].Reading? && es[from].now == since
    && (forall k :: from <= k < |es| ==> es[k].Reading? && es[k].verdict.Bad?)
  }

  predicate GoodRun(es: seq<Event>, from: nat, since: int) {
    && from < |es| && es[from].Reading? && es[from].now == since
    && (forall k :: from <= k < |es| ==> es[k].Reading? && es[k].verdict.Good?)
  }

  ghost predicate RunsJustified(es: seq<Event>, c: Condition) {
    && (c.badSince.Some? ==> exists from: nat :: BadRun(es, from, c.badSince.value))
    && (c.goodSince.Some? ==> exists from: nat :: GoodRun(es, from, c.goodSince.value))
  }

  lemma {:induction false} PendingRuns(es: seq<Event>)
    ensures RunsJustified(es, History(Life(QUIET, []), es).condition)
  {
    if es != [] {
      var n := |es| - 1;
      PendingRuns(es[..n]);
      var before, after := History(Life(QUIET, []), es[..n]).condition, History(Life(QUIET, []), es).condition;
      if after.badSince.Some? {
        if before.badSince == after.badSince {
          var from :| BadRun(es[..n], from, before.badSince.value);
          assert forall k :: 0 <= k < n ==> es[..n][k] == es[k];
          assert BadRun(es, from, after.badSince.value);
        } else {
          assert BadRun(es, n, after.badSince.value);
        }
      }
      if after.goodSince.Some? {
        if before.goodSince == after.goodSince {
          var from :| GoodRun(es[..n], from, before.goodSince.value);
          assert forall k :: 0 <= k < n ==> es[..n][k] == es[k];
          assert GoodRun(es, from, after.goodSince.value);
        } else {
          assert GoodRun(es, n, after.goodSince.value);
        }
      }
    }
  }

  /** Over any history: the reading that raises ends an unbroken run of bad readings that
      starts at the announced start and lasts at least that reading's threshold. */
  lemma RaiseIsJustified(es: seq<Event>, now: int, thresholdMs: int)
    requires Observe(History(Life(QUIET, []), es).condition, now, Bad(thresholdMs)).episode.Some?
    ensures
      var e := Observe(History(Life(QUIET, []), es).condition, now, Bad(thresholdMs)).episode.value;
      var all := es + [Reading(now, Bad(thresholdMs))];
      && e.raised && e.atMs == now && now - e.sinceMs >= thresholdMs
      && exists from: nat :: BadRun(all, from, e.sinceMs)
  {
    var all := es + [Reading(now, Bad(thresholdMs))];
    assert all[..|es|] == es;
    PendingRuns(all);
  }

  /** The reading that restores ends an unbroken run of recovered readings lasting at least
      the hold, and names the start of the episode it ends. */
  lemma RestoreIsJustified(es: seq<Event>, now: int, holdMs: int)
    requires Observe(History(Life(QUIET, []), es).condition, now, Good(holdMs)).episode.Some?
    ensures
      var c := History(Life(QUIET, []), es).condition;
      var e := Observe(c, now, Good(holdMs)).episode.value;
      var all := es + [Reading(now, Good(holdMs))];
      && !e.raised && e.atMs == now && c.active.Some? && e.sinceMs == c.active.value.sinceMs
      && exists from: nat, start :: GoodRun(all, from, start) && now - start >= holdMs
  {
    var all := es + [Reading(now, Good(holdMs))];
    var c := History(Life(QUIET, []), es).condition;
    PendingRuns(es);
    if c.goodSince.Some? {
      var from :| GoodRun(es, from, c.goodSince.value);
      assert GoodRun(all, from, c.goodSince.value);
    } else {
      assert GoodRun(all, |es|, now);
    }
  }

  // ----- Exactly when a condition raises and restores -----

  predicate IsBad(e: Event) { e.Reading? && e.verdict.Bad? }

  predicate IsGood(e: Event) { e.Reading? && e.verdict.Good? }

  /** The bad readings at the end of a history, all of them, begin at this position. */
  predicate BadSpell(es: seq<Event>, from: nat) {
    && from < |es| && (forall k :: from <= k < |es| ==> IsBad(es[k]))
    && (from > 0 ==> !IsBad(es[from - 1]))
  }

  predicate GoodSpell(es: seq<Event>, from: nat) {
    && from < |es| && (forall k :: from <= k < |es| ==> IsGood(es[k]))
    && (from > 0 ==> !IsGood(es[from - 1]))
  }

  /** The pending starts are those of the spells the history ends with. */
  ghost predicate Spells(es: seq<Event>, c: Condition) {
    && (if es != [] && IsBad(es[|es| - 1]) then exists from: nat :: BadSpell(es, from) && c.badSince == Some(es[from].now)
        else c.badSince.None?)
    && (if es != [] && IsGood(es[|es| - 1]) && c.active.Some? then exists from: nat :: GoodSpell(es, from) && c.goodSince == Some(es[from].now)
        else c.goodSince.None?)
  }

  lemma BadSpellGoesOn(es: seq<Event>, e: Event, from: nat)
    requires BadSpell(es, from) && IsBad(e)
    ensures BadSpell(es + [e], from)
  {
    assert forall k :: 0 <= k < |es| ==> (es + [e])[k] == es[k];
  }

  lemma GoodSpellGoesOn(es: seq<Event>, e: Event, from: nat)
    requires GoodSpell(es, from) && IsGood(e)
    ensures GoodSpell(es + [e], from)
  {
    assert forall k :: 0 <= k < |es| ==> (es + [e])[k] == es[k];
  }

  lemma SpellBegins(es: seq<Event>, e: Event)
    ensures IsBad(e) && (es == [] || !IsBad(es[|es| - 1])) ==> BadSpell(es + [e], |es|)
    ensures IsGood(e) && (es == [] || !IsGood(es[|es| - 1])) ==> GoodSpell(es + [e], |es|)
  {
    assert forall k :: 0 <= k < |es| ==> (es + [e])[k] == es[k];
  }

  lemma SpellStep(es: seq<Event>, l: Life, e: Event)
    requires Spells(es, l.condition)
    ensures Spells(es + [e], Live(l, e).condition)
  {
    var all, c := es + [e], Live(l, e).condition;
    assert all[|es|] == e && forall k :: 0 <= k < |es| ==> all[k] == es[k];
    SpellBegins(es, e);
    if IsBad(e) {
      if es != [] && IsBad(es[|es| - 1]) {
        var from: nat :| BadSpell(es, from) && l.condition.badSince == Some(es[from].now);
        BadSpellGoesOn(es, e, from);
      } else {
        assert BadSpell(all, |es|) && c.badSince == Some(all[|es|].now);
      }
    }
    if IsGood(e) && c.active.Some? {
      if es != [] && IsGood(es[|es| - 1]) {
        var from: nat :| GoodSpell(es, from) && l.condition.goodSince == Some(es[from].now);
        GoodSpellGoesOn(es, e, from);
      } else {
        assert GoodSpell(all, |es|) && c.goodSince == Some(all[|es|].now);
      }
    }
  }

  lemma {:induction false} SpellsHold(es: seq<Event>)
    ensures Spells(es, History(Life(QUIET, []), es).condition)
  {
    if es != [] {
      var n := |es| - 1;
      SpellsHold(es[..n]);
      SpellStep(es[..n], History(Life(QUIET, []), es[..n]), es[n]);
      assert es == es[..n] + [es[n]];
    }
  }

  /** A bad reading raises exactly when nothing is raised and the spell of bad readings it ends
      is at least the threshold long. */
  lemma RaisedExactly(es: seq<Event>, now: int, thresholdMs: int)
    ensures
      var c := History(Life(QUIET, []), es).condition;
      var all := es + [Reading(now, Bad(thresholdMs))];
      Observe(c, now, Bad(thresholdMs)).episode.Some? <==>
      c.active.None? && exists from: nat :: BadSpell(all, from) && now - all[from].now >= thresholdMs
  {
    var l, e := History(Life(QUIET, []), es), Reading(now, Bad(thresholdMs));
    var all := es + [e];
    SpellsHold(es);
    SpellStep(es, l, e);
    assert all[|es|] == e;
    var from: nat :| BadSpell(all, from) && Live(l, e).condition.badSince == Some(all[from].now);
    forall other: nat | BadSpell(all, other) ensures other == from {
      OneBadSpell(all, from, other);
    }
    hide BadSpell, GoodSpell, Spells, History;
  }

  lemma OneBadSpell(es: seq<Event>, from: nat, other: nat)
    requires BadSpell(es, from) && BadSpell(es, other)
    ensures from == other
  {
  }

  /** A recovered reading restores exactly when something is raised and the spell of recovered
      readings it ends is at least the hold long. */
  lemma RestoredExactly(es: seq<Event>, now: int, holdMs: int)
    ensures
      var c := History(Life(QUIET, []), es).condition;
      var all := es + [Reading(now, Good(holdMs))];
      Observe(c, now, Good(holdMs)).episode.Some? <==>
      c.active.Some? && exists from: nat :: GoodSpell(all, from) && now - all[from].now >= holdMs
  {
    var c, e := History(Life(QUIET, []), es).condition, Reading(now, Good(holdMs));
    var all := es + [e];
    SpellsHold(es);
    SpellBegins(es, e);
    assert all[|es|] == e && forall k :: 0 <= k < |es| ==> all[k] == es[k];
    if c.active.Some? {
      var from: nat := |es|;
      if es != [] && IsGood(es[|es| - 1]) {
        from :| GoodSpell(es, from) && c.goodSince == Some(es[from].now);
        GoodSpellGoesOn(es, e, from);
      }
      forall other: nat | GoodSpell(all, other) ensures other == from {
        OneGoodSpell(all, from, other);
      }
    }
    hide BadSpell, GoodSpell, History;
  }

  lemma OneGoodSpell(es: seq<Event>, from: nat, other: nat)
    requires GoodSpell(es, from) && GoodSpell(es, other)
    ensures from == other
  {
  }

  // ----- Raises and restores alternate -----

  /** Raise, restore, raise, ...: each restore carries its raise's start, and each raise
      starts strictly after the episode before it. */
  predicate Alternates(eps: seq<Episode>) {
    forall i :: 0 <= i < |eps| ==>
      && (eps[i].raised <==> i % 2 == 0)
      && (i % 2 == 1 ==> eps[i].sinceMs == eps[i - 1].sinceMs)
      && (i % 2 == 0 && i > 0 ==> eps[i].sinceMs > eps[i - 1].sinceMs)
  }

  predicate EndsRaised(eps: seq<Episode>) { eps != [] && eps[|eps| - 1].raised }

  /** The condition and what has been announced agree at an instant. */
  predicate InStep(l: Life, now: int) {
    var c, eps := l.condition, l.episodes;
    && Alternates(eps)
    && (c.active.Some? <==> EndsRaised(eps))
    && (c.active.Some? ==>
          eps[|eps| - 1].sinceMs == c.active.value.sinceMs && c.active.value.sinceMs <= c.active.value.raisedMs <= now)
    && (c.active.None? && eps != [] ==> eps[|eps| - 1].sinceMs < now)
    && (c.badSince.Some? ==> c.badSince.value <= now)
    && (c.badSince.Some? && c.active.None? && eps != [] ==> eps[|eps| - 1].sinceMs < c.badSince.value)
    && (c.goodSince.Some? ==> c.active.Some? && c.active.value.raisedMs <= c.goodSince.value <= now)
  }

  /** The clock does not go back, and holds are positive, as the two constants are. */
  predicate Timely(e: Event, now: int) {
    e.Reading? ==> now <= e.now && (e.verdict.Good? ==> e.verdict.holdMs > 0) && (e.verdict.Bad? ==> e.verdict.thresholdMs >= 0)
  }

  function TimeAfter(e: Event, now: int): int { if e.Reading? then e.now else now }

  lemma ReadingKeepsStep(l: Life, e: Event, now: int)
    requires InStep(l, now) && e.Reading? && Timely(e, now)
    ensures InStep(Live(l, e), e.now)
  {
    hide Alternates;
    var o := Observe(l.condition, e.now, e.verdict);
    if o.episode.Some? {
      AlternatesSnoc(l.episodes, o.episode.value);
    }
  }

  lemma AlternatesSnoc(eps: seq<Episode>, e: Episode)
    requires Alternates(eps) && e.raised != EndsRaised(eps)
    requires eps != [] ==> if e.raised then eps[|eps| - 1].sinceMs < e.sinceMs else eps[|eps| - 1].sinceMs == e.sinceMs
    ensures Alternates(eps + [e])
  {
    assert eps != [] ==> (EndsRaised(eps) <==> (|eps| - 1) % 2 == 0);
  }

  /** What can break the agreement, exactly: switching a raised condition off, and a restart
      whose saved episode is not the one in force. */
  lemma StepIsLostExactly(l: Life, e: Event, now: int)
    requires InStep(l, now) && Timely(e, now)
    ensures
      InStep(Live(l, e), TimeAfter(e, now)) <==>
      && !(e.SwitchedOff? && l.condition.active.Some?)
      && (e.Restarted? ==>
            if l.condition.active.None? then e.saved.None?
            else e.saved.Some? && e.saved.value.sinceMs == l.condition.active.value.sinceMs
                 && e.saved.value.sinceMs <= e.saved.value.raisedMs <= now)
  {
    if e.Reading? {
      ReadingKeepsStep(l, e, now);
    }
  }

  /** And that does matter: once what is in force is not what was last announced, whether it is
      raised at all or since when, some further readings announce a raise after a raise, a
      restore after a restore, or a restore that names another start than its raise. */
  lemma LostStepShows(l: Life, now: int) returns (es: seq<Event>)
    requires Alternates(l.episodes)
    requires
      || l.condition.active.Some? != EndsRaised(l.episodes)
      || (l.condition.active.Some? && l.condition.active.value.sinceMs != l.episodes[|l.episodes| - 1].sinceMs)
    requires l.condition.active.None? ==> l.condition.badSince.None?
    requires l.condition.goodSince.None?
    ensures !Alternates(History(l, es).episodes)
  {
    var v := if l.condition.active.None? then Bad(MS_PER_MINUTE) else Good(DECODER_RESTORE_HOLD_MS);
    var first, second := Reading(now, v), Reading(now + MS_PER_MINUTE, v);
    es := [first, second];
    assert es[..1] == [first] && es[..1][..0] == [];
    var mid := Live(l, first);
    assert History(l, es[..1]) == mid;
    var end := Live(mid, second);
    assert |end.episodes| == |l.episodes| + 1;
    assert l.episodes != [] ==> end.episodes[|l.episodes| - 1] == l.episodes[|l.episodes| - 1];
    assert end.episodes[|l.episodes|].raised == l.condition.active.None?;
  }

  // ----- The monitor: two conditions, one saved document -----

  datatype Saved = Saved(decoder: Option<Active>, rate: Option<Active>)

  /** The text of the meta row: what the monitor writes, or any other text, from which some
      episodes may still be read. */
  datatype Document = Encoded(saved: Saved) | OtherText(legible: Saved)

  function Legible(d: Document): Saved {
    match d
    case Encoded(saved) => saved
    case OtherText(legible) => legible
  }

  /** remembered is the document last written or read by this process; stored is the one in
      the meta table. */
  datatype Monitor = Monitor(decoder: Life, rate: Life, remembered: Document, stored: Document, clock: int)

  /** The self-alert settings in force, read at every sample. */
  datatype Settings = Settings(decoderEnabled: bool, decoderMinutes: nat, rateEnabled: bool, sharePct: nat, rateMinutes: nat)

  /** How a write of the document would end: it succeeds, it fails, or it commits and then
      raises or is cancelled, which the monitor takes for a failure. */
  datatype Write = Done | Failed | Unheard

  /** A sample, with the health, the rate and the baseline it is judged by; a restart, whose read
      of the document succeeds or not. */
  datatype Step =
    | Sample(now: int, settings: Settings, health: Option<HealthState>, rate: Option<real>, baseline: Option<Baseline>, write: Write)
    | Restart(readable: bool)

  const NOTHING_SAVED := Encoded(Saved(None, None))

  function DecoderJudged(s: Step): Event
    requires s.Sample?
  {
    if s.settings.decoderEnabled then Reading(s.now, DecoderVerdict(s.health, s.settings.decoderMinutes)) else SwitchedOff
  }

  function RateJudged(s: Step): Event
    requires s.Sample?
  {
    if s.settings.rateEnabled
    then Reading(s.now, RateVerdict(s.rate, s.baseline, s.settings.sharePct, s.settings.rateMinutes, s.health == Some(Connected)))
    else SwitchedOff
  }

  /** A sample is judged by the settings it comes with, each condition by its own, and the rate
      only while the decoder is connected; a condition that is off forgets. */
  lemma SampleJudgedExactly(s: Step)
    requires s.Sample?
    ensures DecoderJudged(s).SwitchedOff? <==> !s.settings.decoderEnabled
    ensures RateJudged(s).SwitchedOff? <==> !s.settings.rateEnabled
    ensures s.settings.decoderEnabled ==>
              DecoderJudged(s) == Reading(s.now, if s.health == Some(Down) then Bad(s.settings.decoderMinutes * 60_000)
                                                 else if s.health == Some(Connected) then Good(60_000) else NoEvidence)
    ensures s.settings.rateEnabled ==>
              && RateJudged(s).Reading? && RateJudged(s).now == s.now
              && (s.health != Some(Connected) ==> RateJudged(s).verdict == NoEvidence)
              && (s.health == Some(Connected) ==>
                    RateJudged(s).verdict == RateVerdict(s.rate, s.baseline, s.settings.sharePct, s.settings.rateMinutes, true))
  {
  }

  function InForce(m: Monitor): Saved { Saved(m.decoder.condition.active, m.rate.condition.active) }

  /** Written only when it differs from what is remembered. */
  function Persist(m: Monitor, write: Write): Monitor {
    var document := Encoded(InForce(m));
    if document == m.remembered then m
    else
      match write
      case Done => m.(remembered := document, stored := document)
      case Failed => m
      case Unheard => m.(stored := document)
  }

  function Next(m: Monitor, s: Step): Monitor {
    match s
    case Sample(now, _, _, _, _, write) =>
      Persist(m.(decoder := Live(m.decoder, DecoderJudged(s)), rate := Live(m.rate, RateJudged(s)), clock := now), write)
    case Restart(readable) =>
      var read := if readable then m.stored else NOTHING_SAVED;
      var resumed := Legible(read);
      m.(decoder := Live(m.decoder, Restarted(resumed.decoder)), rate := Live(m.rate, Restarted(resumed.rate)), remembered := read)
  }

  function Run(m: Monitor, ss: seq<Step>): Monitor {
    if ss == [] then m else Next(Run(m, ss[..|ss| - 1]), ss[|ss| - 1])
  }

  function FreshMonitor(clock: int): Monitor {
    Monitor(Life(QUIET, []), Life(QUIET, []), NOTHING_SAVED, NOTHING_SAVED, clock)
  }

  /** A sample in time order that switches nothing off while it is raised; a restart that
      reads from what was stored what was in force. */
  predicate Orderly(m: Monitor, s: Step) {
    match s
    case Sample(now, settings, _, _, _, _) =>
      && m.clock <= now
      && (!settings.decoderEnabled ==> m.decoder.condition.active.None?)
      && (!settings.rateEnabled ==> m.rate.condition.active.None?)
    case Restart(readable) => readable && Legible(m.stored) == InForce(m)
  }

  predicate AllOrderly(m: Monitor, ss: seq<Step>) {
    forall i :: 0 <= i < |ss| ==> Orderly(Run(m, ss[..i]), ss[i])
  }

  predicate MonitorInStep(m: Monitor) {
    InStep(m.decoder, m.clock) && InStep(m.rate, m.clock)
  }

  lemma LaterInStep(l: Life, now: int, later: int)
    requires InStep(l, now) && now <= later
    ensures InStep(l, later)
  {
  }

  lemma OrderlyStep(m: Monitor, s: Step, t: Monitor)
    requires MonitorInStep(m) && Orderly(m, s) && t == Next(m, s)
    ensures MonitorInStep(t)
  {
    hide InStep, Live, Alternates;
    match s {
      case Sample(now, _, _, _, _, _) =>
        KeepsStep(m.decoder, DecoderJudged(s), m.clock, now);
        KeepsStep(m.rate, RateJudged(s), m.clock, now);
      case Restart(_) =>
        KeepsStep(m.decoder, Restarted(Legible(m.stored).decoder), m.clock, m.clock);
        KeepsStep(m.rate, Restarted(Legible(m.stored).rate), m.clock, m.clock);
    }
  }

  lemma KeepsStep(l: Life, e: Event, now: int, later: int)
    requires InStep(l, now) && Timely(e, now) && now <= later
    requires e.Reading? ==> e.now == later
    requires e.SwitchedOff? ==> l.condition.active.None?
    requires e.Restarted? ==> e.saved == l.condition.active
    ensures InStep(Live(l, e), later)
  {
    hide Alternates;
    StepIsLostExactly(l, e, now);
    LaterInStep(Live(l, e), TimeAfter(e, now), later);
  }

  lemma {:induction false} OrderlyRun(m: Monitor, ss: seq<Step>)
    requires MonitorInStep(m) && AllOrderly(m, ss)
    ensures MonitorInStep(Run(m, ss))
  {
    hide MonitorInStep, Orderly, Next;
    if ss != [] {
      var n := |ss| - 1;
      assert forall i :: 0 <= i < n ==> ss[..n][..i] == ss[..i] && ss[..n][i] == ss[i];
      OrderlyRun(m, ss[..n]);
      OrderlyStep(Run(m, ss[..n]), ss[n], Run(m, ss));
    }
  }

  /** Over any orderly run, restarts included, each condition's raises and restores alternate
      with matching starts, and its episodes start one strictly after another. */
  lemma EpisodesAlternate(clock: int, ss: seq<Step>)
    requires AllOrderly(FreshMonitor(clock), ss)
    ensures
      var m := Run(FreshMonitor(clock), ss);
      && Alternates(m.decoder.episodes) && Alternates(m.rate.episodes)
      && (m.decoder.condition.active.Some? <==> EndsRaised(m.decoder.episodes))
      && (m.rate.condition.active.Some? <==> EndsRaised(m.rate.episodes))
  {
    OrderlyRun(FreshMonitor(clock), ss);
  }

  /** After a sample the document stored is the one in force exactly when it was already, or a
      write was called for by what is remembered and committed. A restart right after such a
      sample is orderly. */
  lemma StoredIsInForce(m: Monitor, s: Step)
    requires s.Sample?
    ensures
      var t := Next(m, s);
      t.stored == Encoded(InForce(t)) <==>
      m.stored == Encoded(InForce(t)) || (m.remembered != Encoded(InForce(t)) && !s.write.Failed?)
    ensures var t := Next(m, s); t.stored == Encoded(InForce(t)) ==> Orderly(t, Restart(true))
  {
  }

  /** What is remembered can differ from what is stored only through a write that committed
      unheard, or a start that could not read: from any other step on they agree. */
  lemma RememberedIsStored(m: Monitor, s: Step)
    requires m.remembered == m.stored
    ensures
      var t := Next(m, s);
      t.remembered == t.stored <==>
      match s
      case Sample(_, _, _, _, _, write) => !write.Unheard? || Encoded(InForce(t)) == m.stored
      case Restart(readable) => readable || m.stored == NOTHING_SAVED
  {
  }

  lemma RunSnoc(m: Monitor, ss: seq<Step>, s: Step)
    ensures Run(m, ss + [s]) == Next(Run(m, ss), s)
  {
    assert (ss + [s])[..|ss|] == ss;
  }

  /** Switching a raised condition off forgets it without a restore: the next outage is
      announced as a second raise in a row. */
  lemma SwitchedOffWhileRaised() returns (ss: seq<Step>)
    ensures |ss| == 5 && forall i :: 0 <= i < 5 ==> ss[i].Sample? && ss[i].write.Done?
    ensures
      var eps := Run(FreshMonitor(0), ss).decoder.episodes;
      |eps| == 2 && eps[0].raised && eps[1].raised
  {
    hide Run, Next, Live, DecoderJudged;
    var off := Sample(2 * MS_PER_MINUTE, Settings(false, 1, false, 40, 1), Some(Down), None, None, Done);
    ss := [DownAt(0), DownAt(MS_PER_MINUTE), off, DownAt(3 * MS_PER_MINUTE), DownAt(4 * MS_PER_MINUTE)];
    var m := FreshMonitor(0);
    RunFive(m, ss[0], ss[1], ss[2], ss[3], ss[4]);
    var m1 := DecoderOf(m, ss[0]);
    var m2 := DecoderOf(m1, ss[1]);
    TwoDown(m.decoder, 0);
    var m3 := DecoderOf(m2, off);
    Forgotten(m2.decoder, off);
    var m4 := DecoderOf(m3, ss[3]);
    var m5 := DecoderOf(m4, ss[4]);
    TwoDown(m3.decoder, 3 * MS_PER_MINUTE);
  }

  /** The decoder is down, and may be for a minute. */
  function DownAt(now: int): Step { Sample(now, Settings(true, 1, false, 40, 1), Some(Down), None, None, Done) }

  lemma Forgotten(l: Life, s: Step)
    requires s.Sample? && !s.settings.decoderEnabled
    ensures Live(l, DecoderJudged(s)) == Life(QUIET, l.episodes)
  {
  }

  /** A quiet decoder condition that reads down for the minute it waits raises. */
  lemma TwoDown(l: Life, now: int)
    requires l.condition == QUIET
    ensures
      var t := Live(Live(l, DecoderJudged(DownAt(now))), DecoderJudged(DownAt(now + MS_PER_MINUTE)));
      t.episodes == l.episodes + [Episode(true, now, now + MS_PER_MINUTE)]
  {
  }

  /** Writes that commit unheard leave the document behind: once the episode is restored, what is
      in force is what is remembered, nothing is written, and the next start resumes an episode
      that listeners were told is over. */
  lemma UnheardWriteRevives() returns (ss: seq<Step>)
    ensures |ss| == 5 && ss[4] == Restart(true)
    ensures forall i :: 0 <= i < 4 ==> ss[i].Sample? && if i in {1, 2} then ss[i].write.Unheard? else ss[i].write.Done?
    ensures
      var m := Run(FreshMonitor(0), ss);
      && m.decoder.episodes == [Episode(true, 0, MS_PER_MINUTE), Episode(false, 0, 3 * MS_PER_MINUTE)]
      && m.decoder.condition.active == Some(Active(0, MS_PER_MINUTE))
  {
    var on := Settings(true, 1, false, 40, 1);
    var s0 := Sample(0, on, Some(Down), None, None, Done);
    var s1 := Sample(MS_PER_MINUTE, on, Some(Down), None, None, Unheard);
    var s2 := Sample(2 * MS_PER_MINUTE, on, Some(Connected), None, None, Unheard);
    var s3 := Sample(3 * MS_PER_MINUTE, on, Some(Connected), None, None, Done);
    ss := [s0, s1, s2, s3, Restart(true)];
    var m := FreshMonitor(0);
    hide Run, Next;
    RunFive(m, s0, s1, s2, s3, Restart(true));
    var raised := Active(0, MS_PER_MINUTE);
    var m1 := WithoutRate(m, s0, None);
    assert m1.decoder == Life(Condition(None, Some(0), None), []);
    var m2 := WithoutRate(m1, s1, Some(raised));
    assert m2.decoder == Life(Condition(Some(raised), Some(0), None), [Episode(true, 0, MS_PER_MINUTE)]);
    var m3 := WithoutRate(m2, s2, Some(raised));
    assert m3.decoder == Life(Condition(Some(raised), None, Some(2 * MS_PER_MINUTE)), [Episode(true, 0, MS_PER_MINUTE)]);
    var m4 := WithoutRate(m3, s3, None);
    Revived(m4, raised);
  }

  /** A sample with the rate condition switched off. */
  lemma WithoutRate(m: Monitor, s: Step, active: Option<Active>) returns (t: Monitor)
    requires s.Sample? && !s.settings.rateEnabled && Live(m.decoder, DecoderJudged(s)).condition.active == active
    ensures t == Next(m, s) && t.decoder == Live(m.decoder, DecoderJudged(s))
    ensures
      var document := Encoded(Saved(active, None));
      var due := document != m.remembered;
      && t.remembered == (if due && s.write.Done? then document else m.remembered)
      && t.stored == (if due && !s.write.Failed? then document else m.stored)
  {
    hide DecoderJudged;
    t := Next(m, s);
  }

  lemma Revived(m: Monitor, active: Active)
    requires m.stored == Encoded(Saved(Some(active), None))
    ensures Next(m, Restart(true)).decoder == Life(Condition(Some(active), None, None), m.decoder.episodes)
  {
  }

  lemma DecoderOf(m: Monitor, s: Step) returns (t: Monitor)
    requires s.Sample?
    ensures t == Next(m, s) && t.decoder == Live(m.decoder, DecoderJudged(s))
  {
    t := Next(m, s);
  }

  lemma RunFive(m: Monitor, s0: Step, s1: Step, s2: Step, s3: Step, s4: Step)
    ensures Run(m, [s0, s1, s2, s3, s4]) == Next(Next(Next(Next(Next(m, s0), s1), s2), s3), s4)
  {
    hide Next;
    RunSnoc(m, [], s0);
    RunSnoc(m, [s0], s1);
    RunSnoc(m, [s0, s1], s2);
    RunSnoc(m, [s0, s1, s2], s3);
    RunSnoc(m, [s0, s1, s2, s3], s4);
    var none: seq<Step> := [];
    assert none + [s0] == [s0] && [s0] + [s1] == [s0, s1] && [s0, s1] + [s2] == [s0, s1, s2];
    assert [s0, s1, s2] + [s3] == [s0, s1, s2, s3] && [s0, s1, s2, s3] + [s4] == [s0, s1, s2, s3, s4];
  }

  /** The monitor as the object the source has. */
  class SelfAlertMonitor {
    const decoder: ConditionObject
    const rate: ConditionObject
    var remembered: Document
    // The meta table's document.
    var stored: Document

    constructor (stored: Document)
      ensures fresh(decoder) && fresh(rate) && decoder != rate
      ensures decoder.Value() == QUIET && rate.Value() == QUIET
      ensures this.stored == stored && remembered == NOTHING_SAVED
    {
      decoder := new ConditionObject();
      rate := new ConditionObject();
      remembered := NOTHING_SAVED;
      this.stored := stored;
    }

    ghost function Value(decoderEpisodes: seq<Episode>, rateEpisodes: seq<Episode>, clock: int): Monitor
      reads this, decoder, rate
    {
      Monitor(Life(decoder.Value(), decoderEpisodes), Life(rate.Value(), rateEpisodes), remembered, stored, clock)
    }

    /** start(), on conditions just constructed. */
    method Start(readable: bool, ghost before: Monitor)
      requires decoder != rate && decoder.Value() == QUIET && rate.Value() == QUIET
      requires remembered == NOTHING_SAVED && before.stored == stored
      modifies this`remembered, decoder, rate
      ensures Value(before.decoder.episodes, before.rate.episodes, before.clock) == Next(before, Restart(readable))
    {
      if !readable {
        return;
      }
      remembered := stored;
      var legible := Legible(stored);
      if legible.decoder.Some? {
        decoder.Resume(legible.decoder.value);
      }
      if legible.rate.Some? {
        rate.Resume(legible.rate.value);
      }
    }

    /** _persist: the document is written when it differs from what is remembered. */
    method PersistActive(write: Write, ghost m: Monitor)
      requires m == Value(m.decoder.episodes, m.rate.episodes, m.clock)
      modifies this
      ensures Value(m.decoder.episodes, m.rate.episodes, m.clock) == Persist(m, write)
    {
      var document := Encoded(Saved(decoder.active, rate.active));
      if document != remembered && !write.Failed? {
        stored := document;
        if write.Done? {
          remembered := document;
        }
      }
    }

    /** Every condition that is switched on judges the sample, one that is off forgets. */
    method Judge(now: int, settings: Settings, health: Option<HealthState>, messagesPerSec: Option<real>,
                 baseline: Option<Baseline>, ghost s: Step) returns (fromDecoder: Option<Episode>, fromRate: Option<Episode>)
      requires decoder != rate && s.Sample?
      requires s.now == now && s.settings == settings && s.health == health && s.rate == messagesPerSec && s.baseline == baseline
      modifies decoder, rate
      ensures forall eps :: Live(Life(old(decoder.Value()), eps), DecoderJudged(s)) == Life(decoder.Value(), Told(eps, fromDecoder))
      ensures forall eps :: Live(Life(old(rate.Value()), eps), RateJudged(s)) == Life(rate.Value(), Told(eps, fromRate))
    {
      hide DecoderVerdict, RateVerdict;
      fromDecoder, fromRate := None, None;
      if settings.decoderEnabled {
        fromDecoder := decoder.ObserveHealth(now, health, settings.decoderMinutes);
      } else {
        decoder.Reset();
      }
      if settings.rateEnabled {
        fromRate := rate.ObserveRate(now, messagesPerSec, baseline, settings.sharePct, settings.rateMinutes, health == Some(Connected));
      } else {
        rate.Reset();
      }
    }

    /** observe: judge the sample, then save what is in force. */
    method Observe(now: int, settings: Settings, health: Option<HealthState>, messagesPerSec: Option<real>,
                   baseline: Option<Baseline>, write: Write, ghost before: Monitor)
      returns (fromDecoder: Option<Episode>, fromRate: Option<Episode>)
      requires decoder != rate && before == Value(before.decoder.episodes, before.rate.episodes, before.clock)
      modifies this, decoder, rate
      ensures
        Value(Told(before.decoder.episodes, fromDecoder), Told(before.rate.episodes, fromRate), now)
        == Next(before, Sample(now, settings, health, messagesPerSec, baseline, write))
    {
      hide Live, DecoderJudged, RateJudged, Persist, Told;
      ghost var s := Sample(now, settings, health, messagesPerSec, baseline, write);
      fromDecoder, fromRate := Judge(now, settings, health, messagesPerSec, baseline, s);
      PersistActive(write, Value(Told(before.decoder.episodes, fromDecoder), Told(before.rate.episodes, fromRate), now));
    }
  }

  function Told(eps: seq<Episode>, episode: Option<Episode>): seq<Episode> {
    if episode.Some? then eps + [episode.value] else eps
  }
}
