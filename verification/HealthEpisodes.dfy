/** The decoder's connection health (ingest/health.py). */
module DecoderHealth {
  datatype HealthState = Connected | Degraded | Down
}

/** The activity feed's debounced decoder health (activity/service.py, _observe_health). */
module HealthEpisodes {
  import opened DecoderHealth
  import opened Wrappers

  /** A probe's answer at an instant; no probe or no decoder is None. */
  datatype Reading = Reading(now: int, health: Option<HealthState>)

  datatype HealthEpisode = HealthEpisode(offline: bool, atMs: int, previousDurationMs: int)

  datatype Watch = Watch(announced: Option<bool>, announcedSince: int, candidate: Option<bool>, candidateSince: int)

  const UNWATCHED := Watch(None, 0, None, 0)

  /** degraded is no opinion. */
  function Offline(r: Reading): Option<bool> {
    match r.health
    case Some(Connected) => Some(false)
    case Some(Down) => Some(true)
    case _ => None
  }

  datatype Observed = Observed(watch: Watch, episode: Option<HealthEpisode>)

  function Observe(w: Watch, r: Reading, debounceMs: nat): Observed {
    var opinion := Offline(r);
    if opinion.None? then Observed(w, None)
    else
      var tracked := if opinion == w.candidate then w else w.(candidate := opinion, candidateSince := r.now);
      if tracked.announced.None? then Observed(tracked.(announced := opinion, announcedSince := r.now), None)
      else if opinion == tracked.announced then Observed(tracked, None)
      else if r.now - tracked.candidateSince < debounceMs then Observed(tracked, None)
      else
        Observed(
          tracked.(announced := opinion, announcedSince := tracked.candidateSince),
          Some(HealthEpisode(opinion.value, tracked.candidateSince, tracked.candidateSince - tracked.announcedSince)))
  }

  class HealthWatch {
    const debounceMs: nat
    var announced: Option<bool>
    var announcedSince: int
    var candidate: Option<bool>
    var candidateSince: int
    var pendingEpisodes: seq<HealthEpisode>

    ghost function Value(): Watch
      reads this
    {
      Watch(announced, announcedSince, candidate, candidateSince)
    }

    constructor (debounceMs: nat)
      ensures this.debounceMs == debounceMs && Value() == UNWATCHED && pendingEpisodes == []
    {
      this.debounceMs := debounceMs;
      announced, announcedSince, candidate, candidateSince, pendingEpisodes := None, 0, None, 0, [];
    }

    method ObserveHealth(r: Reading)
      modifies this
      ensures
        var o := Observe(old(Value()), r, debounceMs);
        && Value() == o.watch
        && pendingEpisodes == old(pendingEpisodes) + if o.episode.Some? then [o.episode.value] else []
    {
      var opinion := Offline(r);
      if opinion.None? {
        return;
      }
      if opinion != candidate {
        candidate := opinion;
        candidateSince := r.now;
      }
      if announced.None? {
        announced := opinion;
        announcedSince := r.now;
        return;
      }
      if opinion == announced {
        return;
      }
      if r.now - candidateSince < debounceMs {
        return;
      }
      pendingEpisodes := pendingEpisodes + [HealthEpisode(opinion.value, candidateSince, candidateSince - announcedSince)];
      announced := opinion;
      announcedSince := candidateSince;
    }
  }

  // ----- Whole histories -----

  datatype Feed = Feed(watch: Watch, episodes: seq<HealthEpisode>)

  function History(rs: seq<Reading>, debounceMs: nat): Feed {
    if rs == [] then Feed(UNWATCHED, [])
    else
      var before := History(rs[..|rs| - 1], debounceMs);
      var o := Observe(before.watch, rs[|rs| - 1], debounceMs);
      Feed(o.watch, if o.episode.Some? then before.episodes + [o.episode.value] else before.episodes)
  }

  predicate InTimeOrder(rs: seq<Reading>) { forall i, j :: 0 <= i < j < |rs| ==> rs[i].now <= rs[j].now }

  /** Every reading with an opinion from position `from` to the end says `offline`, the first
      of them at position `from`. */
  predicate Unanimous(rs: seq<Reading>, from: nat, offline: bool) {
    && from < |rs| && Offline(rs[from]) == Some(offline)
    && (forall k :: from <= k < |rs| ==> Offline(rs[k]).None? || Offline(rs[k]) == Some(offline))
  }

  /** The first reading with an opinion, if any. */
  predicate FirstOpinion(rs: seq<Reading>, at: nat) {
    at < |rs| && Offline(rs[at]).Some? && forall k :: 0 <= k < at ==> Offline(rs[k]).None?
  }

  predicate Alternates(eps: seq<HealthEpisode>) {
    forall i :: 0 < i < |eps| ==> eps[i].offline != eps[i - 1].offline
  }

  function TotalPrevious(eps: seq<HealthEpisode>): int {
    if eps == [] then 0 else TotalPrevious(eps[..|eps| - 1]) + eps[|eps| - 1].previousDurationMs
  }

  function LastStart(eps: seq<HealthEpisode>, first: int): int {
    if eps == [] then first else eps[|eps| - 1].atMs
  }

  /** The watch has an opinion exactly when some reading had one, and then a candidate that
      every reading since candidateSince agrees with. */
  ghost predicate Tracking(rs: seq<Reading>, w: Watch) {
    && (w.announced.None? <==> forall k :: 0 <= k < |rs| ==> Offline(rs[k]).None?)
    && (w.announced.None? ==> w == UNWATCHED)
    && (w.announced.Some? ==>
          && w.candidate.Some?
          && (exists from: nat :: Unanimous(rs, from, w.candidate.value) && rs[from].now == w.candidateSince))
  }

  /** The announced state and the episodes so far, `first` being when the first opinion came. */
  predicate Ledger(w: Watch, eps: seq<HealthEpisode>, first: int) {
    && w.announcedSince == LastStart(eps, first)
    && TotalPrevious(eps) == w.announcedSince - first
    && (eps != [] ==> Some(eps[|eps| - 1].offline) == w.announced)
    && w.announcedSince <= w.candidateSince
    && Alternates(eps)
    && (forall i :: 0 <= i < |eps| ==> eps[i].previousDurationMs >= 0)
  }

  ghost predicate Consistent(rs: seq<Reading>, f: Feed) {
    && Tracking(rs, f.watch)
    && (f.watch.announced.None? ==> f.episodes == [])
    && (f.watch.announced.Some? ==> exists at: nat :: FirstOpinion(rs, at) && Ledger(f.watch, f.episodes, rs[at].now))
  }

  lemma {:induction false} HistoryConsistent(rs: seq<Reading>, debounceMs: nat)
    requires InTimeOrder(rs)
    ensures Consistent(rs, History(rs, debounceMs))
  {
    hide Tracking, Ledger, Observe, Offline;
    if rs == [] {
      TrackingNothing();
    } else {
      var n := |rs| - 1;
      assert forall k :: 0 <= k < n ==> rs[..n][k] == rs[k];
      HistoryConsistent(rs[..n], debounceMs);
      var before := History(rs[..n], debounceMs);
      var o := Observe(before.watch, rs[n], debounceMs);
      TrackingStep(rs, before.watch, debounceMs);
      if before.watch.announced.Some? {
        var at: nat :| FirstOpinion(rs[..n], at) && Ledger(before.watch, before.episodes, rs[..n][at].now);
        assert FirstOpinion(rs, at);
        LedgerStep(rs, before.watch, before.episodes, rs[at].now, debounceMs);
      } else {
        FirstStep(rs, before.watch, debounceMs);
      }
    }
  }

  lemma TrackingNothing()
    ensures Tracking([], UNWATCHED)
  {
  }

  lemma TrackingStep(rs: seq<Reading>, w: Watch, debounceMs: nat)
    requires rs != [] && Tracking(rs[..|rs| - 1], w)
    ensures Tracking(rs, Observe(w, rs[|rs| - 1], debounceMs).watch)
    ensures w.announced.Some? ==> Observe(w, rs[|rs| - 1], debounceMs).watch.announced.Some?
  {
    var n := |rs| - 1;
    var init := rs[..n];
    var after := Observe(w, rs[n], debounceMs).watch;
    assert forall k :: 0 <= k < n ==> init[k] == rs[k];
    if after.announced.Some? {
      if after.candidate == w.candidate && w.announced.Some? {
        var from: nat :| Unanimous(init, from, w.candidate.value) && init[from].now == w.candidateSince;
        assert Unanimous(rs, from, w.candidate.value);
      } else {
        assert Unanimous(rs, n, after.candidate.value);
      }
    }
  }

  lemma FirstStep(rs: seq<Reading>, w: Watch, debounceMs: nat)
    requires rs != [] && Tracking(rs[..|rs| - 1], w) && w.announced.None?
    ensures
      var o := Observe(w, rs[|rs| - 1], debounceMs);
      && o.episode.None?
      && (o.watch.announced.Some? ==> exists at: nat :: FirstOpinion(rs, at) && Ledger(o.watch, [], rs[at].now))
  {
    var n := |rs| - 1;
    assert forall k :: 0 <= k < n ==> rs[..n][k] == rs[k];
    if Offline(rs[n]).Some? {
      assert FirstOpinion(rs, n);
    }
  }

  lemma LedgerStep(rs: seq<Reading>, w: Watch, eps: seq<HealthEpisode>, first: int, debounceMs: nat)
    requires rs != [] && InTimeOrder(rs) && Tracking(rs[..|rs| - 1], w) && w.announced.Some? && Ledger(w, eps, first)
    ensures
      var o := Observe(w, rs[|rs| - 1], debounceMs);
      Ledger(o.watch, if o.episode.Some? then eps + [o.episode.value] else eps, first)
  {
    var n := |rs| - 1;
    var from: nat :| Unanimous(rs[..n], from, w.candidate.value) && rs[..n][from].now == w.candidateSince;
    assert rs[from].now <= rs[n].now;
    hide InTimeOrder, Tracking, Unanimous;
    var o := Observe(w, rs[n], debounceMs);
    if o.episode.Some? {
      assert (eps + [o.episode.value])[..|eps|] == eps;
    }
  }

  /** Over any readings in time order: outages and recoveries alternate, and the reported
      durations of the previous state are non-negative and telescope to the time between the
      first opinion and the start of the last announced state. */
  lemma EpisodesTelescope(rs: seq<Reading>, debounceMs: nat)
    requires InTimeOrder(rs)
    ensures
      var eps := History(rs, debounceMs).episodes;
      && Alternates(eps)
      && (forall i :: 0 <= i < |eps| ==> eps[i].previousDurationMs >= 0)
      && (eps != [] ==> exists at: nat :: FirstOpinion(rs, at) && TotalPrevious(eps) == eps[|eps| - 1].atMs - rs[at].now)
  {
    HistoryConsistent(rs, debounceMs);
    var f := History(rs, debounceMs);
    if f.episodes != [] {
      var at: nat :| FirstOpinion(rs, at) && Ledger(f.watch, f.episodes, rs[at].now);
    }
  }

  /** The reading that announces an episode closes a stretch, from the episode's start and at
      least the debounce long, in which every reading with an opinion agrees with it. */
  lemma EpisodeIsDebounced(rs: seq<Reading>, debounceMs: nat)
    requires rs != [] && InTimeOrder(rs)
    requires |History(rs, debounceMs).episodes| > |History(rs[..|rs| - 1], debounceMs).episodes|
    ensures
      var eps := History(rs, debounceMs).episodes;
      var e := eps[|eps| - 1];
      && rs[|rs| - 1].now - e.atMs >= debounceMs
      && exists from: nat :: Unanimous(rs, from, e.offline) && rs[from].now == e.atMs
  {
    var n := |rs| - 1;
    var before, f := History(rs[..n], debounceMs), History(rs, debounceMs);
    AnnouncementDebounced(before.watch, rs[n], debounceMs);
    assert f.watch == Observe(before.watch, rs[n], debounceMs).watch;
    HistoryConsistent(rs, debounceMs);
    hide Observe, History, Ledger, Unanimous;
    var from: nat :| Unanimous(rs, from, f.watch.candidate.value) && rs[from].now == f.watch.candidateSince;
  }

  /** An announcement is of the candidate, held for the debounce. */
  lemma AnnouncementDebounced(w: Watch, r: Reading, debounceMs: nat)
    requires Observe(w, r, debounceMs).episode.Some?
    ensures
      var o := Observe(w, r, debounceMs);
      && o.watch.candidate == Some(o.episode.value.offline) && o.watch.candidateSince == o.episode.value.atMs
      && o.watch.announced.Some? && r.now - o.episode.value.atMs >= debounceMs
  {
  }

  /** The state at boot is not news: the first opinion is announced by no episode, and neither
      is its continuation. */
  lemma {:induction false} FirstOpinionIsSilent(rs: seq<Reading>, debounceMs: nat, offline: bool)
    requires forall k :: 0 <= k < |rs| ==> Offline(rs[k]).None? || Offline(rs[k]) == Some(offline)
    ensures History(rs, debounceMs).episodes == []
    ensures var w := History(rs, debounceMs).watch; w.announced.None? || w.announced == Some(offline)
  {
    if rs != [] {
      var n := |rs| - 1;
      assert forall k :: 0 <= k < n ==> rs[..n][k] == rs[k];
      FirstOpinionIsSilent(rs[..n], debounceMs, offline);
    }
  }

  // ----- Exactly when an episode is announced -----

  /** The probe says the decoder is down, or that it is connected. */
  predicate Says(r: Reading, offline: bool) { r.health == Some(if offline then Down else Connected) }

  /** The stretch of agreeing readings at the end of a history: nothing since `from` says
      otherwise, and any earlier reading that agrees was contradicted before `from`. */
  predicate StretchFrom(rs: seq<Reading>, from: nat, offline: bool) {
    && from < |rs| && Says(rs[from], offline)
    && (forall k :: from <= k < |rs| ==> !Says(rs[k], !offline))
    && (forall j :: 0 <= j < from && Says(rs[j], offline) ==> exists k :: j < k < from && Says(rs[k], !offline))
  }

  /** What listeners take the decoder to be: what the last episode said, or else what was found
      at boot. */
  ghost predicate Stands(rs: seq<Reading>, eps: seq<HealthEpisode>, offline: bool) {
    if eps != [] then eps[|eps| - 1].offline == offline
    else exists at :: 0 <= at < |rs| && Says(rs[at], offline) && forall k :: 0 <= k < at ==> !Says(rs[k], true) && !Says(rs[k], false)
  }

  lemma OpinionIsWhatItSays(r: Reading)
    ensures Offline(r) == if Says(r, true) then Some(true) else if Says(r, false) then Some(false) else None
    ensures !(Says(r, true) && Says(r, false))
  {
  }

  lemma StretchGoesOn(rs: seq<Reading>, r: Reading, from: nat, offline: bool)
    requires StretchFrom(rs, from, offline) && !Says(r, !offline)
    ensures StretchFrom(rs + [r], from, offline)
  {
    var all := rs + [r];
    assert forall k :: 0 <= k < |rs| ==> all[k] == rs[k];
    forall j | 0 <= j < from && Says(all[j], offline) ensures exists k :: j < k < from && Says(all[k], !offline) {
      var k :| j < k < from && Says(rs[k], !offline);
      assert Says(all[k], !offline);
    }
  }

  lemma StretchBegins(rs: seq<Reading>, r: Reading, offline: bool)
    requires Says(r, offline)
    requires forall j :: 0 <= j < |rs| && Says(rs[j], offline) ==> exists k :: j < k < |rs| && Says(rs[k], !offline)
    ensures StretchFrom(rs + [r], |rs|, offline)
  {
    var all := rs + [r];
    assert forall k :: 0 <= k < |rs| ==> all[k] == rs[k];
    forall j | 0 <= j < |rs| && Says(all[j], offline) ensures exists k :: j < k < |rs| && Says(all[k], !offline) {
      var k :| j < k < |rs| && Says(rs[k], !offline);
      assert Says(all[k], !offline);
    }
  }

  lemma OneStretch(rs: seq<Reading>, from: nat, other: nat, offline: bool)
    requires StretchFrom(rs, from, offline) && StretchFrom(rs, other, offline)
    ensures from == other
  {
  }

  /** The candidate is what the last stretch says, since it began. */
  ghost predicate Follows(rs: seq<Reading>, w: Watch) {
    match w.candidate
    case None => forall k :: 0 <= k < |rs| ==> !Says(rs[k], true) && !Says(rs[k], false)
    case Some(offline) => exists from: nat :: StretchFrom(rs, from, offline) && rs[from].now == w.candidateSince
  }

  lemma FollowsOn(rs: seq<Reading>, w: Watch, r: Reading, after: Watch)
    requires Follows(rs, w)
    requires
      var opinion := Offline(r);
      after.candidate == (if opinion.None? then w.candidate else opinion)
      && after.candidateSince == (if opinion.None? || opinion == w.candidate then w.candidateSince else r.now)
    ensures Follows(rs + [r], after)
  {
    var all := rs + [r];
    assert forall k :: 0 <= k < |rs| ==> all[k] == rs[k];
    OpinionIsWhatItSays(r);
    hide Offline, Says;
    if after.candidate.Some? {
      var offline := after.candidate.value;
      if w.candidate == after.candidate {
        var from: nat :| StretchFrom(rs, from, offline) && rs[from].now == w.candidateSince;
        StretchGoesOn(rs, r, from, offline);
      } else {
        NothingAgreesStill(rs, w, offline);
        StretchBegins(rs, r, offline);
        assert all[|rs|] == r;
      }
    }
  }

  /** Before the candidate changes, whatever agreed with the new one has been contradicted. */
  lemma NothingAgreesStill(rs: seq<Reading>, w: Watch, offline: bool)
    requires Follows(rs, w) && w.candidate != Some(offline)
    ensures forall j :: 0 <= j < |rs| && Says(rs[j], offline) ==> exists k :: j < k < |rs| && Says(rs[k], !offline)
  {
    if w.candidate.Some? {
      assert w.candidate == Some(!offline);
      var from: nat :| StretchFrom(rs, from, !offline);
      forall j | 0 <= j < |rs| && Says(rs[j], offline) ensures exists k :: j < k < |rs| && Says(rs[k], !offline) {
        assert j < from;
      }
    }
  }

  lemma {:induction false} CandidateFollows(rs: seq<Reading>, debounceMs: nat)
    ensures Follows(rs, History(rs, debounceMs).watch)
  {
    hide Follows, Offline;
    if rs == [] {
      assert Follows([], UNWATCHED) by { NothingFollows(); }
    } else {
      var n := |rs| - 1;
      CandidateFollows(rs[..n], debounceMs);
      assert rs == rs[..n] + [rs[n]];
      FollowsOn(rs[..n], History(rs[..n], debounceMs).watch, rs[n], History(rs, debounceMs).watch);
    }
  }

  lemma NothingFollows()
    ensures Follows([], UNWATCHED)
  {
  }

  lemma {:induction false} AnnouncedStands(rs: seq<Reading>, debounceMs: nat)
    ensures
      var f := History(rs, debounceMs);
      forall offline :: f.watch.announced == Some(offline) <==> Stands(rs, f.episodes, offline)
    ensures
      var f := History(rs, debounceMs);
      f.watch.announced.None? ==> f.episodes == [] && forall k :: 0 <= k < |rs| ==> !Says(rs[k], true) && !Says(rs[k], false)
  {
    if rs != [] {
      var n := |rs| - 1;
      AnnouncedStands(rs[..n], debounceMs);
      var before, f := History(rs[..n], debounceMs), History(rs, debounceMs);
      assert forall k :: 0 <= k < n ==> rs[..n][k] == rs[k];
      OpinionIsWhatItSays(rs[n]);
      hide Offline, Says, History;
      if f.episodes == [] && f.watch.announced.Some? {
        StandsFromBoot(rs, before.watch, f.watch);
      }
    }
  }

  lemma StandsFromBoot(rs: seq<Reading>, w: Watch, after: Watch)
    requires rs != [] && after.announced.Some?
    requires
      var init := rs[..|rs| - 1];
      && (forall offline :: w.announced == Some(offline) <==> Stands(init, [], offline))
      && (w.announced.None? ==> forall k :: 0 <= k < |init| ==> !Says(init[k], true) && !Says(init[k], false))
    requires after.announced == if w.announced.Some? then w.announced else Offline(rs[|rs| - 1])
    ensures forall offline :: after.announced == Some(offline) <==> Stands(rs, [], offline)
  {
    var n := |rs| - 1;
    var init := rs[..n];
    assert forall k :: 0 <= k < n ==> init[k] == rs[k];
    OpinionIsWhatItSays(rs[n]);
    if w.announced.Some? {
      assert Stands(init, [], w.announced.value);
      var at :| 0 <= at < n && Says(init[at], w.announced.value) && forall k :: 0 <= k < at ==> !Says(init[k], true) && !Says(init[k], false);
      assert Says(rs[at], w.announced.value);
    } else {
      assert Says(rs[n], after.announced.value);
    }
  }

  /** A reading announces an outage, or a recovery, exactly when it says so, the stretch of
      readings that say so is at least the debounce long, and listeners take the decoder to be
      the opposite. */
  lemma AnnouncedExactly(rs: seq<Reading>, debounceMs: nat, offline: bool)
    requires rs != []
    ensures
      var before, after := History(rs[..|rs| - 1], debounceMs).episodes, History(rs, debounceMs).episodes;
      (exists e :: after == before + [e] && e.offline == offline) <==>
      && Says(rs[|rs| - 1], offline)
      && Stands(rs[..|rs| - 1], before, !offline)
      && exists from: nat :: StretchFrom(rs, from, offline) && rs[|rs| - 1].now - rs[from].now >= debounceMs
  {
    var n := |rs| - 1;
    var before, f := History(rs[..n], debounceMs), History(rs, debounceMs);
    AnnouncedStands(rs[..n], debounceMs);
    CandidateFollows(rs, debounceMs);
    OpinionIsWhatItSays(rs[n]);
    assert f.watch == Observe(before.watch, rs[n], debounceMs).watch;
    AnnouncedWhen(before.watch, rs[n], debounceMs, offline);
    var o := Observe(before.watch, rs[n], debounceMs);
    assert f.episodes == if o.episode.Some? then before.episodes + [o.episode.value] else before.episodes;
    hide Observe, History, Offline, Stands;
    OneMoreEpisode(before.episodes, f.episodes, o.episode, offline);
    if Says(rs[n], offline) {
      var from: nat :| StretchFrom(rs, from, offline) && rs[from].now == f.watch.candidateSince;
      forall other: nat | StretchFrom(rs, other, offline) ensures other == from {
        OneStretch(rs, from, other, offline);
      }
    }
  }

  lemma AnnouncedWhen(w: Watch, r: Reading, debounceMs: nat, offline: bool)
    ensures
      var o := Observe(w, r, debounceMs);
      && (o.episode.Some? && o.episode.value.offline == offline <==>
          && Offline(r) == Some(offline) && w.announced == Some(!offline) && r.now - o.watch.candidateSince >= debounceMs)
      && (Offline(r) == Some(offline) ==> o.watch.candidate == Some(offline))
  {
    hide Offline;
    if Offline(r).Some? {
      var opinion := Offline(r).value;
      assert w.announced.None? || w.announced == Some(opinion) || w.announced == Some(!opinion) by {
        assert w.announced.Some? ==> w.announced.value == opinion || w.announced.value == !opinion;
      }
      if opinion != offline {
        assert opinion == !offline;
      }
    }
  }

  lemma OneMoreEpisode(before: seq<HealthEpisode>, after: seq<HealthEpisode>, episode: Option<HealthEpisode>, offline: bool)
    requires after == if episode.Some? then before + [episode.value] else before
    ensures (exists e :: after == before + [e] && e.offline == offline) <==> episode.Some? && episode.value.offline == offline
  {
    forall e | after == before + [e] ensures episode == Some(e) {
      assert |after| == |before| + 1;
      assert after[|before|] == e;
    }
  }
}
