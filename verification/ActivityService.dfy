/** The activity service as an object whose fields its methods update in place, each method
    proved to be steps of the runs of ActivityRuns. */
module Feed {
  import opened Activity
  import opened ActivityRuns
  import opened Wrappers

  class ActivityService {
    // The tables and the meta key.
    var sightings: seq<Sighting>
    var events: seq<Event>
    var milestones: set<MilestoneKey>
    var storedWatermark: Option<int>

    // The process.
    var running: bool
    var watermark: int
    var pendingClosed: set<int>
    var pendingImports: seq<Note>
    var pendingEpisodes: seq<Note>
    var pendingAlerts: seq<Note>
    var pendingFeederEpisodes: seq<Note>
    var pendingSelfAlerts: seq<Note>

    // What an observer remembers.
    ghost var initial: Option<int>
    ghost var published: seq<Key>
    ghost var handled: Notes
    ghost var examined: set<int>

    function Pending(): Notes
      reads this
    {
      Notes(pendingImports, pendingEpisodes, pendingAlerts, pendingFeederEpisodes, pendingSelfAlerts)
    }

    ghost function State(): State
      reads this
    {
      ActivityRuns.State(sightings, events, milestones, storedWatermark, initial,
                         if running then Some(Process(watermark, pendingClosed, Pending(), None)) else None, published, handled, examined)
    }

    constructor (history: seq<Sighting>)
      requires InOrder(history) && MaxId(history) >= 0
      ensures NewInstall(State()) && sightings == history
    {
      sightings, events, milestones, storedWatermark := history, [], {}, None;
      running, watermark, pendingClosed := false, 0, {};
      pendingImports, pendingEpisodes, pendingAlerts, pendingFeederEpisodes, pendingSelfAlerts := [], [], [], [], [];
      initial, published, handled, examined := None, [], NO_NOTES, {};
    }

    /** record_lifecycle: closes only. */
    method RecordLifecycle(closed: seq<int>)
      modifies this
      ensures pendingClosed == old(pendingClosed) + (set id | id in closed) && running == old(running) && Pending() == old(Pending())
      ensures State() == if running then Next(old(State()), Close(set id | id in closed)) else old(State())
    {
      for n := 0 to |closed|
        invariant State() == old(State()).(process := State().process)
        invariant running == old(running) && watermark == old(watermark) && Pending() == old(Pending())
        invariant pendingClosed == old(pendingClosed) + set id | id in closed[..n]
      {
        assert closed[..n + 1] == closed[..n] + [closed[n]];
        pendingClosed := pendingClosed + {closed[n]};
      }
      assert closed[..|closed|] == closed;
    }

    method RecordImport(results: seq<Note>)
      requires OtherNotes(NO_NOTES.(imports := results))
      modifies this
      ensures Pending() == Then(old(Pending()), NO_NOTES.(imports := results)) && running == old(running)
      ensures State() == if running then Next(old(State()), Submit(NO_NOTES.(imports := results))) else old(State())
    {
      pendingImports := pendingImports + results;
      assert Pending() == Then(old(Pending()), NO_NOTES.(imports := results));
    }

    method RecordAlertMatches(matches: seq<Note>)
      requires OtherNotes(NO_NOTES.(alerts := matches))
      modifies this
      ensures Pending() == Then(old(Pending()), NO_NOTES.(alerts := matches)) && running == old(running)
      ensures State() == if running then Next(old(State()), Submit(NO_NOTES.(alerts := matches))) else old(State())
    {
      pendingAlerts := pendingAlerts + matches;
      assert Pending() == Then(old(Pending()), NO_NOTES.(alerts := matches));
    }

    method RecordFeederEpisode(episode: Note)
      requires OtherNotes(NO_NOTES.(feeders := [episode]))
      modifies this
      ensures Pending() == Then(old(Pending()), NO_NOTES.(feeders := [episode])) && running == old(running)
      ensures State() == if running then Next(old(State()), Submit(NO_NOTES.(feeders := [episode]))) else old(State())
    {
      pendingFeederEpisodes := pendingFeederEpisodes + [episode];
      assert Pending() == Then(old(Pending()), NO_NOTES.(feeders := [episode]));
    }

    method RecordSelfAlert(episode: Note)
      requires OtherNotes(NO_NOTES.(selfAlerts := [episode]))
      modifies this
      ensures Pending() == Then(old(Pending()), NO_NOTES.(selfAlerts := [episode])) && running == old(running)
      ensures State() == if running then Next(old(State()), Submit(NO_NOTES.(selfAlerts := [episode]))) else old(State())
    {
      pendingSelfAlerts := pendingSelfAlerts + [episode];
      assert Pending() == Then(old(Pending()), NO_NOTES.(selfAlerts := [episode]));
    }

    /** _initial_watermark: the stored one, or on a first ever boot the newest sighting's id,
        written down. */
    method InitialWatermark() returns (w: int)
      modifies `storedWatermark, `initial
      ensures storedWatermark == Some(w)
      ensures old(storedWatermark).Some? ==> storedWatermark == old(storedWatermark) && initial == old(initial)
      ensures old(storedWatermark).None? ==> w == MaxId(sightings) && initial == Some(w)
    {
      if storedWatermark.Some? {
        return storedWatermark.value;
      }
      w := MaxId(sightings);
      storedWatermark := Some(w);
      initial := Some(w);
    }

    /** start: the watermark from the database, on top of whatever was reported before. */
    method Start()
      requires !running && OtherNotes(Pending())
      modifies this
      ensures State() == Next(old(State()), ActivityRuns.Start(old(Pending()), old(pendingClosed)))
    {
      watermark := InitialWatermark();
      running := true;
      hide MaxId;
    }

    /** flush: drain, scan, detect, record, write the watermark; on an error put back what was
        drained, in front. How far the writes get and how the pass ends come from outside. */
    method Flush(limit: nat, progress: Progress, ending: Ending, detected: Batch, military: Batch)
      requires running && Feasible(State(), BeginPass(limit))
      requires Feasible(Next(State(), BeginPass(limit)), EndPass(progress, ending, detected, military))
      modifies this
      ensures State() == Next(Next(old(State()), BeginPass(limit)), EndPass(progress, ending, detected, military))
    {
      hide Scan, Fresh, FirstEverEvents, Merged, Insert, EventKeys, MilestoneKeys, OtherBatch, KeySeq, Then, Feasible, EventsOf;
      ghost var begun := Next(State(), BeginPass(limit));
      var closed, notes := Drain();
      var scanned := Scan(sightings, watermark, limit);
      ghost var pass := Pass(closed, notes, scanned);
      assert begun.process == Some(Process(watermark, {}, NO_NOTES, Some(pass)));
      var batch := Detect(closed, notes, scanned, detected, military);
      var to := ScannedTo(scanned, watermark);
      var created := Write(batch, to, progress);
      Conclude(closed, notes, to, ending, created);
      assert State().process == match ending
                                case Completed => Some(Process(to, {}, NO_NOTES, None))
                                case Raised => Some(Process(begun.process.value.watermark, {} + closed, Then(notes, NO_NOTES), None))
                                case Cancelled => Some(Process(begun.process.value.watermark, {}, NO_NOTES, None))
                                case Killed => None;
      FlushEnds(begun, State(), pass, progress, ending, detected, military, batch, created);
    }

    method Drain() returns (closed: set<int>, notes: Notes)
      modifies `pendingClosed, `pendingImports, `pendingEpisodes, `pendingAlerts, `pendingFeederEpisodes, `pendingSelfAlerts
      ensures closed == old(pendingClosed) && notes == old(Pending())
      ensures pendingClosed == {} && Pending() == NO_NOTES
    {
      closed, notes := pendingClosed, Pending();
      pendingClosed := {};
      pendingImports, pendingEpisodes, pendingAlerts, pendingFeederEpisodes, pendingSelfAlerts := [], [], [], [], [];
    }

    method Detect(closed: set<int>, notes: Notes, scanned: seq<int>, detected: Batch, military: Batch) returns (batch: Batch)
      ensures batch == Detected(sightings, watermark, Pass(closed, notes, scanned), detected, military)
    {
      hide Fresh, FirstEverEvents, Merged, EventsOf;
      var firsts := ProduceFirstEver(sightings, Fresh(sightings, scanned, closed, watermark));
      batch := Merge([firsts, detected, Batch(EventsOf(notes.health), []), Batch(EventsOf(notes.imports), []),
                      Batch(EventsOf(notes.alerts), []), Batch(EventsOf(notes.feeders), []),
                      Batch(EventsOf(notes.selfAlerts), []), military]);
    }

    /** The two transactions, as far as they get. */
    method Write(batch: Batch, to: int, progress: Progress) returns (created: seq<Event>)
      modifies `events, `milestones, `storedWatermark
      ensures progress == Nothing ==> events == old(events) && milestones == old(milestones) && created == []
      ensures progress != Nothing ==>
                && milestones == old(milestones) + MilestoneKeys(batch.milestones)
                && events == Insert(old(events), batch.events) == old(events) + created
      ensures storedWatermark == if progress == Marked && to != watermark then Some(to) else old(storedWatermark)
    {
      hide Insert, MilestoneKeys;
      created := [];
      if progress != Nothing {
        milestones := milestones + MilestoneKeys(batch.milestones);
        events, created := Record(events, batch.events);
      }
      if progress == Marked && to != watermark {
        storedWatermark := Some(to);
      }
    }

    /** After the writes: advance and publish, or put the drained work back in front, or stop
        where the pass was cancelled or killed. */
    method Conclude(closed: set<int>, notes: Notes, to: int, ending: Ending, created: seq<Event>)
      modifies `running, `watermark, `pendingClosed, `pendingImports, `pendingEpisodes, `pendingAlerts,
               `pendingFeederEpisodes, `pendingSelfAlerts, `published, `handled, `examined
      ensures published == if ending == Completed then old(published) + KeySeq(created) else old(published)
      ensures handled == if ending == Completed then Then(old(handled), notes) else old(handled)
      ensures examined == if ending == Completed then old(examined) + closed else old(examined)
      ensures running == (old(running) && ending != Killed)
      ensures watermark == if ending == Completed then to else old(watermark)
      ensures pendingClosed == match ending
                               case Raised => old(pendingClosed) + closed
                               case Killed => {}
                               case _ => old(pendingClosed)
      ensures Pending() == match ending
                           case Raised => Then(notes, old(Pending()))
                           case Killed => NO_NOTES
                           case _ => old(Pending())
    {
      hide KeySeq;
      match ending {
        case Completed => {
          watermark := to;
          published := published + KeySeq(created);
          handled := Then(handled, notes);
          examined := examined + closed;
        }
        case Raised => {
          pendingClosed := pendingClosed + closed;
          PutBack(notes);
        }
        case Cancelled =>
        case Killed => {
          running := false;
          var _, _ := Drain();
        }
      }
    }

    /** Restores drained notes in front of what arrived since. */
    method PutBack(notes: Notes)
      modifies `pendingImports, `pendingEpisodes, `pendingAlerts, `pendingFeederEpisodes, `pendingSelfAlerts
      ensures Pending() == Then(notes, old(Pending()))
    {
      pendingImports := notes.imports + pendingImports;
      pendingEpisodes := notes.health + pendingEpisodes;
      pendingAlerts := notes.alerts + pendingAlerts;
      pendingFeederEpisodes := notes.feeders + pendingFeederEpisodes;
      pendingSelfAlerts := notes.selfAlerts + pendingSelfAlerts;
    }
  }

  /** The end of a flush, compared field by field with the end of a pass. */
  lemma FlushEnds(begun: State, t: State, pass: Pass, progress: Progress, ending: Ending, detected: Batch, military: Batch,
                  batch: Batch, created: seq<Event>)
    requires Feasible(begun, EndPass(progress, ending, detected, military)) && begun.process.value.pass == Some(pass)
    requires batch == Detected(begun.sightings, begun.process.value.watermark, pass, detected, military)
    requires t.sightings == begun.sightings && t.initial == begun.initial
    requires progress == Nothing ==> t.events == begun.events && t.milestones == begun.milestones && created == []
    requires progress != Nothing ==>
               && t.milestones == begun.milestones + MilestoneKeys(batch.milestones)
               && t.events == Insert(begun.events, batch.events) == begun.events + created
    requires
      var p := begun.process.value;
      var to := ScannedTo(pass.scanned, p.watermark);
      && t.stored == (if progress == Marked && to != p.watermark then Some(to) else begun.stored)
      && t.published == (if ending == Completed then begun.published + KeySeq(created) else begun.published)
      && t.handled == (if ending == Completed then Then(begun.handled, pass.notes) else begun.handled)
      && t.examined == (if ending == Completed then begun.examined + pass.closed else begun.examined)
      && t.process == (match ending
                       case Completed => Some(Process(to, p.closed, p.pending, None))
                       case Raised => Some(Process(p.watermark, p.closed + pass.closed, Then(pass.notes, p.pending), None))
                       case Cancelled => Some(Process(p.watermark, p.closed, p.pending, None))
                       case Killed => None)
    ensures t == Next(begun, EndPass(progress, ending, detected, military))
  {
    hide Detected, Insert, MilestoneKeys, KeySeq, Then, ScannedTo, OtherBatch;
    assert t.events[|begun.events|..] == created;
  }
}
