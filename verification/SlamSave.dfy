/** The SLAM save state of a robot (packages/api/mapping_switch.py): what is remembered, in memory and in
    the store, from a started recording to its end. Each step is what runs between two awaits; the robot
    may answer anything, and writes of one robot reach the store in the order they are made. */
module SlamState {
  import opened Common

  datatype Phase = Recording | Saving | SaveFailed
  /** The persisted row: the phase (`recording` stands in when only an intent is kept) and the intent. */
  datatype Stored = Stored(phase: Phase, intent: bool)

  /** Which call holds the robot's lock: every caller of start_slam, schedule_slam_save, mark_failed, discard_slam
      and forget takes it. Scheduling a tracked save and marking a failed one are over in one step; deleting a robot
      schedules saves that are not tracked and then forgets it. */
  datatype Caller = Starting | Discarding | Deleting

  /** Who is inside the robot's SLAM lock. */
  datatype Holder = ByStart | BySave(k: nat) | ByDiscard

  /** A background save: its `saving` is still to be persisted, it may save, or its save came to its end. */
  datatype Stage = Unsaved | Ready | Ended
  /** `since`: how many recordings had been started when it was scheduled. */
  datatype Task = Task(tracked: bool, stage: Stage, since: nat)

  /** `saves`: the save tasks that are not done; `pending`: the one registered for the robot; `started`: the starts that
      were answered `started`; `tracking`: nothing has ended the latest of those recordings since. */
  datatype State = State(phase: Option<Phase>, intent: bool, disk: Option<Stored>, robot: Option<Caller>,
                         lock: Option<Holder>, saves: map<nat, Task>, pending: Option<nat>, started: nat,
                         tracking: bool)

  const FRESH: State := State(None, false, None, None, None, map[], None, 0, false)

  datatype Result = Clean | Notice | Nothing | Failure

  /** `lost`: the write did not reach the store. */
  datatype Step =
    | StartCheck
    | StartAcquire
    | StartEnd(started: bool, switched: bool, lost: bool)  // switched: the mode was changed
    | Schedule(k: nat, track: bool)
    | PersistSaving(k: nat, lost: bool)
    | SaveAcquire(k: nat)
    | SaveEnd(k: nat, result: Result, lost: bool)
    | TaskDone(k: nat)
    | MarkFailed(lost: bool)
    | DiscardCheck
    | DiscardAcquire
    | DiscardEnd(ok: bool, lost: bool)
    | Forget(lost: bool)
    | Restart(loaded: bool, lost: bool)                    // loaded: the store could be read

  predicate SavePending(s: State) {
    s.pending.Some? && s.pending.value in s.saves
  }

  predicate Enabled(s: State, a: Step) {
    match a
    case StartCheck => s.robot.None?
    case StartAcquire => s.robot == Some(Starting) && s.lock.None?
    case StartEnd(started, switched, _) =>
      s.robot == Some(Starting) && s.lock == Some(ByStart) && (started ==> switched)
    case Schedule(k, track) => k !in s.saves && (s.robot.None? || (!track && s.robot == Some(Deleting)))
    case PersistSaving(k, _) => k in s.saves && s.saves[k].stage == Unsaved
    case SaveAcquire(k) => k in s.saves && s.saves[k].stage == Ready && s.lock.None?
    case SaveEnd(k, _, _) => k in s.saves && s.lock == Some(BySave(k))
    case TaskDone(k) => k in s.saves && s.saves[k].stage == Ended
    case MarkFailed(_) => s.robot.None?
    case DiscardCheck => s.robot.None?
    case DiscardAcquire => s.robot == Some(Discarding) && s.lock.None?
    case DiscardEnd(_, _) => s.robot == Some(Discarding) && s.lock == Some(ByDiscard)
    case Forget(_) => s.robot.None? || s.robot == Some(Deleting)
    case Restart(_, _) => true
  }

  /** start_slam is refused while a save is pending and while one failed. */
  predicate Refused(s: State) {
    SavePending(s) || s.phase == Some(SaveFailed)
  }

  /** _persist: delete without phase and intent, else put. */
  function Persisted(s: State, lost: bool): State {
    if lost then s
    else s.(disk := if s.phase.None? && !s.intent then None
                    else Some(Stored(if s.phase.Some? then s.phase.value else Recording, s.intent)))
  }

  /** load_state at an API start: a save that was running is failed now; nothing, if the store cannot be read. */
  function Loaded(s: State, loaded: bool, lost: bool): State {
    var empty := State(None, false, s.disk, None, None, map[], None, s.started, s.tracking);
    if !loaded || s.disk.None? then empty
    else if s.disk.value.phase == Saving then
      Persisted(empty.(phase := Some(SaveFailed), intent := s.disk.value.intent), lost)
    else empty.(phase := Some(s.disk.value.phase), intent := s.disk.value.intent)
  }

  function Apply(s: State, a: Step): State
    requires Enabled(s, a)
  {
    match a
    case StartCheck => if Refused(s) then s else s.(robot := Some(Starting))
    case StartAcquire => s.(lock := Some(ByStart))
    case StartEnd(started, switched, lost) =>
      var m := s.(robot := None, lock := None, intent := s.intent || switched);
      if started then Persisted(m.(phase := Some(Recording), started := s.started + 1, tracking := true), lost) else m
    case Schedule(k, track) =>
      s.(phase := if track then Some(Saving) else s.phase, robot := if track then s.robot else Some(Deleting),
         pending := Some(k), saves := s.saves[k := Task(track, if track then Unsaved else Ready, s.started)])
    case PersistSaving(k, lost) => Persisted(s.(saves := s.saves[k := s.saves[k].(stage := Ready)]), lost)
    case SaveAcquire(k) => s.(lock := Some(BySave(k)))
    case SaveEnd(k, result, lost) =>
      var m := s.(lock := None, saves := s.saves[k := s.saves[k].(stage := Ended)],
                  intent := s.intent && result != Clean && !(result == Nothing && s.saves[k].tracked));
      if !s.saves[k].tracked then m
      else if result == Failure || result == Notice then Persisted(m.(phase := Some(SaveFailed)), lost)
      else Persisted(m.(phase := None, tracking := s.tracking && s.saves[k].since < s.started), lost)
    case TaskDone(k) => s.(saves := s.saves - {k}, pending := if s.pending == Some(k) then None else s.pending)
    case MarkFailed(lost) => Persisted(s.(phase := Some(SaveFailed)), lost)
    case DiscardCheck => if SavePending(s) || s.phase != Some(SaveFailed) then s else s.(robot := Some(Discarding))
    case DiscardAcquire => s.(lock := Some(ByDiscard))
    case DiscardEnd(ok, lost) =>
      var m := s.(robot := None, lock := None);
      if ok then Persisted(m.(intent := false, phase := None, tracking := false), lost) else m
    case Forget(lost) =>
      var m := s.(phase := None, intent := s.intent && SavePending(s), robot := None, tracking := false);
      if lost then m else m.(disk := None)
    case Restart(loaded, lost) => Loaded(s, loaded, lost)
  }

  ghost predicate IsRun(s: State, run: seq<Step>)
    decreases |run|, 0
  {
    run == [] || (IsRun(s, Front(run)) && Enabled(After(s, Front(run)), Last(run)))
  }

  ghost function After(s: State, run: seq<Step>): State
    requires IsRun(s, run)
    decreases |run|, 1
  {
    if run == [] then s else Apply(After(s, Front(run)), Last(run))
  }

  // --- no start while a save is pending ------------------------------------------------------------------

  /** The registered save is a task that is not done, a start is only under way without one, and `saving` is said only
      while a tracked save has not come to its end. */
  ghost predicate Inv(s: State) {
    && (s.pending.Some? ==> s.pending.value in s.saves)
    && (s.robot == Some(Starting) ==> s.pending.None?)
    && SavingHasTask(s)
  }

  ghost predicate SavingHasTask(s: State) {
    s.phase == Some(Saving) ==> exists k | k in s.saves :: s.saves[k].tracked && s.saves[k].stage != Ended
  }

  lemma SavingStep(s: State, a: Step)
    requires SavingHasTask(s) && Enabled(s, a)
    ensures SavingHasTask(Apply(s, a))
  {
    var s' := Apply(s, a);
    if s'.phase == Some(Saving) {
      if a.Schedule? && a.track {
        assert s'.saves[a.k].tracked;
      } else {
        var k :| k in s.saves && s.saves[k].tracked && s.saves[k].stage != Ended;
        assert k in s'.saves && s'.saves[k].tracked;
      }
    }
  }

  lemma InvStep(s: State, a: Step)
    requires Inv(s) && Enabled(s, a)
    ensures Inv(Apply(s, a))
  {
    SavingStep(s, a);
  }

  lemma {:induction false} RunsKeepInv(run: seq<Step>)
    requires IsRun(FRESH, run)
    ensures Inv(After(FRESH, run))
  {
    if run != [] {
      RunsKeepInv(Front(run));
      InvStep(After(FRESH, Front(run)), Last(run));
    }
  }

  /** In every interleaving, restarts included, no start is under way while a save is pending: none passes its check
      then, and a save cannot be scheduled while one is past it. */
  lemma NoStartWhileSavePending(run: seq<Step>, a: Step)
    requires IsRun(FRESH, run) && Enabled(After(FRESH, run), a)
    ensures var s := After(FRESH, run);
            && !(s.robot == Some(Starting) && SavePending(s))
            && (a.StartAcquire? || a.StartEnd? ==> !SavePending(s))
            && (a.StartCheck? && SavePending(s) ==> Apply(s, a) == s)
  {
    RunsKeepInv(run);
  }

  /** The save that was scheduled last since the last restart. */
  function LastScheduled(run: seq<Step>): Option<nat> {
    if run == [] then None else Scheduled(LastScheduled(Front(run)), Last(run))
  }

  function Scheduled(last: Option<nat>, a: Step): Option<nat> {
    if a.Restart? then None else if a.Schedule? then Some(a.k) else last
  }

  /** Only the save scheduled last counts as pending. */
  predicate PendingIsLast(s: State, last: Option<nat>) {
    && s.pending == (if last.Some? && last.value in s.saves then last else None)
    && (last.None? ==> s.saves == map[])
  }

  lemma PendingStep(s: State, last: Option<nat>, a: Step)
    requires PendingIsLast(s, last) && Enabled(s, a)
    ensures PendingIsLast(Apply(s, a), Scheduled(last, a))
  {
  }

  lemma {:induction false} LastIsPending(run: seq<Step>)
    requires IsRun(FRESH, run)
    ensures PendingIsLast(After(FRESH, run), LastScheduled(run))
  {
    if run != [] {
      LastIsPending(Front(run));
      PendingStep(After(FRESH, Front(run)), LastScheduled(Front(run)), Last(run));
    }
  }

  predicate Unfinished(s: State, k: nat) { k in s.saves && s.saves[k].stage != Ended }

  /** Saves of one robot can overlap: a session that could not record ends while the save before it still runs. While
      save `k` is unfinished a start passes its check if and only if a save scheduled after `k` is done and the
      state is not `failed`. */
  lemma StartPastOlderSaveIff(run: seq<Step>, k: nat)
    requires IsRun(FRESH, run)
    requires var s := After(FRESH, run); s.robot.None? && Unfinished(s, k)
    ensures var s := After(FRESH, run); var last := LastScheduled(run);
            Apply(s, StartCheck).robot == Some(Starting) <==>
              last.Some? && last.value != k && last.value !in s.saves && s.phase != Some(SaveFailed)
  {
    LastIsPending(run);
  }

  /** Two sessions finish one after the other, and the second save, whose write is faster, finds nothing to save and is
      done before the first begins. */
  lemma OvertakingSave() returns (run: seq<Step>)
    ensures run == [Schedule(1, true), Schedule(2, true), PersistSaving(2, false), SaveAcquire(2),
                    SaveEnd(2, Nothing, false), TaskDone(2)]
    ensures IsRun(FRESH, run)
    ensures After(FRESH, run) == FRESH.(saves := map[1 := Task(true, Unsaved, 0)])
  {
    run := TwoScheduled();
    run := Extend(run, SaveAcquire(2));
    run := Extend(run, SaveEnd(2, Nothing, false));
    assert After(FRESH, run) == FRESH.(saves := map[1 := Task(true, Unsaved, 0), 2 := Task(true, Ended, 0)],
                                       pending := Some(2));
    run := Extend(run, TaskDone(2));
    assert After(FRESH, run).saves == map[1 := Task(true, Unsaved, 0)];
  }

  lemma TwoScheduled() returns (run: seq<Step>)
    ensures run == [Schedule(1, true), Schedule(2, true), PersistSaving(2, false)]
    ensures IsRun(FRESH, run)
    ensures After(FRESH, run) == FRESH.(phase := Some(Saving), disk := Some(Stored(Saving, false)), pending := Some(2),
                                        saves := map[1 := Task(true, Unsaved, 0), 2 := Task(true, Ready, 0)])
  {
    run := Extend([], Schedule(1, true));
    run := Extend(run, Schedule(2, true));
    run := Extend(run, PersistSaving(2, false));
    assert After(FRESH, run).saves == map[1 := Task(true, Unsaved, 0), 2 := Task(true, Ready, 0)];
  }

  /** So it happens: a start passes its check beside an unfinished save. */
  lemma OvertakenSaveLetsStartIn() returns (run: seq<Step>)
    ensures IsRun(FRESH, run)
    ensures var s := After(FRESH, run);
            Unfinished(s, 1) && s.robot.None? && Apply(s, StartCheck).robot == Some(Starting)
  {
    run := OvertakingSave();
  }

  lemma Extend(run: seq<Step>, a: Step) returns (longer: seq<Step>)
    requires IsRun(FRESH, run) && Enabled(After(FRESH, run), a)
    ensures longer == run + [a] && IsRun(FRESH, longer) && After(FRESH, longer) == Apply(After(FRESH, run), a)
  {
    longer := run + [a];
    assert Front(longer) == run;
  }

  /** Who gets past their checks: a start without a pending save and without a failed one, a discard with a failed save
      that no retry is pending for. */
  lemma ChecksMean(s: State)
    requires s.robot.None?
    ensures var pending := s.pending.Some? && s.pending.value in s.saves;
            && (Apply(s, StartCheck).robot == Some(Starting) <==> !pending && s.phase != Some(SaveFailed))
            && (Apply(s, DiscardCheck).robot == Some(Discarding) <==> !pending && s.phase == Some(SaveFailed))
  {
  }

  // --- a started recording stays tracked -----------------------------------------------------------------

  /** A recording that was started and not ended has a state in memory. */
  predicate Tracked(s: State) { s.tracking ==> s.phase.Some? }

  /** A tracked save comes to its end without notice, or finds nothing to save. */
  predicate Saves(s: State, a: Step)
    requires Enabled(s, a)
  {
    a.SaveEnd? && s.saves[a.k].tracked && (a.result == Clean || a.result == Nothing)
  }

  /** An API start that does not find the recording, because its row is not there or cannot be read; or the end of a
      save that was scheduled before the recording was started. */
  predicate Forgets(s: State, a: Step)
    requires Enabled(s, a)
  {
    || (a.Restart? && s.tracking && (s.disk.None? || !a.loaded))
    || (Saves(s, a) && s.tracking && s.saves[a.k].since < s.started)
  }

  lemma TrackedStepIff(s: State, a: Step)
    requires Tracked(s) && Enabled(s, a)
    ensures Tracked(Apply(s, a)) <==> !Forgets(s, a)
  {
  }

  ghost predicate AlwaysTracked(run: seq<Step>)
    requires IsRun(FRESH, run)
  {
    Tracked(After(FRESH, run)) && (run == [] || AlwaysTracked(Front(run)))
  }

  ghost predicate NeverForgets(run: seq<Step>)
    requires IsRun(FRESH, run)
  {
    run == [] || (NeverForgets(Front(run)) && !Forgets(After(FRESH, Front(run)), Last(run)))
  }

  /** Once a start was answered `started` the robot stays tracked as recording, saving or failed until its save,
      a discard or its deletion, throughout a run of starts, saves, marks, discards, deletions and restarts,
      if and only if no restart misses its row and no older save ends meanwhile. */
  lemma {:induction false} StaysTrackedIff(run: seq<Step>)
    requires IsRun(FRESH, run)
    ensures AlwaysTracked(run) <==> NeverForgets(run)
  {
    if run != [] {
      StaysTrackedIff(Front(run));
      if AlwaysTracked(Front(run)) {
        TrackedStepIff(After(FRESH, Front(run)), Last(run));
      }
    }
  }

  /** What takes a robot's state away, read off the step. */
  predicate Ends(s: State, a: Step)
    requires Enabled(s, a)
  {
    Saves(s, a)
    || (a.DiscardEnd? && a.ok)
    || a.Forget?
  }

  /** The state a robot has goes away exactly by a tracked save without notice, nothing to save, a successful discard,
      a deletion, or a restart that misses its row. */
  lemma PhaseEndsIff(s: State, a: Step)
    requires Enabled(s, a) && s.phase.Some?
    ensures Apply(s, a).phase.None? <==> Ends(s, a) || (a.Restart? && (s.disk.None? || !a.loaded))
  {
  }

  /** The intent from before a start is kept from the mode change on, and goes exactly by a save without notice, nothing
      to save, a successful discard, a deletion without a pending save, or a restart on a store without it. */
  lemma IntentKeptIff(s: State, a: Step)
    requires Enabled(s, a)
    ensures s.intent ==>
              (!Apply(s, a).intent <==>
                 || (a.SaveEnd? && (a.result == Clean || (a.result == Nothing && s.saves[a.k].tracked)))
                 || (a.DiscardEnd? && a.ok)
                 || (a.Forget? && !(s.pending.Some? && s.pending.value in s.saves))
                 || (a.Restart? && (!a.loaded || s.disk.None? || !s.disk.value.intent)))
    ensures !s.intent ==>
              (Apply(s, a).intent <==>
                 (a.StartEnd? && a.switched) || (a.Restart? && a.loaded && s.disk.Some? && s.disk.value.intent))
  {
  }

  /** A write and a restart that reads it bring back the intent and the state, a running save as failed, unless there is
      an intent alone: that reloads as `recording`. */
  lemma RestartRestoresIff(s: State, lost: bool)
    ensures var r := Loaded(Persisted(s, false), true, lost);
            && r.intent == s.intent
            && (r.phase == (if s.phase == Some(Saving) then Some(SaveFailed) else s.phase)
                <==> s.phase.Some? || !s.intent)
  {
  }

  /** No step of the run ends the recording or fails to read the store. */
  ghost predicate Continues(s: State, run: seq<Step>)
    requires IsRun(s, run)
  {
    run == [] || (Continues(s, Front(run)) && !Ends(After(s, Front(run)), Last(run))
                  && (Last(run).Restart? ==> Last(run).loaded))
  }

  lemma RowStays(s: State, a: Step)
    requires Enabled(s, a) && s.phase.Some? && s.disk.Some? && !Ends(s, a) && (a.Restart? ==> a.loaded)
    ensures Apply(s, a).phase.Some? && Apply(s, a).disk.Some?
  {
  }

  /** A row in the store stays until the recording ends, so one write that arrived is enough for every later restart
      that can read the store. */
  lemma {:induction false} SurvivesRestarts(s: State, run: seq<Step>)
    requires IsRun(s, run) && s.phase.Some? && s.disk.Some? && Continues(s, run)
    ensures After(s, run).phase.Some? && After(s, run).disk.Some?
  {
    if run != [] {
      SurvivesRestarts(s, Front(run));
      RowStays(After(s, Front(run)), Last(run));
    }
  }

  /** A start whose write is lost. */
  lemma StartNotWritten() returns (run: seq<Step>)
    ensures |run| == 3 && IsRun(FRESH, run)
    ensures After(FRESH, run) == FRESH.(phase := Some(Recording), intent := true, started := 1, tracking := true)
  {
    run := Extend([], StartCheck);
    run := Extend(run, StartAcquire);
    run := Extend(run, StartEnd(true, true, true));
  }

  /** With a restart after it the recording is forgotten. */
  lemma LostWriteForgets() returns (run: seq<Step>)
    ensures |run| == 4 && run[3] == Restart(true, false)
    ensures IsRun(FRESH, run) && After(FRESH, run) == FRESH.(started := 1, tracking := true)
  {
    run := StartNotWritten();
    run := Extend(run, Restart(true, false));
  }

  /** A write that arrives before the restart repairs it. */
  lemma LaterWriteRepairs() returns (run: seq<Step>)
    ensures |run| == 5 && run[3] == MarkFailed(false) && run[4] == Restart(true, false)
    ensures IsRun(FRESH, run) && After(FRESH, run).tracking && After(FRESH, run).phase == Some(SaveFailed)
  {
    run := StartNotWritten();
    run := Extend(run, MarkFailed(false));
    assert After(FRESH, run).disk == Some(Stored(SaveFailed, true));
    run := Extend(run, Restart(true, false));
  }

  /** Without any restart: a save that was overtaken ends after the next recording was started, and takes its state, in
      memory and in the store, away. */
  lemma OlderSaveForgets() returns (run: seq<Step>)
    ensures IsRun(FRESH, run) && forall n | 0 <= n < |run| :: !run[n].Restart?
    ensures var s := After(FRESH, run); s.tracking && s.phase.None? && s.disk.None?
    ensures !AlwaysTracked(run) && !NeverForgets(run)
  {
    run := StartBesideOldSave();
    run := Extend(run, PersistSaving(1, true));
    run := Extend(run, SaveAcquire(1));
    run := Extend(run, SaveEnd(1, Clean, false));
    StaysTrackedIff(run);
  }

  lemma StartBesideOldSave() returns (run: seq<Step>)
    ensures IsRun(FRESH, run) && forall n | 0 <= n < |run| :: !run[n].Restart?
    ensures After(FRESH, run)
         == FRESH.(phase := Some(Recording), intent := true, started := 1, tracking := true,
                   disk := Some(Stored(Recording, true)), saves := map[1 := Task(true, Unsaved, 0)])
  {
    run := OvertakingSave();
    run := Extend(run, StartCheck);
    run := Extend(run, StartAcquire);
    run := Extend(run, StartEnd(true, true, false));
  }

  // --- a restart in the middle of a save -----------------------------------------------------------------

  /** A failed save that survives restarts: no save runs, no start does, and the store will say `failed`. */
  predicate Stuck(s: State) {
    && s.phase == Some(SaveFailed) && s.saves == map[] && s.pending.None? && s.robot != Some(Starting)
    && s.disk.Some? && s.disk.value.phase != Recording
    && (s.lock.Some? ==> s.lock.value.ByDiscard?)
  }

  /** A retry of the save, a successful discard, the robot's deletion, or a restart that cannot read the store. */
  predicate Resolves(a: Step) {
    a.Schedule? || (a.DiscardEnd? && a.ok) || a.Forget? || (a.Restart? && !a.loaded)
  }

  lemma StuckStep(s: State, a: Step)
    requires Stuck(s) && Enabled(s, a) && !Resolves(a)
    ensures Stuck(Apply(s, a))
  {
  }

  /** The API stops while the store says `saving`. From its next start on every start_slam is refused, through further
      restarts and whether or not the new state could be written, until one of those four. */
  lemma {:induction false} RestartedSaveBlocksStarts(s: State, lost: bool, run: seq<Step>)
    requires s.disk.Some? && s.disk.value.phase == Saving
    requires IsRun(Loaded(s, true, lost), run) && forall n | 0 <= n < |run| :: !Resolves(run[n])
    ensures Stuck(After(Loaded(s, true, lost), run)) && Refused(After(Loaded(s, true, lost), run))
    ensures forall n | 0 <= n < |run| :: !run[n].StartAcquire? && !run[n].StartEnd?
  {
    if run != [] {
      var before := After(Loaded(s, true, lost), Front(run));
      assert forall n | 0 <= n < |run| - 1 :: Front(run)[n] == run[n];
      RestartedSaveBlocksStarts(s, lost, Front(run));
      StuckStep(before, Last(run));
    }
  }
}

/** save_slam: the save requests one call can send, and how it ends, for whatever the robot answers. */
module SaveLoop {
  datatype Config = Config(startTries: nat, maxAttempts: nat, pollErrors: nat, pollS: real, totalS: real)

  /** `slow`: it did not finish in time, rather than being refused. */
  datatype Outcome = Saved | NothingToSave | GaveUp(slow: bool)

  /** To a save request: accepted; no HTTP answer; 409, with what the status and the mode then say; another error. */
  datatype StartAnswer =
    | Accepted | NoReply(timeout: bool) | Conflict(running: bool, inSlam: bool)
    | HttpError(unavailable: bool, inProgress: bool)

  /** To a status read, of this map's save. */
  datatype StatusAnswer = Done | Failed(slow: bool) | Undecided | NoAnswer

  /** What the robot answers in one attempt. */
  datatype Robot = Robot(starts: nat -> StartAnswer, polls: nat -> StatusAnswer)

  // --- asking --------------------------------------------------------------------------------------------

  predicate Starts(a: StartAnswer) {
    a.Accepted? || (a.Conflict? && a.running)
  }

  function Refusal(a: StartAnswer): Outcome
    requires !Starts(a)
  {
    match a
    case NoReply(timeout) => GaveUp(timeout)
    case Conflict(_, inSlam) => if inSlam then GaveUp(false) else NothingToSave
    case HttpError(_, inProgress) => GaveUp(inProgress)
  }

  predicate TriedAgain(a: StartAnswer) { a.HttpError? && a.unavailable }

  /** `sent` requests, all but the last answered 503; the last one decides.
      Without any try the polling begins at once. */
  ghost predicate RequestGives(cfg: Config, r: Robot, sent: nat, refused: bool, out: Outcome) {
    && sent <= cfg.startTries && (sent == 0 <==> cfg.startTries == 0)
    && (forall i :: 0 <= i < sent - 1 ==> TriedAgain(r.starts(i)))
    && (0 < sent < cfg.startTries ==> !TriedAgain(r.starts(sent - 1)))
    && (refused <==> sent > 0 && !Starts(r.starts(sent - 1)))
    && (refused ==> out == Refusal(r.starts(sent - 1)))
  }

  method Request(cfg: Config, r: Robot) returns (sent: nat, refused: bool, out: Outcome)
    ensures RequestGives(cfg, r, sent, refused, out)
  {
    sent, refused, out := 0, false, GaveUp(false);
    while sent < cfg.startTries
      invariant sent <= cfg.startTries && !refused
      invariant forall i :: 0 <= i < sent ==> TriedAgain(r.starts(i))
      invariant sent == cfg.startTries ==> sent == 0
    {
      var a := r.starts(sent);
      sent := sent + 1;
      if Starts(a) {
        return;
      }
      if !TriedAgain(a) || sent == cfg.startTries {
        refused, out := true, Refusal(a);
        return;
      }
    }
  }

  // --- polling -------------------------------------------------------------------------------------------

  /** Polls that fit while waited <= totalS. */
  function PollBudget(cfg: Config): nat
    requires cfg.pollS > 0.0
  {
    if cfg.totalS < 0.0 then 0 else (cfg.totalS / cfg.pollS).Floor + 1
  }

  lemma WaitedWithinBudget(cfg: Config, n: nat)
    requires cfg.pollS > 0.0
    ensures n as real * cfg.pollS <= cfg.totalS <==> n < PollBudget(cfg)
  {
    var q := cfg.totalS / cfg.pollS;
    assert q * cfg.pollS == cfg.totalS;
    Scaled(n as real, q, cfg.pollS);
  }

  lemma Scaled(a: real, b: real, k: real)
    requires k > 0.0
    ensures a <= b <==> a * k <= b * k
  {
    if a <= b {
      assert (b - a) * k >= 0.0;
    } else {
      assert (a - b) * k > 0.0;
    }
  }

  /** Status reads without an answer in a row, up to read `i`. */
  function ErrorsInARow(r: Robot, i: nat): nat {
    if !r.polls(i).NoAnswer? then 0 else 1 + (if i == 0 then 0 else ErrorsInARow(r, i - 1))
  }

  predicate Decides(cfg: Config, r: Robot, i: nat) {
    r.polls(i).Done? || r.polls(i).Failed? || (r.polls(i).NoAnswer? && ErrorsInARow(r, i) >= cfg.pollErrors)
  }

  function Verdict(a: StatusAnswer): Outcome {
    match a
    case Done => Saved
    case Failed(slow) => GaveUp(slow)
    case _ => GaveUp(false)
  }

  /** The first status read that decides does, among those that fit; with none of them time is up. */
  ghost predicate PollGives(cfg: Config, r: Robot, polls: nat, out: Outcome)
    requires cfg.pollS > 0.0
  {
    && polls <= PollBudget(cfg)
    && (forall i :: 0 <= i < polls - 1 ==> !Decides(cfg, r, i))
    && if polls > 0 && Decides(cfg, r, polls - 1) then out == Verdict(r.polls(polls - 1))
       else out == GaveUp(true) && polls == PollBudget(cfg)
  }

  method Poll(cfg: Config, r: Robot) returns (polls: nat, out: Outcome)
    requires cfg.pollS > 0.0
    ensures PollGives(cfg, r, polls, out)
  {
    var waited, errors := 0.0, 0;
    polls := 0;
    WaitedWithinBudget(cfg, 0);
    while waited <= cfg.totalS
      invariant waited == polls as real * cfg.pollS && (waited <= cfg.totalS <==> polls < PollBudget(cfg))
      invariant polls <= PollBudget(cfg)
      invariant forall i :: 0 <= i < polls ==> !Decides(cfg, r, i)
      invariant errors == if polls == 0 then 0 else ErrorsInARow(r, polls - 1)
      decreases PollBudget(cfg) - polls
    {
      var a := r.polls(polls);
      polls := polls + 1;
      errors := if a.NoAnswer? then errors + 1 else 0;
      if a.NoAnswer? && errors >= cfg.pollErrors {
        return polls, GaveUp(false);
      }
      if a.Done? {
        return polls, Saved;
      }
      if a.Failed? {
        return polls, GaveUp(a.slow);
      }
      waited := waited + cfg.pollS;
      WaitedWithinBudget(cfg, polls);
    }
    return polls, GaveUp(true);
  }

  // --- the whole call ------------------------------------------------------------------------------------

  ghost predicate AttemptGives(cfg: Config, r: Robot, sent: nat, out: Outcome)
    requires cfg.pollS > 0.0
  {
    || RequestGives(cfg, r, sent, true, out)
    || (RequestGives(cfg, r, sent, false, GaveUp(false)) && exists n :: PollGives(cfg, r, n, out))
  }

  /** The answers decide what an attempt sends and how it ends. */
  lemma AttemptDetermined(cfg: Config, r: Robot, sent: nat, out: Outcome, sent': nat, out': Outcome)
    requires cfg.pollS > 0.0 && AttemptGives(cfg, r, sent, out) && AttemptGives(cfg, r, sent', out')
    ensures sent == sent' && out == out'
  {
    assert sent > 0 ==> TriedAgain(r.starts(sent - 1)) || sent >= sent';
    assert sent' > 0 ==> TriedAgain(r.starts(sent' - 1)) || sent' >= sent;
    if RequestGives(cfg, r, sent, false, GaveUp(false)) {
      var n: nat :| PollGives(cfg, r, n, out);
      var n': nat :| PollGives(cfg, r, n', out');
      assert n > 0 ==> !Decides(cfg, r, n - 1) || n >= n';
      assert n' > 0 ==> !Decides(cfg, r, n' - 1) || n' >= n;
    }
  }

  // --- how an attempt ends, on the robot's answers -------------------------------------------------------

  /** The n-th request, from 0 on, decides: those before it were answered 503, and it was not or is the last. */
  ghost predicate DecidingRequest(cfg: Config, r: Robot, n: nat) {
    && n < cfg.startTries
    && (forall i | 0 <= i < n :: r.starts(i).HttpError? && r.starts(i).unavailable)
    && (r.starts(n).HttpError? && r.starts(n).unavailable ==> n == cfg.startTries - 1)
  }

  /** A save of the map is under way: accepted, or refused because it already was; or nothing was asked. */
  ghost predicate UnderWay(cfg: Config, r: Robot) {
    cfg.startTries == 0 ||
    exists n: nat :: DecidingRequest(cfg, r, n)
                     && (r.starts(n) == Accepted || (r.starts(n).Conflict? && r.starts(n).running))
  }

  /** Status read i ends the polling: done, failed, or one of `pollErrors` unanswered reads in a row. */
  ghost predicate EndsPolling(cfg: Config, r: Robot, i: nat) {
    || r.polls(i).Done? || r.polls(i).Failed?
    || (r.polls(i).NoAnswer? && cfg.pollErrors <= i + 1
        && forall j: nat | i + 1 - cfg.pollErrors <= j <= i :: r.polls(j).NoAnswer?)
  }

  /** Status read n is the first that ends the polling, and in time. */
  ghost predicate DecidingRead(cfg: Config, r: Robot, n: nat) {
    && n as real * cfg.pollS <= cfg.totalS && EndsPolling(cfg, r, n)
    && forall i | 0 <= i < n :: !EndsPolling(cfg, r, i)
  }

  /** 409, with no save of the map running and the robot not in slam mode. */
  ghost predicate NothingThere(cfg: Config, r: Robot) {
    exists n: nat :: DecidingRequest(cfg, r, n) && r.starts(n) == Conflict(false, false)
  }

  ghost predicate SavedThere(cfg: Config, r: Robot) {
    UnderWay(cfg, r) && exists n: nat :: DecidingRead(cfg, r, n) && r.polls(n) == Done
  }

  /** A request that timed out, or was refused as already in progress; a status that says the save failed for want of
      time; or no status that decides in time. */
  ghost predicate SlowThere(cfg: Config, r: Robot) {
    || (exists n: nat :: DecidingRequest(cfg, r, n)
          && (r.starts(n) == NoReply(true) || (r.starts(n).HttpError? && r.starts(n).inProgress)))
    || (UnderWay(cfg, r) && exists n: nat :: DecidingRead(cfg, r, n) && r.polls(n) == Failed(true))
    || (UnderWay(cfg, r) && forall n: nat :: !DecidingRead(cfg, r, n))
  }

  lemma {:induction false} RowOfErrors(r: Robot, i: nat, k: nat)
    requires r.polls(i).NoAnswer?
    ensures ErrorsInARow(r, i) >= k <==> k <= i + 1 && forall j: nat | i + 1 - k <= j <= i :: r.polls(j).NoAnswer?
    decreases i
  {
    if k > 1 && i > 0 {
      if r.polls(i - 1).NoAnswer? {
        RowOfErrors(r, i - 1, k - 1);
      } else {
        assert ErrorsInARow(r, i) == 1;
        assert k <= i + 1 ==> i + 1 - k <= i - 1 <= i;
      }
    }
  }

  lemma DecidesMeans(cfg: Config, r: Robot, i: nat)
    ensures Decides(cfg, r, i) <==> EndsPolling(cfg, r, i)
  {
    if r.polls(i).NoAnswer? {
      RowOfErrors(r, i, cfg.pollErrors);
    }
  }

  lemma OneDecidingRequest(cfg: Config, r: Robot, n: nat, n': nat)
    requires DecidingRequest(cfg, r, n) && DecidingRequest(cfg, r, n')
    ensures n == n'
  {
  }

  lemma OneDecidingRead(cfg: Config, r: Robot, n: nat, n': nat)
    requires DecidingRead(cfg, r, n) && DecidingRead(cfg, r, n')
    ensures n == n'
  {
  }

  /** What polling gives, on the answers. */
  lemma PollMeans(cfg: Config, r: Robot, polls: nat, out: Outcome)
    requires cfg.pollS > 0.0 && PollGives(cfg, r, polls, out)
    ensures out != NothingToSave
    ensures out == Saved <==> exists n: nat :: DecidingRead(cfg, r, n) && r.polls(n) == Done
    ensures out == GaveUp(true) <==>
              (exists n: nat :: DecidingRead(cfg, r, n) && r.polls(n) == Failed(true))
              || forall n: nat :: !DecidingRead(cfg, r, n)
  {
    forall i: nat ensures Decides(cfg, r, i) <==> EndsPolling(cfg, r, i) { DecidesMeans(cfg, r, i); }
    if polls > 0 && Decides(cfg, r, polls - 1) {
      WaitedWithinBudget(cfg, polls - 1);
      assert DecidingRead(cfg, r, polls - 1);
      forall n: nat | DecidingRead(cfg, r, n) ensures n == polls - 1 { OneDecidingRead(cfg, r, n, polls - 1); }
    } else {
      forall n: nat ensures !DecidingRead(cfg, r, n) {
        WaitedWithinBudget(cfg, n);
        assert n < polls ==> !Decides(cfg, r, n);
      }
    }
  }

  lemma RequestMeans(cfg: Config, r: Robot, sent: nat, refused: bool, out: Outcome)
    requires RequestGives(cfg, r, sent, refused, out)
    ensures sent > 0 ==> DecidingRequest(cfg, r, sent - 1)
    ensures refused <==> !UnderWay(cfg, r)
  {
    if sent > 0 {
      assert DecidingRequest(cfg, r, sent - 1);
      forall n: nat | DecidingRequest(cfg, r, n) ensures n == sent - 1 { OneDecidingRequest(cfg, r, n, sent - 1); }
    }
  }

  /** How an attempt ends is read off the deciding request and the deciding status read. */
  lemma AttemptMeans(cfg: Config, r: Robot, sent: nat, out: Outcome)
    requires cfg.pollS > 0.0 && AttemptGives(cfg, r, sent, out)
    ensures out == NothingToSave <==> NothingThere(cfg, r)
    ensures out == Saved <==> SavedThere(cfg, r)
    ensures out == GaveUp(true) <==> SlowThere(cfg, r)
  {
    if RequestGives(cfg, r, sent, true, out) {
      RequestMeans(cfg, r, sent, true, out);
      forall n: nat | DecidingRequest(cfg, r, n) ensures n == sent - 1 { OneDecidingRequest(cfg, r, n, sent - 1); }
    } else {
      RequestMeans(cfg, r, sent, false, GaveUp(false));
      forall n: nat | DecidingRequest(cfg, r, n) ensures Starts(r.starts(n)) {
        if sent > 0 { OneDecidingRequest(cfg, r, n, sent - 1); }
      }
      var polls: nat :| PollGives(cfg, r, polls, out);
      PollMeans(cfg, r, polls, out);
    }
  }

  /** _save_attempt. */
  method Attempt(cfg: Config, r: Robot) returns (sent: nat, out: Outcome)
    requires cfg.pollS > 0.0
    ensures sent <= cfg.startTries && AttemptGives(cfg, r, sent, out)
    ensures out == NothingToSave <==> NothingThere(cfg, r)
    ensures out == Saved <==> SavedThere(cfg, r)
    ensures out == GaveUp(true) <==> SlowThere(cfg, r)
  {
    var refused;
    sent, refused, out := Request(cfg, r);
    if !refused {
      var polls;
      polls, out := Poll(cfg, r);
    }
    AttemptMeans(cfg, r, sent, out);
  }

  /** A first attempt that was slow, and only that, is followed by a second. So a call makes at most two attempts
      and at most twice the start tries of save requests, whatever SLAM_SAVE_MAX_ATTEMPTS is. It ends saved or with
      nothing to save exactly if the answers of its last attempt say so. */
  method SaveSlam(cfg: Config, first: Robot, second: Robot)
    returns (out: Outcome, requests: nat, attempts: nat, ghost once: Outcome, ghost sent: nat)
    requires cfg.pollS > 0.0
    ensures attempts <= cfg.maxAttempts && attempts <= 2 && requests <= attempts * cfg.startTries
    ensures cfg.maxAttempts == 0 ==> attempts == 0 && out == GaveUp(false)
    ensures cfg.maxAttempts > 0 ==> attempts > 0 && AttemptGives(cfg, first, sent, once)
    ensures attempts == 2 <==> cfg.maxAttempts >= 2 && once == GaveUp(true)
    ensures attempts == 1 ==> requests == sent && if once == GaveUp(true) then out == GaveUp(false) else out == once
    ensures attempts == 2 ==> requests >= sent && AttemptGives(cfg, second, requests - sent, out)
    ensures attempts == 2 <==> cfg.maxAttempts >= 2 && SlowThere(cfg, first)
    ensures out == NothingToSave <==> attempts > 0 && NothingThere(cfg, if attempts == 2 then second else first)
    ensures out == Saved <==> attempts > 0 && SavedThere(cfg, if attempts == 2 then second else first)
  {
    requests, attempts, sent, once := 0, 0, 0, GaveUp(false);
    var graced := false;
    while attempts < cfg.maxAttempts
      invariant attempts <= cfg.maxAttempts && attempts == if graced then 1 else 0
      invariant requests == sent <= attempts * cfg.startTries
      invariant graced ==> AttemptGives(cfg, first, sent, once) && once == GaveUp(true)
      invariant graced ==> SlowThere(cfg, first) && !NothingThere(cfg, first) && !SavedThere(cfg, first)
      invariant !graced ==> once == GaveUp(false)
    {
      var robot := if graced then second else first;
      attempts := attempts + 1;
      var asked;
      asked, out := Attempt(cfg, robot);
      requests := requests + asked;
      if !graced {
        once, sent := out, asked;
      }
      if out.Saved? || out.NothingToSave? || !out.slow || graced {
        return;
      }
      graced := true;
    }
    out := GaveUp(false);
  }
}
