/** An analysis job and its workflow as one system: every interleaving of run attempts, progress
    reports, finalizing activities with their retries, redelivery and cancellation. */
module JobRuns {
  import opened JobLifecycle
  import opened Jobs
  import opened Wrappers

  const MAX_FINAL_TRIES := 5

  /** The activities that end a workflow. */
  datatype Finalizer = Completing | GivingUp | CallingOff

  /** At most one workflow runs for a job: up to three run attempts, then up to five tries of each
      finalizing activity. */
  datatype Workflow =
    | Unstarted
    | Attempt(number: nat, begun: bool)
    | Finalizing(kind: Finalizer, tries: nat)
    | Ended

  /** `late` are the finalizing activities that the workflow no longer waits for but that may still
      be running somewhere. */
  datatype System = System(job: Job, workflow: Workflow, late: set<Finalizer>)

  /** The result of a finalizing activity may be lost on its way to the workflow; a try that fails
      may still be running. */
  datatype Event =
    | Dispatch
    | FailCorruptJob(cause: string, now: int)
    | StartDeferred(now: int)
    | Begin(now: int)
    | ReportsProgress(progress: Progress, now: int)
    | AttemptFails
    | AttemptSucceeds
    | CancelDelivered
    | Finalize(report: Report, error: string, now: int, seen: bool)
    | FinalizeFails(running: bool)
    | FinalizeLate(kind: Finalizer, report: Report, error: string, now: int)
    | CancelRequested(now: int)

  // ----- What an event writes and where it leads, from the row it read

  function FinalWrite(kind: Finalizer, job: Job, report: Report, error: string, now: int): Option<Job> {
    match kind
    case Completing => if MayFinish(job) then Some(Finished(job, report, now)) else None
    case GivingUp => if MayGiveUp(job) then Some(GivenUp(job, error, now)) else None
    case CallingOff => if MayCallOff(job) then Some(CalledOff(job, now)) else None
  }

  /** The row the event writes when it has read `job`; nothing if it does not write. */
  function Written(s: System, e: Event, job: Job): Option<Job> {
    var w := s.workflow;
    match e
    case FailCorruptJob(cause, now) =>
      if job.status == Queued && Corrupt(job) then Some(FoundCorrupt(job, cause, now)) else None
    case StartDeferred(now) => Some(job.(message := "Waiting for workflow service", updatedAt := now))
    case Begin(now) =>
      if w.Attempt? && !w.begun && !job.cancellationRequested then Some(Begun(job, w.number, now)) else None
    case ReportsProgress(progress, now) =>
      if w.Attempt? && w.begun && MayProgress(job) then Some(Progressed(job, progress, now)) else None
    case Finalize(report, error, now, _) =>
      if w.Finalizing? then FinalWrite(w.kind, job, report, error, now) else None
    case FinalizeLate(kind, report, error, now) =>
      if kind in s.late then FinalWrite(kind, job, report, error, now) else None
    case CancelRequested(now) => if job.status.Terminal() then None else Some(CancellationAsked(job, now))
    case _ => None
  }

  /** After a try whose outcome the workflow does not learn. */
  function NextTry(kind: Finalizer, tries: nat): Workflow {
    if tries + 1 < MAX_FINAL_TRIES then Finalizing(kind, tries + 1) else Ended
  }

  /** Where the workflow goes after an event that has read `job`. The workflow is cancelled only on
      behalf of a job that is flagged for cancellation. */
  function Moved(s: System, e: Event, job: Job): Workflow {
    var w := s.workflow;
    match e
    case Dispatch => if job.status == Queued && !Corrupt(job) && w.Unstarted? then Attempt(1, false) else w
    case Begin(_) =>
      if !(w.Attempt? && !w.begun) then w
      else if job.cancellationRequested then Finalizing(CallingOff, 0)
      else Attempt(w.number, true)
    case AttemptFails =>
      if !w.Attempt? then w
      else if w.number < MAX_RUN_ATTEMPTS then Attempt(w.number + 1, false)
      else Finalizing(GivingUp, 0)
    case AttemptSucceeds => if w.Attempt? && w.begun then Finalizing(Completing, 0) else w
    case CancelDelivered =>
      if job.cancellationRequested && (w.Attempt? || (w.Finalizing? && w.kind == Completing)) then Finalizing(CallingOff, 0) else w
    case Finalize(_, _, _, seen) =>
      if !w.Finalizing? then w
      else if !seen then NextTry(w.kind, w.tries)
      else if w.kind == Completing && RefusesCompletion(job) then Finalizing(CallingOff, 0)
      else Ended
    case FinalizeFails(_) => if w.Finalizing? then NextTry(w.kind, w.tries) else w
    case _ => w
  }

  /** A try that failed while running, and a completion abandoned for a cancellation, may still run. */
  function LateAfter(s: System, e: Event, job: Job): set<Finalizer> {
    var w := s.workflow;
    match e
    case FinalizeFails(running) => if w.Finalizing? && running then s.late + {w.kind} else s.late
    case CancelDelivered => if w.Finalizing? && Moved(s, e, job) != w then s.late + {w.kind} else s.late
    case _ => s.late
  }

  /** An event whose actor has read the row `copy`: it overwrites the row if it writes at all. */
  function ActOn(s: System, e: Event, copy: Job): System {
    System(match Written(s, e, copy) case Some(job) => job case None => s.job, Moved(s, e, copy), LateAfter(s, e, copy))
  }

  /** Finding and writing the row as one step. */
  function Next(s: System, e: Event): System {
    ActOn(s, e, s.job)
  }

  function Run(s: System, events: seq<Event>): System
    decreases |events|
  {
    if events == [] then s else Run(Next(s, events[0]), events[1..])
  }

  // ----- Safety

  predicate Initial(s: System) {
    s.job.status == Queued && !s.job.cancellationRequested && s.job.attempts == 0 && s.workflow == Unstarted && s.late == {}
  }

  predicate InPlace(s: System) {
    var status := s.job.status;
    match s.workflow
    case Unstarted => status == Queued || (Corrupt(s.job) && status == Failed)
    case Attempt(number, begun) =>
      !Corrupt(s.job) && 1 <= number <= MAX_RUN_ATTEMPTS && (status == Running || (status == Queued && !begun))
    case Finalizing(kind, tries) => !Corrupt(s.job) && tries < MAX_FINAL_TRIES && FinalInPlace(kind, s.job)
    case Ended => !Corrupt(s.job)
  }

  predicate FinalInPlace(kind: Finalizer, job: Job) {
    match kind
    case Completing => job.status == Running || job.status == Completed
    case GivingUp => job.status == Running || job.status == Queued || job.status == Failed
    case CallingOff => job.cancellationRequested && job.status != Completed && job.status != Failed
  }

  predicate LateInPlace(s: System) {
    && (s.workflow.Unstarted? || s.workflow.Attempt? ==> s.late == {})
    && (Completing in s.late ==> GivingUp !in s.late && s.job.status != Failed && (s.workflow.Ended? || s.workflow.kind != GivingUp))
    && (GivingUp in s.late ==> CallingOff !in s.late && FinalInPlace(GivingUp, s.job) && (s.workflow.Ended? || s.workflow.kind == GivingUp))
    && (CallingOff in s.late ==> FinalInPlace(CallingOff, s.job) && (s.workflow.Ended? || s.workflow.kind == CallingOff))
  }

  predicate Invariant(s: System) {
    && (s.job.status == Completed ==> s.job.percent == 100 && !s.job.cancellationRequested)
    && (s.job.status == Cancelled ==> s.job.cancellationRequested)
    && s.job.attempts <= MAX_RUN_ATTEMPTS
    && InPlace(s) && LateInPlace(s)
  }

  lemma InitialHolds(s: System)
    requires Initial(s)
    ensures Invariant(s)
  {
  }

  /** The status a finalizing activity sets if it writes. */
  function FinalStatus(kind: Finalizer): Status {
    match kind case Completing => Completed case GivingUp => Failed case CallingOff => Cancelled
  }

  /** The only ways in which the status of the row changes. */
  predicate StatusStep(s: System, e: Event, status: Status) {
    || status == s.job.status
    || (e.FailCorruptJob? && s.job.status == Queued && Corrupt(s.job) && status == Failed)
    || (e.Begin? && s.workflow.Attempt? && !s.workflow.begun && !s.job.cancellationRequested && status == Running)
    || (e.Finalize? && s.workflow.Finalizing? && FinalPossible(s.workflow.kind, s.job) && status == FinalStatus(s.workflow.kind))
    || (e.FinalizeLate? && e.kind in s.late && FinalPossible(e.kind, s.job) && status == FinalStatus(e.kind))
  }

  predicate FinalPossible(kind: Finalizer, job: Job) {
    match kind case Completing => MayFinish(job) case GivingUp => MayGiveUp(job) case CallingOff => MayCallOff(job)
  }

  lemma RowStep(s: System, e: Event)
    requires Invariant(s)
    ensures var job := Next(s, e).job;
            && StatusStep(s, e, job.status)
            && job.id == s.job.id && Corrupt(job) == Corrupt(s.job) && job.attempts <= MAX_RUN_ATTEMPTS
            && (s.job.cancellationRequested ==> job.cancellationRequested)
            && (job.status == Completed ==> job.percent == 100 && !job.cancellationRequested)
            && (job.status == Cancelled ==> job.cancellationRequested)
  {
    hide LateAfter;
    hide FinalWrite;
    hide Moved;
    hide Truncate;
    hide ClampPercent;
    hide LateInPlace;
    if e.Finalize? && s.workflow.Finalizing? {
      FinalWriteIs(s.workflow.kind, s.job, e.report, e.error, e.now);
    } else if e.FinalizeLate? {
      FinalWriteIs(e.kind, s.job, e.report, e.error, e.now);
    }
  }

  lemma FinalWriteIs(kind: Finalizer, job: Job, report: Report, error: string, now: int)
    ensures var written := FinalWrite(kind, job, report, error, now);
            && (written.Some? <==> FinalPossible(kind, job))
            && (written.Some? ==>
                  && written.value.status == FinalStatus(kind)
                  && written.value.id == job.id && Corrupt(written.value) == Corrupt(job) && written.value.attempts == job.attempts
                  && written.value.cancellationRequested == (job.cancellationRequested || kind == CallingOff)
                  && (kind == Completing ==> written.value.percent == 100))
  {
  }

  lemma TerminalStays(s: System, e: Event, status: Status)
    requires Invariant(s) && StatusStep(s, e, status) && s.job.status.Terminal()
    ensures status == s.job.status
  {
  }

  /** Events of the run attempts, and events that end the workflow; all others leave it alone. */
  predicate OfAttempts(e: Event) {
    e.Dispatch? || e.Begin? || e.AttemptFails? || e.AttemptSucceeds?
  }

  predicate OfTheEnd(e: Event) {
    e.CancelDelivered? || e.Finalize? || e.FinalizeFails?
  }

  lemma AttemptStep(s: System, e: Event)
    requires Invariant(s) && OfAttempts(e)
    ensures InPlace(Next(s, e)) && LateInPlace(Next(s, e))
  {
    hide Corrupt;
    RowStep(s, e);
  }

  lemma EndStep(s: System, e: Event)
    requires Invariant(s) && OfTheEnd(e)
    ensures InPlace(Next(s, e))
  {
    hide Written;
    hide LateAfter;
    hide Corrupt;
    RowStep(s, e);
  }

  lemma QuietStep(s: System, e: Event)
    requires Invariant(s) && !OfAttempts(e) && !OfTheEnd(e)
    ensures InPlace(Next(s, e)) && LateInPlace(Next(s, e))
  {
    hide Written;
    hide Corrupt;
    RowStep(s, e);
  }

  lemma LateStep(s: System, e: Event)
    requires Invariant(s) && OfTheEnd(e)
    ensures LateInPlace(Next(s, e))
  {
    hide Written;
    hide Corrupt;
    RowStep(s, e);
  }

  /** Every step keeps the invariant, a terminal status and a requested cancellation. */
  lemma StepKeeps(s: System, e: Event)
    requires Invariant(s)
    ensures Invariant(Next(s, e))
    ensures s.job.status.Terminal() ==> Next(s, e).job.status == s.job.status
    ensures s.job.cancellationRequested ==> Next(s, e).job.cancellationRequested
    ensures s.job.id == Next(s, e).job.id && Corrupt(s.job) == Corrupt(Next(s, e).job)
  {
    hide Next;
    hide InPlace;
    hide LateInPlace;
    hide StatusStep;
    hide Corrupt;
    RowStep(s, e);
    if OfAttempts(e) {
      AttemptStep(s, e);
    } else if OfTheEnd(e) {
      EndStep(s, e);
      LateStep(s, e);
    } else {
      QuietStep(s, e);
    }
    if s.job.status.Terminal() {
      TerminalStays(s, e, Next(s, e).job.status);
    }
  }

  /** In every run a terminal status stays, a requested cancellation stays, and a job that was
      asked to stop never completes. */
  lemma {:induction false} RunsAreSafe(s: System, events: seq<Event>)
    requires Invariant(s)
    ensures Invariant(Run(s, events))
    ensures s.job.status.Terminal() ==> Run(s, events).job.status == s.job.status
    ensures s.job.cancellationRequested ==>
              Run(s, events).job.cancellationRequested && Run(s, events).job.status != Completed
    decreases |events|
  {
    hide Next;
    hide InPlace;
    hide LateInPlace;
    if events != [] {
      StepKeeps(s, events[0]);
      RunsAreSafe(Next(s, events[0]), events[1..]);
    }
  }

  lemma {:induction false} RunAppend(s: System, first: seq<Event>, second: seq<Event>)
    ensures Run(s, first + second) == Run(Run(s, first), second)
    decreases |first|
  {
    hide Next;
    if first == [] {
      assert first + second == second;
    } else {
      assert (first + second)[1..] == first[1..] + second;
      RunAppend(Next(s, first[0]), first[1..], second);
    }
  }

  lemma RunOne(s: System, e: Event, rest: seq<Event>)
    ensures Run(s, [e] + rest) == Run(Next(s, e), rest)
  {
    hide Next;
    assert ([e] + rest)[1..] == rest;
  }

  /** From creation on: a completed job is at 100 percent and nobody had asked to cancel it, and
      whatever happens later it stays completed. */
  lemma CompletedForGood(s: System, events: seq<Event>, later: seq<Event>)
    requires Initial(s) && Run(s, events).job.status == Completed
    ensures var job := Run(s, events + later).job;
            job.status == Completed && job.percent == 100 && !job.cancellationRequested && job.attempts <= 3
  {
    hide Run;
    hide InPlace;
    hide LateInPlace;
    InitialHolds(s);
    RunsAreSafe(s, events);
    RunsAreSafe(Run(s, events), later);
    RunAppend(s, events, later);
  }

  lemma AskingToCancel(s: System, now: int)
    ensures !s.job.status.Terminal() ==> Next(s, CancelRequested(now)).job.cancellationRequested
  {
  }

  /** A cancellation requested while the job is active keeps it from completing. */
  lemma CancellationWins(s: System, events: seq<Event>, now: int, later: seq<Event>)
    requires Initial(s) && !Run(s, events).job.status.Terminal()
    ensures Run(s, events + ([CancelRequested(now)] + later)).job.status != Completed
  {
    hide *;
    InitialHolds(s);
    RunsAreSafe(s, events);
    var before := Run(s, events);
    RunAppend(s, events, [CancelRequested(now)] + later);
    RunOne(before, CancelRequested(now), later);
    AskingToCancel(before, now);
    StepKeeps(before, CancelRequested(now));
    RunsAreSafe(Next(before, CancelRequested(now)), later);
  }

  // ----- Which jobs can still end

  /** The job has ended, its workflow has not, or a finalizing activity that can still write runs on. */
  predicate CanEnd(s: System) {
    || s.job.status.Terminal() || !s.workflow.Ended?
    || GivingUp in s.late || CallingOff in s.late || (Completing in s.late && !s.job.cancellationRequested)
  }

  /** An event that brings a job that can end closer to its end. */
  function EndingEvent(s: System): Event {
    match s.workflow
    case Unstarted => if Corrupt(s.job) then FailCorruptJob("", 0) else Dispatch
    case Attempt(_, _) => AttemptFails
    case Finalizing(_, _) => Finalize(Report("", ""), "", 0, true)
    case Ended =>
      FinalizeLate(if GivingUp in s.late then GivingUp else if CallingOff in s.late then CallingOff else Completing, Report("", ""), "", 0)
  }

  function Distance(w: Workflow): nat {
    match w
    case Unstarted => 5
    case Attempt(number, _) => if number > MAX_RUN_ATTEMPTS then 1 else 5 - number
    case Finalizing(kind, _) => if kind == Completing then 1 else 0
    case Ended => 0
  }

  lemma EndingStep(s: System)
    requires Invariant(s) && CanEnd(s) && !s.job.status.Terminal()
    ensures var t := Next(s, EndingEvent(s));
            t.job.status.Terminal() || (CanEnd(t) && Distance(t.workflow) < Distance(s.workflow))
  {
    hide Truncate;
    hide Corrupt;
  }

  lemma EndingEvents(s: System) returns (events: seq<Event>)
    requires Invariant(s) && CanEnd(s)
    ensures Run(s, events).job.status.Terminal()
    decreases s.job.status.Terminal(), Distance(s.workflow)
  {
    hide Next;
    hide Invariant;
    hide CanEnd;
    hide Distance;
    if s.job.status.Terminal() {
      return [];
    }
    var e := EndingEvent(s);
    StepKeeps(s, e);
    EndingStep(s);
    events := [];
    if !Next(s, e).job.status.Terminal() {
      events := EndingEvents(Next(s, e));
    }
    RunOne(s, e, events);
    events := [e] + events;
  }

  lemma StuckStep(s: System, e: Event)
    requires Invariant(s) && !CanEnd(s)
    ensures !CanEnd(Next(s, e))
  {
    hide Written;
    hide Corrupt;
    hide LateInPlace;
    RowStep(s, e);
  }

  lemma {:induction false} StuckForGood(s: System, events: seq<Event>)
    requires Invariant(s) && !CanEnd(s)
    ensures !CanEnd(Run(s, events))
    decreases |events|
  {
    hide Next;
    hide CanEnd;
    hide Invariant;
    if events != [] {
      StepKeeps(s, events[0]);
      StuckStep(s, events[0]);
      StuckForGood(Next(s, events[0]), events[1..]);
    }
  }

  /** A terminal status can still be reached if and only if the workflow has not ended without one,
      or an activity it no longer waits for can still write one. */
  lemma EndsIff(s: System)
    requires Invariant(s)
    ensures (exists events :: Run(s, events).job.status.Terminal()) <==> CanEnd(s)
  {
    hide Run;
    hide Invariant;
    if CanEnd(s) {
      var events := EndingEvents(s);
      assert Run(s, events).job.status.Terminal();
    } else {
      forall events ensures !Run(s, events).job.status.Terminal() {
        StuckForGood(s, events);
      }
    }
  }

  function FailingTries(n: nat): seq<Event> {
    if n == 0 then [] else [FinalizeFails(false)] + FailingTries(n - 1)
  }

  /** Every finalizing activity is tried five times, from whatever try on: then the workflow ends. */
  lemma {:induction false} TriesRunOut(s: System, kind: Finalizer, tries: nat, n: nat)
    requires s.workflow == Finalizing(kind, tries) && tries < 5 && tries + n <= 5
    ensures Run(s, FailingTries(n)) == s.(workflow := if tries + n < 5 then Finalizing(kind, tries + n) else Ended)
    decreases n
  {
    if n > 0 {
      var t := Next(s, FinalizeFails(false));
      assert t == s.(workflow := NextTry(kind, tries));
      RunOne(s, FinalizeFails(false), FailingTries(n - 1));
      if n > 1 {
        TriesRunOut(t, kind, tries + 1, n - 1);
      }
    }
  }

  /** Only an attempt that has not begun begins, only one that has begun reports, and neither writes
      to a job that is flagged for cancellation. */
  lemma AttemptsWrite(s: System, e: Event)
    requires (e.Begin? || e.ReportsProgress?) && Next(s, e).job != s.job
    ensures s.workflow.Attempt? && s.workflow.begun == e.ReportsProgress? && !s.job.cancellationRequested
    ensures e.Begin? ==> Next(s, e).workflow.begun && Next(s, e).job.attempts == s.workflow.number && Next(s, e).job.status == Running
  {
    hide Truncate;
    hide ClampPercent;
  }

  function FailingAttempts(n: nat): seq<Event> {
    if n == 0 then [] else [AttemptFails] + FailingAttempts(n - 1)
  }

  /** The analysis is attempted three times, from whatever attempt on: then the job is given up. */
  lemma {:induction false} AttemptsRunOut(s: System, n: nat)
    requires s.workflow.Attempt? && 1 <= s.workflow.number && s.workflow.number + n <= 4 && n > 0
    ensures Run(s, FailingAttempts(n)) ==
            s.(workflow := if s.workflow.number + n < 4 then Attempt(s.workflow.number + n, false) else Finalizing(GivingUp, 0))
    decreases n
  {
    RunOne(s, AttemptFails, FailingAttempts(n - 1));
    if n > 1 {
      AttemptsRunOut(Next(s, AttemptFails), n - 1);
    }
  }

  /** An activity that ends the workflow starts with its first try, and an analysis with its first
      attempt; both go on one by one. What may still run unobserved are tries that failed while
      running, and completions abandoned for a requested cancellation. */
  lemma OneByOne(s: System, e: Event)
    ensures var w, v := s.workflow, Next(s, e).workflow;
            && (v.Finalizing? && v != w && v.tries > 0 ==> w == Finalizing(v.kind, v.tries - 1))
            && (v.Attempt? && v != w && w.Unstarted? ==> v == Attempt(1, false))
            && (v.Attempt? && v != w && !w.Unstarted? ==> w.Attempt? && (v == Attempt(w.number, true) || v == Attempt(w.number + 1, false)))
    ensures Next(s, e).late ==
            if s.workflow.Finalizing? && ((e.FinalizeFails? && e.running) ||
                                          (e.CancelDelivered? && s.workflow.kind == Completing && s.job.cancellationRequested))
            then s.late + {s.workflow.kind} else s.late
  {
    hide Corrupt;
  }

  /** Five failed tries to complete a finished analysis end the workflow over a running job, and
      nothing that happens later ends the job. */
  lemma FinishedJobCanHang(s: System, now: int, later: seq<Event>)
    requires Initial(s) && !Corrupt(s.job)
    ensures var hung := Run(s, [Dispatch] + ([Begin(now)] + ([AttemptSucceeds] + FailingTries(5))));
            hung.workflow == Ended && hung.job.status == Running && !Run(hung, later).job.status.Terminal()
  {
    hide Run;
    hide Truncate;
    hide Corrupt;
    hide Invariant;
    var a := Next(s, Dispatch);
    var b := Next(a, Begin(now));
    var c := Next(b, AttemptSucceeds);
    assert c.workflow == Finalizing(Completing, 0) && c.job.status == Running && c.late == {};
    RunOne(s, Dispatch, [Begin(now)] + ([AttemptSucceeds] + FailingTries(5)));
    RunOne(a, Begin(now), [AttemptSucceeds] + FailingTries(5));
    RunOne(b, AttemptSucceeds, FailingTries(5));
    TriesRunOut(c, Completing, 0, 5);
    InitialHolds(s);
    RunsAreSafe(s, [Dispatch] + ([Begin(now)] + ([AttemptSucceeds] + FailingTries(5))));
    StuckForGood(c.(workflow := Ended), later);
  }

  // ----- Which jobs can still be cancelled

  predicate CanCancel(s: System) {
    match s.workflow
    case Unstarted => !Corrupt(s.job)
    case Attempt(_, _) => true
    case Finalizing(kind, _) => kind != GivingUp
    case Ended => CallingOff in s.late
  }

  function CancellingEvent(s: System): Event {
    if !s.job.cancellationRequested then CancelRequested(0)
    else
      match s.workflow
      case Unstarted => Dispatch
      case Attempt(_, _) => CancelDelivered
      case Finalizing(_, _) => Finalize(Report("", ""), "", 0, true)
      case Ended => FinalizeLate(CallingOff, Report("", ""), "", 0)
  }

  function CancelDistance(s: System): nat {
    Distance(s.workflow) + (if s.job.cancellationRequested then 0 else 1)
  }

  lemma CancellingStep(s: System)
    requires Invariant(s) && CanCancel(s) && !s.job.status.Terminal()
    ensures var t := Next(s, CancellingEvent(s));
            t.job.status == Cancelled || (!t.job.status.Terminal() && CanCancel(t) && CancelDistance(t) < CancelDistance(s))
  {
    hide Truncate;
    hide Corrupt;
    RowStep(s, CancellingEvent(s));
  }

  lemma CancellingEvents(s: System) returns (events: seq<Event>)
    requires Invariant(s) && CanCancel(s) && !s.job.status.Terminal()
    ensures Run(s, events).job.status == Cancelled
    decreases CancelDistance(s)
  {
    hide Next;
    hide Invariant;
    hide CanCancel;
    hide CancelDistance;
    var e := CancellingEvent(s);
    StepKeeps(s, e);
    CancellingStep(s);
    events := [];
    if Next(s, e).job.status != Cancelled {
      events := CancellingEvents(Next(s, e));
    }
    RunOne(s, e, events);
    events := [e] + events;
  }

  lemma UncancellableStep(s: System, e: Event)
    requires Invariant(s) && !CanCancel(s) && s.job.status != Cancelled
    ensures !CanCancel(Next(s, e)) && Next(s, e).job.status != Cancelled
  {
    hide Written;
    hide Corrupt;
    RowStep(s, e);
  }

  lemma {:induction false} NeverCancelled(s: System, events: seq<Event>)
    requires Invariant(s) && !CanCancel(s) && s.job.status != Cancelled
    ensures Run(s, events).job.status != Cancelled
    decreases |events|
  {
    hide Next;
    hide Invariant;
    hide CanCancel;
    if events != [] {
      StepKeeps(s, events[0]);
      UncancellableStep(s, events[0]);
      NeverCancelled(Next(s, events[0]), events[1..]);
    }
  }

  /** A job that has not ended can still be cancelled if and only if its workflow has not begun to
      fail it and has not ended, or an abandoned cancellation still runs. */
  lemma CancelsIff(s: System)
    requires Invariant(s) && !s.job.status.Terminal()
    ensures (exists events :: Run(s, events).job.status == Cancelled) <==> CanCancel(s)
  {
    hide Run;
    hide Invariant;
    if CanCancel(s) {
      var events := CancellingEvents(s);
      assert Run(s, events).job.status == Cancelled;
    } else {
      forall events ensures Run(s, events).job.status != Cancelled {
        NeverCancelled(s, events);
      }
    }
  }

  // ----- Finding and writing as two steps

  /** The rows that actors have read and not yet acted on. */
  datatype Split = Split(s: System, copies: map<int, Job>)

  datatype SplitEvent = Read(actor: int) | Act(actor: int, event: Event)

  function SplitNext(t: Split, e: SplitEvent): Split {
    match e
    case Read(actor) => t.(copies := t.copies[actor := t.s.job])
    case Act(actor, event) =>
      if actor in t.copies then Split(ActOn(t.s, event, t.copies[actor]), t.copies - {actor}) else t
  }

  function SplitRun(t: Split, events: seq<SplitEvent>): Split
    decreases |events|
  {
    if events == [] then t else SplitRun(SplitNext(t, events[0]), events[1..])
  }

  /** Whoever acts has read the row as it is, which a comparison of `updated_at` would ensure. */
  predicate Current(t: Split, e: SplitEvent) {
    e.Act? && e.actor in t.copies ==> t.copies[e.actor] == t.s.job
  }

  predicate AlwaysCurrent(t: Split, events: seq<SplitEvent>)
    decreases |events|
  {
    events == [] || (Current(t, events[0]) && AlwaysCurrent(SplitNext(t, events[0]), events[1..]))
  }

  /** The events acted on, in order. */
  function Acts(t: Split, events: seq<SplitEvent>): seq<Event>
    decreases |events|
  {
    if events == [] then []
    else
      var rest := Acts(SplitNext(t, events[0]), events[1..]);
      if events[0].Act? && events[0].actor in t.copies then [events[0].event] + rest else rest
  }

  /** If every actor writes over the row it has read, a run of separate reads and writes is a run of
      the atomic system. */
  lemma {:induction false} SplitRunIsAtomic(t: Split, events: seq<SplitEvent>)
    requires AlwaysCurrent(t, events)
    ensures SplitRun(t, events).s == Run(t.s, Acts(t, events))
    decreases |events|
  {
    hide ActOn;
    if events != [] {
      var rest := Acts(SplitNext(t, events[0]), events[1..]);
      SplitRunIsAtomic(SplitNext(t, events[0]), events[1..]);
      if events[0].Act? && events[0].actor in t.copies {
        RunOne(t.s, events[0].event, rest);
      }
    }
  }

  /** So what holds of every atomic run holds of it: terminal statuses and requests to cancel stay. */
  lemma CurrentRunsAreSafe(t: Split, events: seq<SplitEvent>)
    requires Invariant(t.s) && AlwaysCurrent(t, events)
    ensures var after := SplitRun(t, events).s;
            && Invariant(after)
            && (t.s.job.status.Terminal() ==> after.job.status == t.s.job.status)
            && (t.s.job.cancellationRequested ==> after.job.cancellationRequested && after.job.status != Completed)
  {
    hide *;
    SplitRunIsAtomic(t, events);
    RunsAreSafe(t.s, Acts(t, events));
  }

  /** An outdated copy replaces whatever was written since it was read. */
  lemma LateWriteWins(s: System, e: Event, copy: Job, since: Job)
    requires Written(s, e, copy).Some?
    ensures ActOn(s.(job := since), e, copy).job == ActOn(s, e, copy).job
  {
    hide Truncate;
  }

  /** The outdated writes that change a terminal status are exactly these: asking to cancel from a
      copy that was still active, recording a deferred start, and an abandoned completion of a job
      cancelled since, from a copy without the request. */
  lemma StaleWritesThatBreak(s: System, e: Event, copy: Job)
    requires Invariant(s) && s.job.status.Terminal() && Corrupt(copy) == Corrupt(s.job)
    ensures ActOn(s, e, copy).job.status != s.job.status <==>
            || (e.CancelRequested? && !copy.status.Terminal())
            || (e.StartDeferred? && copy.status != s.job.status)
            || (e.FinalizeLate? && e.kind == Completing && Completing in s.late && s.job.status == Cancelled && MayFinish(copy))
  {
    hide Truncate;
    hide Corrupt;
    hide Moved;
    hide LateAfter;
  }

  /** The API reads a running job, the workflow completes it, and the API writes its copy back:
      the completed job is running again. */
  lemma SplitUpdateRevivesCompleted(s: System, report: Report, now: int)
    requires s.workflow.Finalizing? && s.workflow.kind == Completing && s.job.status == Running && !s.job.cancellationRequested
    ensures var done := Next(s, Finalize(report, "", now, true));
            done.job.status == Completed && ActOn(done, CancelRequested(now), s.job).job.status == Running
  {
  }

  /** A progress report reads the row, the API requests cancellation, and the report writes its
      copy back: the request is lost and the job completes. */
  lemma SplitUpdateLosesCancellation(s: System, progress: Progress, report: Report, now: int)
    requires s.workflow.Attempt? && s.workflow.begun && s.job.status == Running && !s.job.cancellationRequested
    ensures var asked := Next(s, CancelRequested(now));
            var reported := ActOn(asked, ReportsProgress(progress, now), s.job);
            var done := Next(Next(reported, AttemptSucceeds), Finalize(report, "", now, true));
            asked.job.cancellationRequested && done.job.status == Completed
  {
  }

  /** Creating a job keeps a copy of the new row and writes it back when starting the workflow
      reported an error. If the workflow ran all the same, a completed job is queued again. */
  lemma DeferredStartRevivesCompleted(s: System, created: Job, now: int)
    requires s.job.status == Completed && created.status == Queued
    ensures ActOn(s, StartDeferred(now), created).job.status == Queued
  {
  }

  /** A report of an attempt that was replaced would take a completed job off 100 percent. */
  lemma StaleReportSpoilsCompleted(s: System, progress: Progress, now: int)
    requires Invariant(s) && s.job.status == Completed && ClampPercent(progress.percent) != 100
    ensures Progressed(s.job, progress, now).status == Completed && Progressed(s.job, progress, now).percent != 100
  {
  }
}
