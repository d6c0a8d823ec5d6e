/** The polling loop of `handler` in `serverless.py`: it turns the job
    snapshots returned by successive `job_queue.get_job` calls into the
    stream of `update` and `progress` events that the handler yields.
    The snapshots are an input sequence; uploading the result and encoding
    the preview image are caller-supplied, possibly failing functions. */
module Tracker {
  import opened Wrappers
  import Rounding
  import ProgressText

  datatype JobStatus = Pending | Running | Completed | Failed | Cancelled

  predicate IsTerminal(s: JobStatus) { s == Completed || s == Failed || s == Cancelled }

  /** A preview raster, only ever handed to the preview encoder. */
  type Image = seq<nat>

  /** The `preview` entry of `progress_data`: absent, or present with a value
      that may be None. */
  datatype Preview = NoPreviewKey | PreviewValue(image: Option<Image>)

  /** `progress_data` of a job: `html` and `desc` are "" when absent. */
  datatype ProgressData = ProgressData(html: string, preview: Preview, desc: string)

  datatype Job = Job(status: JobStatus, progressData: Option<ProgressData>,
                     error: Option<string>, result: Option<string>)

  /** The `payload` of a yielded `update` or `progress` event. */
  datatype Event =
    | Update(status: JobStatus, error: Option<string>, result: Option<string>)
    | Progress(percentage: int, preview: Option<string>, description: string, message: Option<string>)

  datatype TrackerError =
    | JobNotFound         // get_job returned nothing: "Job not found"
    | ComparedWithNone    // a previewed snapshot without a progress value: TypeError
    | DivisionByZero      // total_second_length == 0
    | PublishFailed       // upload_result raised

  /** The collaborators: `upload_result(job.result, storage_path)` (None when
      the upload or its encryption raises) and `image_numpy_to_base64` (None
      when it raises; the loop swallows that failure). */
  datatype Collaborators = Collaborators(publish: Option<string> -> Option<string>,
                                         encodePreview: Image -> Option<string>)

  /** `last_job_status`, `last_progress_percentage`, `current_second`. */
  datatype Cursor = Cursor(lastStatus: Option<JobStatus>, lastPercentage: int, currentSecond: int)

  const ProgressUpdateRate: int := 5
  const InitialCursor: Cursor := Cursor(None, -1, 1)

  /** Where the loop stands after some snapshots: still polling, left the loop
      on a terminal status, or raised. Each carries the events yielded so far. */
  datatype Outcome =
    | Polling(cursor: Cursor, events: seq<Event>)
    | Finished(events: seq<Event>, status: JobStatus)
    | Raised(events: seq<Event>, error: TrackerError)

  /** The overall percentage exactly as written: `round(x / (100 * T)) * 100`
      with `x = 100 * (current_second - 1) + percentage`. */
  function OverallAsWritten(second: int, percentage: int, total: int): (r: int)
    requires total != 0
    ensures r % 100 == 0
  {
    Rounding.RoundHalfEven(100 * (second - 1) + percentage, 100 * total) * 100
  }

  /** Progress is examined only for a snapshot whose `progress_data` has a
      `preview` entry. */
  predicate HasPreview(job: Job)
  {
    job.progressData.Some? && job.progressData.value.preview.PreviewValue?
  }

  /** The `update` event of one snapshot, if its status differs from the last one. */
  function StatusEvents(c: Cursor, job: Job, io: Collaborators): (r: Result<seq<Event>, TrackerError>)
    ensures r.Err? <==> c.lastStatus != Some(job.status) && job.status == Completed && io.publish(job.result).None?
    ensures r.Ok? ==> (r.value == [] <==> c.lastStatus == Some(job.status))
    ensures r.Ok? && r.value != [] ==>
              |r.value| == 1 && r.value[0].Update? && r.value[0].status == job.status
              && r.value[0].error == job.error && (r.value[0].result.Some? <==> job.status == Completed)
              && r.value[0].result == (if job.status == Completed then io.publish(job.result) else None)
  {
    if c.lastStatus == Some(job.status) then Ok([])
    else if job.status == Completed then
      match io.publish(job.result)
      case None => Err(PublishFailed)
      case Some(url) => Ok([Update(job.status, job.error, Some(url))])
    else Ok([Update(job.status, job.error, None)])
  }

  /** The progress part of one RUNNING snapshot that has a preview entry:
      the new last percentage, the new current second and the event, if any. */
  datatype ProgressOutcome = ProgressOk(last: int, second: int, event: Option<Event>)
                           | ProgressErr(error: TrackerError)

  function ProgressStep(c: Cursor, pd: ProgressData, total: int, io: Collaborators): ProgressOutcome
  {
    var (percentage, message) := ProgressText.GetJobProgress(pd.html);
    if percentage.None? then ProgressErr(ComparedWithNone)
    else
      var p := percentage.value;
      var wrap := c.lastPercentage >= 90 && p < c.lastPercentage;
      var last := if wrap then -1 else c.lastPercentage;
      var second := if wrap then c.currentSecond + 1 else c.currentSecond;
      if !(last + ProgressUpdateRate < p) then ProgressOk(last, second, None)
      else if total == 0 then ProgressErr(DivisionByZero)
      else
        var preview := match pd.preview
          case PreviewValue(Some(img)) => io.encodePreview(img)
          case _ => None;
        ProgressOk(p, second, Some(Progress(OverallAsWritten(second, p, total), preview, pd.desc, message)))
  }

  /** One iteration of the `while True` loop on the snapshot `snap`. */
  function Step(c: Cursor, snap: Option<Job>, total: int, io: Collaborators): Outcome
  {
    match snap
    case None => Raised([], JobNotFound)
    case Some(job) =>
      match StatusEvents(c, job, io)
      case Err(e) => Raised([], e)
      case Ok(updates) =>
        if job.status == Running && HasPreview(job) then
          match ProgressStep(c, job.progressData.value, total, io)
          case ProgressErr(e) => Raised(updates, e)
          case ProgressOk(last, second, event) =>
            var emitted := if event.Some? then [event.value] else [];
            Polling(Cursor(Some(job.status), last, second), updates + emitted)
        else if IsTerminal(job.status) then Finished(updates, job.status)
        else Polling(c.(lastStatus := Some(job.status)), updates)
  }

  /** Events already yielded, followed by what one more iteration does. */
  function Then(events: seq<Event>, next: Outcome): Outcome
  {
    match next
    case Polling(c, more) => Polling(c, events + more)
    case Finished(more, s) => Finished(events + more, s)
    case Raised(more, e) => Raised(events + more, e)
  }

  /** The loop run over a sequence of snapshots, one per poll; snapshots after
      the loop has ended are never fetched. */
  function Run(snaps: seq<Option<Job>>, total: int, io: Collaborators): Outcome
    decreases |snaps|
  {
    if |snaps| == 0 then Polling(InitialCursor, [])
    else
      match Run(snaps[..|snaps| - 1], total, io)
      case Polling(c, events) => Then(events, Step(c, snaps[|snaps| - 1], total, io))
      case other => other
  }

  /** One more snapshot extends the run by one iteration, unless it has ended. */
  lemma RunExtend(snaps: seq<Option<Job>>, i: nat, total: int, io: Collaborators)
    requires i < |snaps|
    ensures var before := Run(snaps[..i], total, io);
            Run(snaps[..i + 1], total, io) ==
              if before.Polling? then Then(before.events, Step(before.cursor, snaps[i], total, io))
              else before
  {
    assert snaps[..i + 1][..i] == snaps[..i];
  }

  /** Once the loop has ended, later snapshots change nothing. */
  lemma {:induction false} RunAfterEnd(snaps: seq<Option<Job>>, k: nat, total: int, io: Collaborators)
    requires k <= |snaps|
    requires !Run(snaps[..k], total, io).Polling?
    ensures Run(snaps, total, io) == Run(snaps[..k], total, io)
    decreases |snaps|
  {
    if k < |snaps| {
      var prefix := snaps[..|snaps| - 1];
      assert prefix[..k] == snaps[..k];
      RunAfterEnd(prefix, k, total, io);
    } else {
      assert snaps[..k] == snaps;
    }
  }

  /** An iteration that keeps polling extends the run's events and moves its cursor. */
  lemma StepContinues(snaps: seq<Option<Job>>, i: nat, total: int, io: Collaborators, c: Cursor, more: seq<Event>)
    requires i < |snaps| && Run(snaps[..i], total, io).Polling?
    requires Step(Run(snaps[..i], total, io).cursor, snaps[i], total, io) == Polling(c, more)
    ensures Run(snaps[..i + 1], total, io) == Polling(c, Run(snaps[..i], total, io).events + more)
  {
    RunExtend(snaps, i, total, io);
  }

  /** An iteration that leaves the loop decides the outcome of the whole run. */
  lemma StepEnds(snaps: seq<Option<Job>>, i: nat, total: int, io: Collaborators)
    requires i < |snaps| && Run(snaps[..i], total, io).Polling?
    requires !Step(Run(snaps[..i], total, io).cursor, snaps[i], total, io).Polling?
    ensures Run(snaps, total, io)
            == Then(Run(snaps[..i], total, io).events, Step(Run(snaps[..i], total, io).cursor, snaps[i], total, io))
  {
    RunExtend(snaps, i, total, io);
    RunAfterEnd(snaps, i + 1, total, io);
  }

  /** The progress part of one iteration, for a RUNNING snapshot with a
      preview entry: parse the HTML, detect the wrap into the next segment,
      throttle, and build the `progress` event. */
  method ReportProgress(c: Cursor, pd: ProgressData, total: int, io: Collaborators) returns (r: ProgressOutcome)
    requires pd.preview.PreviewValue?
    ensures r == ProgressStep(c, pd, total, io)
  {
    var lastProgressPercentage := c.lastPercentage;
    var currentSecond := c.currentSecond;
    var (percentage, message) := ProgressText.GetJobProgress(pd.html);
    if percentage.None? {
      // comparing None with an int raises TypeError on either path
      return ProgressErr(ComparedWithNone);
    }
    var p := percentage.value;
    if lastProgressPercentage >= 90 && p < lastProgressPercentage {
      currentSecond := currentSecond + 1;
      lastProgressPercentage := -1;
    }
    var event: Option<Event> := None;
    if lastProgressPercentage != p {
      if lastProgressPercentage + ProgressUpdateRate < p {
        lastProgressPercentage := p;
        if total == 0 {
          return ProgressErr(DivisionByZero);
        }
        var overall := OverallAsWritten(currentSecond, p, total);
        var preview: Option<string> := None;
        if pd.preview.image.Some? {
          preview := io.encodePreview(pd.preview.image.value);
        }
        event := Some(Progress(overall, preview, pd.desc, message));
      }
    }
    r := ProgressOk(lastProgressPercentage, currentSecond, event);
  }

  /** The status part of one iteration: an `update` event when the status
      changed, with the uploaded result's URL for a COMPLETED job. */
  method ReportStatus(c: Cursor, job: Job, io: Collaborators) returns (r: Result<seq<Event>, TrackerError>)
    ensures r == StatusEvents(c, job, io)
  {
    if c.lastStatus == Some(job.status) {
      return Ok([]);
    }
    var result: Option<string> := None;
    if job.status == Completed {
      result := io.publish(job.result);
      if result.None? {
        return Err(PublishFailed);
      }
    }
    r := Ok([Update(job.status, job.error, result)]);
  }

  /** One iteration of the `while True` loop: fetch the snapshot, yield an
      `update` on a status change, report progress for a RUNNING job with a
      preview, and leave the loop on a terminal status. */
  method Poll(c: Cursor, snap: Option<Job>, total: int, io: Collaborators) returns (r: Outcome)
    ensures r == Step(c, snap, total, io)
  {
    if snap.None? {
      return Raised([], JobNotFound);
    }
    var job := snap.value;
    var status := ReportStatus(c, job, io);
    if status.Err? {
      return Raised([], status.error);
    }
    var events := status.value;
    var lastProgressPercentage := c.lastPercentage;
    var currentSecond := c.currentSecond;
    if job.status == Pending {
      // the queue position is only logged
    } else if job.status == Running {
      if HasPreview(job) {
        var progress := ReportProgress(c, job.progressData.value, total, io);
        if progress.ProgressErr? {
          return Raised(events, progress.error);
        }
        lastProgressPercentage := progress.last;
        currentSecond := progress.second;
        if progress.event.Some? {
          events := events + [progress.event.value];
        }
      }
    } else {
      // COMPLETED, FAILED and CANCELLED leave the loop
      return Finished(events, job.status);
    }
    r := Polling(Cursor(Some(job.status), lastProgressPercentage, currentSecond), events);
  }

  /** The polling loop: consumes the snapshots in order and yields events,
      until a terminal status, an error, or the end of the snapshots. */
  method Track(snaps: seq<Option<Job>>, total: int, io: Collaborators) returns (outcome: Outcome)
    ensures outcome == Run(snaps, total, io)
  {
    var cursor := InitialCursor;
    var events: seq<Event> := [];
    var i := 0;
    while i < |snaps|
      invariant 0 <= i <= |snaps|
      invariant Run(snaps[..i], total, io) == Polling(cursor, events)
    {
      var next := Poll(cursor, snaps[i], total, io);
      if !next.Polling? {
        StepEnds(snaps, i, total, io);
        return Then(events, next);
      }
      StepContinues(snaps, i, total, io, next.cursor, next.events);
      events := events + next.events;
      cursor := next.cursor;
      i := i + 1;
    }
    assert snaps[..i] == snaps;
    outcome := Polling(cursor, events);
  }

  // ---------------------------------------------------------------------
  // Properties of the loop

  /** The status that a polling cursor remembers is never a terminal one,
      the current second is at least 1, and the last percentage is -1 or a
      parsed (non-negative) value. */
  predicate CursorOk(c: Cursor)
  {
    c.currentSecond >= 1 && c.lastPercentage >= -1
    && (c.lastStatus.Some? ==> !IsTerminal(c.lastStatus.value))
  }

  /** One iteration: the second advances by at most one (exactly one on a
      wrap), a second that advances resets the last percentage to -1 unless a
      progress event follows in the same iteration, and the cursor remembers
      the snapshot's status. */
  lemma StepCursor(c: Cursor, snap: Option<Job>, total: int, io: Collaborators)
    requires CursorOk(c)
    ensures var o := Step(c, snap, total, io);
            o.Polling? ==>
              CursorOk(o.cursor) && snap.Some? && o.cursor.lastStatus == Some(snap.value.status)
              && c.currentSecond <= o.cursor.currentSecond <= c.currentSecond + 1
  {
  }

  /** The wrap into the next video second is exact: a value below a last
      percentage of at least 90 advances the second by one and starts the
      throttle from -1; otherwise the second is unchanged. A progress event
      is emitted exactly when the value exceeds that (possibly reset) last
      percentage by more than 5, and only then does the last percentage
      become the value. */
  lemma ProgressThrottle(c: Cursor, pd: ProgressData, total: int, io: Collaborators)
    requires total != 0
    requires ProgressText.GetJobProgress(pd.html).0.Some?
    ensures var p := ProgressText.GetJobProgress(pd.html).0.value;
            var wrap := c.lastPercentage >= 90 && p < c.lastPercentage;
            var from := if wrap then -1 else c.lastPercentage;
            var o := ProgressStep(c, pd, total, io);
            o.ProgressOk?
            && o.second == (if wrap then c.currentSecond + 1 else c.currentSecond)
            && (o.event.Some? <==> from + ProgressUpdateRate < p)
            && o.last == (if o.event.Some? then p else from)
            && (o.event.Some? ==> o.event.value.Progress?
                                  && o.event.value.percentage == OverallAsWritten(o.second, p, total)
                                  && o.event.value.description == pd.desc
                                  && o.event.value.message == ProgressText.GetJobProgress(pd.html).1
                                  && o.event.value.preview ==
                                       (if pd.preview.PreviewValue? && pd.preview.image.Some?
                                        then io.encodePreview(pd.preview.image.value) else None))
  {
  }

  /** The two ways the progress part raises: a value that cannot be parsed
      is compared with an integer, and a zero total divides, but only once
      the throttle lets the value through. */
  lemma ProgressErrors(c: Cursor, pd: ProgressData, total: int, io: Collaborators)
    ensures ProgressText.GetJobProgress(pd.html).0.None? ==>
              ProgressStep(c, pd, total, io) == ProgressErr(ComparedWithNone)
    ensures ProgressText.GetJobProgress(pd.html).0.Some? && total == 0 ==>
              var p := ProgressText.GetJobProgress(pd.html).0.value;
              var wrap := c.lastPercentage >= 90 && p < c.lastPercentage;
              var from := if wrap then -1 else c.lastPercentage;
              (ProgressStep(c, pd, total, io) == ProgressErr(DivisionByZero) <==> from + ProgressUpdateRate < p)
  {
  }

  /** A RUNNING snapshot with a preview entry but no parsable progress value
      raises, after yielding its status update. */
  lemma MissingProgressRaises(c: Cursor, job: Job, total: int, io: Collaborators)
    requires job.status == Running && HasPreview(job)
    requires ProgressText.GetJobProgress(job.progressData.value.html).0.None?
    ensures StatusEvents(c, job, io).Ok?
    ensures Step(c, Some(job), total, io) == Raised(StatusEvents(c, job, io).value, ComparedWithNone)
  {
  }

  /** Progress is examined only for a RUNNING snapshot whose progress data
      has a `preview` entry: no other snapshot yields a `progress` event. */
  lemma ProgressNeedsPreview(c: Cursor, job: Job, total: int, io: Collaborators)
    ensures var o := Step(c, Some(job), total, io);
            (exists k :: 0 <= k < |o.events| && o.events[k].Progress?) ==>
              job.status == Running && HasPreview(job)
  {
    var o := Step(c, Some(job), total, io);
    if !(job.status == Running && HasPreview(job)) && StatusEvents(c, job, io).Ok? {
      assert o.events == StatusEvents(c, job, io).value;
    }
  }

  /** The update part: a snapshot yields an `update` event first exactly when
      its status differs from the remembered one, unless publishing the
      COMPLETED result fails, which raises before anything is yielded. */
  lemma StepUpdateIffChanged(c: Cursor, job: Job, total: int, io: Collaborators)
    ensures var o := Step(c, Some(job), total, io);
            !(o.Raised? && o.error == PublishFailed) ==>
              ((o.events != [] && o.events[0].Update? && o.events[0].status == job.status
                && o.events[0].error == job.error)
               <==> c.lastStatus != Some(job.status))
    ensures var o := Step(c, Some(job), total, io);
            o.Raised? && o.error == PublishFailed <==>
              c.lastStatus != Some(job.status) && job.status == Completed && io.publish(job.result).None?
  {
    var o := Step(c, Some(job), total, io);
    var u := StatusEvents(c, job, io);
    if u.Ok? {
      assert o.events[..|u.value|] == u.value by {
        if job.status == Running && HasPreview(job) {
          match ProgressStep(c, job.progressData.value, total, io)
          case ProgressErr(_) =>
          case ProgressOk(_, _, event) =>
            var emitted := if event.Some? then [event.value] else [];
            assert o.events == u.value + emitted;
        }
      }
      if u.value == [] && o.events != [] {
        assert o.events[0].Progress?;
      }
    }
  }

  /** The first poll always reports the job's status. */
  lemma FirstPollReportsStatus(job: Job, total: int, io: Collaborators)
    ensures var o := Run([Some(job)], total, io);
            !(o.Raised? && o.error == PublishFailed) ==>
              o.events != [] && o.events[0].Update? && o.events[0].status == job.status
              && o.events[0].error == job.error
  {
    assert [Some(job)][..0] == [];
    StepUpdateIffChanged(InitialCursor, job, total, io);
  }

  /** The events yielded so far are a prefix of those yielded later, and a
      run that is still polling has been polling all along, with a current
      second that never decreased. */
  lemma {:induction false} RunPrefix(snaps: seq<Option<Job>>, i: nat, total: int, io: Collaborators)
    requires i <= |snaps|
    ensures Run(snaps[..i], total, io).events <= Run(snaps, total, io).events
    ensures Run(snaps, total, io).Polling? ==>
              Run(snaps[..i], total, io).Polling?
              && Run(snaps[..i], total, io).cursor.currentSecond <= Run(snaps, total, io).cursor.currentSecond
    decreases |snaps|
  {
    if i == |snaps| {
      assert snaps[..i] == snaps;
    } else {
      var prefix := snaps[..|snaps| - 1];
      assert prefix[..i] == snaps[..i];
      RunPrefix(prefix, i, total, io);
      RunCursor(prefix, total, io);
      var before := Run(prefix, total, io);
      if before.Polling? {
        StepCursor(before.cursor, snaps[|snaps| - 1], total, io);
      }
    }
  }

  /** While the loop polls, its cursor satisfies `CursorOk`, starts at
      second 1, and remembers the status of the latest snapshot. */
  lemma {:induction false} RunCursor(snaps: seq<Option<Job>>, total: int, io: Collaborators)
    ensures var o := Run(snaps, total, io);
            o.Polling? ==>
              CursorOk(o.cursor) && o.cursor.currentSecond >= 1
              && (|snaps| == 0 ==> o.cursor == InitialCursor)
              && (|snaps| > 0 ==> snaps[|snaps| - 1].Some?
                                  && o.cursor.lastStatus == Some(snaps[|snaps| - 1].value.status))
    decreases |snaps|
  {
    if |snaps| > 0 {
      var prefix := snaps[..|snaps| - 1];
      RunCursor(prefix, total, io);
      var before := Run(prefix, total, io);
      if before.Polling? {
        StepCursor(before.cursor, snaps[|snaps| - 1], total, io);
      }
    }
  }

  /** A snapshot that is missing while the loop polls raises "Job not found"
      with the events yielded so far. */
  lemma MissingJobRaises(snaps: seq<Option<Job>>, i: nat, total: int, io: Collaborators)
    requires i < |snaps| && snaps[i].None?
    requires Run(snaps[..i], total, io).Polling?
    ensures Run(snaps, total, io) == Raised(Run(snaps[..i], total, io).events, JobNotFound)
  {
    StepEnds(snaps, i, total, io);
  }

  /** A terminal status ends the loop right after its `update` event (if the
      status changed); nothing later is fetched. */
  lemma TerminalStops(snaps: seq<Option<Job>>, i: nat, total: int, io: Collaborators)
    requires i < |snaps| && snaps[i].Some? && IsTerminal(snaps[i].value.status)
    requires Run(snaps[..i], total, io).Polling?
    requires StatusEvents(Run(snaps[..i], total, io).cursor, snaps[i].value, io).Ok?
    ensures Run(snaps, total, io)
            == Finished(Run(snaps[..i], total, io).events
                          + StatusEvents(Run(snaps[..i], total, io).cursor, snaps[i].value, io).value,
                        snaps[i].value.status)
  {
    StepEnds(snaps, i, total, io);
  }

  /** What the publisher returned for the results of the snapshots fetched. */
  function Publications(snaps: seq<Option<Job>>, io: Collaborators): set<Option<string>>
  {
    set k | 0 <= k < |snaps| && snaps[k].Some? :: io.publish(snaps[k].value.result)
  }

  /** Every `update` carries a result exactly when it reports COMPLETED, and
      that result is one the publisher returned; every `progress` percentage
      is a multiple of 100. */
  predicate WellFormed(e: Event, published: set<Option<string>>)
  {
    match e
    case Update(status, _, result) => (result.Some? <==> status == Completed)
                                      && (status == Completed ==> result in published)
    case Progress(percentage, _, _, _) => percentage % 100 == 0
  }

  lemma StepWellFormed(c: Cursor, snap: Option<Job>, total: int, io: Collaborators)
    ensures forall e <- Step(c, snap, total, io).events ::
              WellFormed(e, if snap.Some? then {io.publish(snap.value.result)} else {})
  {
  }

  lemma {:induction false} RunWellFormed(snaps: seq<Option<Job>>, total: int, io: Collaborators)
    ensures forall e <- Run(snaps, total, io).events :: WellFormed(e, Publications(snaps, io))
    decreases |snaps|
  {
    if |snaps| > 0 {
      var prefix := snaps[..|snaps| - 1];
      var last := snaps[|snaps| - 1];
      RunWellFormed(prefix, total, io);
      PublicationsGrow(snaps, io);
      var before := Run(prefix, total, io);
      if before.Polling? {
        StepWellFormed(before.cursor, last, total, io);
        var here: set<Option<string>> := if last.Some? then {io.publish(last.value.result)} else {};
        assert here <= Publications(snaps, io) by {
          if last.Some? {
            assert snaps[|snaps| - 1] == last;
          }
        }
        forall e <- Run(snaps, total, io).events
          ensures WellFormed(e, Publications(snaps, io))
        {
          assert e in before.events + Step(before.cursor, last, total, io).events;
        }
      }
    }
  }

  /** A longer run has fetched every snapshot of the shorter one. */
  lemma PublicationsGrow(snaps: seq<Option<Job>>, io: Collaborators)
    requires |snaps| > 0
    ensures Publications(snaps[..|snaps| - 1], io) <= Publications(snaps, io)
  {
    var prefix := snaps[..|snaps| - 1];
    forall x | x in Publications(prefix, io)
      ensures x in Publications(snaps, io)
    {
      var k :| 0 <= k < |prefix| && prefix[k].Some? && x == io.publish(prefix[k].value.result);
      assert snaps[k] == prefix[k];
    }
  }

  // ---------------------------------------------------------------------
  // The overall percentage never goes down

  /** A snapshot whose parsed progress value, if any, is at most 100, as the
      `max="100"` of the progress bar promises. */
  predicate RawAtMost100(snap: Option<Job>)
  {
    snap.Some? && HasPreview(snap.value) ==>
      var p := ProgressText.GetJobProgress(snap.value.progressData.value.html).0;
      p.Some? ==> p.value <= 100
  }

  /** How far the loop has got, in percent of one second: the completed
      seconds plus the last percentage, a reset one counting as 0. */
  function Floor(c: Cursor): int
  {
    100 * (c.currentSecond - 1) + (if c.lastPercentage < 0 then 0 else c.lastPercentage)
  }

  /** The overall percentage that corresponds to `Floor(c)`. */
  function Level(c: Cursor, total: int): int
    requires total >= 1
  {
    Rounding.RoundHalfEven(Floor(c), 100 * total) * 100
  }

  /** The `progress` percentages among the events, in order, never decrease. */
  predicate ProgressAscending(events: seq<Event>)
  {
    forall i, j :: 0 <= i < j < |events| && events[i].Progress? && events[j].Progress? ==>
      events[i].percentage <= events[j].percentage
  }

  predicate ProgressAtMost(events: seq<Event>, bound: int)
  {
    forall i :: 0 <= i < |events| && events[i].Progress? ==> events[i].percentage <= bound
  }

  predicate ProgressAtLeast(events: seq<Event>, bound: int)
  {
    forall i :: 0 <= i < |events| && events[i].Progress? ==> bound <= events[i].percentage
  }

  lemma AscendingAppend(a: seq<Event>, b: seq<Event>, m: int)
    requires ProgressAscending(a) && ProgressAscending(b)
    requires ProgressAtMost(a, m) && ProgressAtLeast(b, m)
    ensures ProgressAscending(a + b)
  {
    forall i, j | 0 <= i < j < |a + b| && (a + b)[i].Progress? && (a + b)[j].Progress?
      ensures (a + b)[i].percentage <= (a + b)[j].percentage
    {
      if j < |a| {
        assert (a + b)[i] == a[i] && (a + b)[j] == a[j];
      } else if i < |a| {
        assert (a + b)[i] == a[i] && (a + b)[j] == b[j - |a|];
      } else {
        assert (a + b)[i] == b[i - |a|] && (a + b)[j] == b[j - |a|];
      }
    }
  }

  lemma AtMostAppend(a: seq<Event>, b: seq<Event>, m: int)
    requires ProgressAtMost(a, m) && ProgressAtMost(b, m)
    ensures ProgressAtMost(a + b, m)
  {
    forall i | 0 <= i < |a + b| && (a + b)[i].Progress?
      ensures (a + b)[i].percentage <= m
    {
      if i < |a| {
        assert (a + b)[i] == a[i];
      } else {
        assert (a + b)[i] == b[i - |a|];
      }
    }
  }

  lemma LevelAt(c: Cursor, total: int)
    requires total >= 1 && c.lastPercentage >= 0
    ensures Level(c, total) == OverallAsWritten(c.currentSecond, c.lastPercentage, total)
  {
  }

  /** Events with no `progress` among them satisfy every bound. */
  lemma OnlyUpdates(events: seq<Event>, lo: int, hi: int)
    requires forall k :: 0 <= k < |events| ==> events[k].Update?
    ensures ProgressAscending(events) && ProgressAtLeast(events, lo) && ProgressAtMost(events, hi)
  {
  }

  /** Updates followed by one `progress` event between `lo` and `hi`. */
  lemma UpdatesThenProgress(updates: seq<Event>, e: Event, lo: int, hi: int)
    requires forall k :: 0 <= k < |updates| ==> updates[k].Update?
    requires e.Progress? && lo <= e.percentage <= hi
    ensures var events := updates + [e];
            ProgressAscending(events) && ProgressAtLeast(events, lo) && ProgressAtMost(events, hi)
  {
  }

  /** One iteration never moves the floor back, and whatever it yields lies
      between the levels before and after it. */
  lemma StepAscending(c: Cursor, snap: Option<Job>, total: int, io: Collaborators)
    requires total >= 1 && CursorOk(c) && c.lastPercentage <= 100 && RawAtMost100(snap)
    ensures var o := Step(c, snap, total, io);
            ProgressAscending(o.events) && ProgressAtLeast(o.events, Level(c, total))
            && (o.Polling? ==>
                  o.cursor.lastPercentage <= 100 && Floor(c) <= Floor(o.cursor)
                  && ProgressAtMost(o.events, Level(o.cursor, total)))
  {
    var o := Step(c, snap, total, io);
    var lo := Level(c, total);
    if snap.None? || StatusEvents(c, snap.value, io).Err? {
      assert o.events == [];
    } else {
      var job := snap.value;
      var updates := StatusEvents(c, job, io).value;
      assert forall k :: 0 <= k < |updates| ==> updates[k].Update?;
      if job.status == Running && HasPreview(job) {
        var pd := job.progressData.value;
        var pc := ProgressText.GetJobProgress(pd.html).0;
        if pc.None? {
          assert o == Raised(updates, ComparedWithNone);
          OnlyUpdates(updates, lo, 0);
        } else {
          ProgressThrottle(c, pd, total, io);
          var r := ProgressStep(c, pd, total, io);
          var p := pc.value;
          var c' := Cursor(Some(job.status), r.last, r.second);
          assert o.Polling? && o.cursor == c';
          if r.event.Some? {
            assert Floor(c') == 100 * (r.second - 1) + p;
            Rounding.RoundHalfEvenMonotone(Floor(c), Floor(c'), 100 * total);
            assert OverallAsWritten(r.second, p, total) == Level(c', total) by {
              assert r.last == p;
              LevelAt(c', total);
            }
            assert o.events == updates + [r.event.value];
            UpdatesThenProgress(updates, r.event.value, lo, Level(c', total));
          } else {
            assert o.events == updates;
            OnlyUpdates(updates, lo, Level(c', total));
          }
        }
      } else {
        assert o.events == updates;
        if o.Polling? {
          OnlyUpdates(updates, lo, Level(o.cursor, total));
        } else {
          OnlyUpdates(updates, lo, 0);
        }
      }
    }
  }

  /** Given at least one second of video and progress values of at most 100,
      the overall percentages of the `progress` events never decrease over
      the whole run, whether it is still polling, finished or raised. */
  lemma {:induction false} RunAscending(snaps: seq<Option<Job>>, total: int, io: Collaborators)
    requires total >= 1
    requires forall i :: 0 <= i < |snaps| ==> RawAtMost100(snaps[i])
    ensures ProgressAscending(Run(snaps, total, io).events)
    ensures var o := Run(snaps, total, io);
            o.Polling? ==> o.cursor.lastPercentage <= 100 && ProgressAtMost(o.events, Level(o.cursor, total))
    decreases |snaps|
  {
    if |snaps| > 0 {
      var prefix := snaps[..|snaps| - 1];
      RunAscending(prefix, total, io);
      RunCursor(prefix, total, io);
      var before := Run(prefix, total, io);
      if before.Polling? {
        var c := before.cursor;
        var next := Step(c, snaps[|snaps| - 1], total, io);
        StepAscending(c, snaps[|snaps| - 1], total, io);
        AscendingAppend(before.events, next.events, Level(c, total));
        if next.Polling? {
          Rounding.RoundHalfEvenMonotone(Floor(c), Floor(next.cursor), 100 * total);
          assert ProgressAtMost(before.events, Level(next.cursor, total));
          AtMostAppend(before.events, next.events, Level(next.cursor, total));
        }
      }
    }
  }

  // ---------------------------------------------------------------------
  // The overall percentage as written and as evidently intended

  /** As written, the overall figure can only be 0, 100, 200, ...: with
      three seconds of video, 60% into the second one reports 100 where
      the share of the video done is 53%, and with five seconds, half-way
      through reports 0 where 50% is meant. */
  lemma {:induction false} OverallAsWrittenIsCoarse()
    ensures OverallAsWritten(2, 60, 3) == 100 && OverallIntended(2, 60, 3) == 53
    ensures OverallAsWritten(3, 50, 5) == 0 && OverallIntended(3, 50, 5) == 50
  {
    assert Rounding.RoundHalfEven(160, 300) == 1;
    assert Rounding.RoundHalfEven(160, 3) == 53;
    assert Rounding.RoundHalfEven(250, 500) == 0;
    assert Rounding.RoundHalfEven(250, 5) == 50;
  }

  /** The overall figure evidently intended: the share of the whole video
      done, in percent, `round((100 * (current_second - 1) + percentage) / T)`. */
  function OverallIntended(second: int, percentage: int, total: int): (r: int)
    requires total >= 1
  {
    Rounding.RoundHalfEven(100 * (second - 1) + percentage, total)
  }

  /** The intended figure is the exact share rounded to the nearest integer. */
  lemma OverallIntendedNearest(second: int, percentage: int, total: int)
    requires total >= 1
    ensures 2 * Rounding.Abs(100 * (second - 1) + percentage - OverallIntended(second, percentage, total) * total) <= total
  {
    Rounding.RoundHalfEvenNearest(100 * (second - 1) + percentage, total);
  }

  /** Within the video it stays between 0 and 100. */
  lemma OverallIntendedBounds(second: int, percentage: int, total: int)
    requires total >= 1 && 1 <= second <= total && 0 <= percentage <= 100
    ensures 0 <= OverallIntended(second, percentage, total) <= 100
  {
    var x := 100 * (second - 1) + percentage;
    assert 0 <= x <= 100 * total;
    Rounding.RoundHalfEvenMonotone(0, x, total);
    Rounding.RoundHalfEvenMonotone(x, 100 * total, total);
    RoundExact(0, total);
    RoundExact(100, total);
  }

  /** It never decreases as the loop advances (a later second, or a higher
      percentage in the same second). */
  lemma OverallIntendedMonotone(s1: int, p1: int, s2: int, p2: int, total: int)
    requires total >= 1 && 100 * (s1 - 1) + p1 <= 100 * (s2 - 1) + p2
    ensures OverallIntended(s1, p1, total) <= OverallIntended(s2, p2, total)
  {
    Rounding.RoundHalfEvenMonotone(100 * (s1 - 1) + p1, 100 * (s2 - 1) + p2, total);
  }

  lemma RoundExact(k: int, d: int)
    requires d >= 1
    ensures Rounding.RoundHalfEven(k * d, d) == k
  {
    assert (k * d) / d == k && (k * d) % d == 0 by {
      DivMulExact(k, d);
    }
  }

  lemma DivMulExact(k: int, d: int)
    requires d >= 1
    ensures (k * d) / d == k && (k * d) % d == 0
  {
    var q, r := (k * d) / d, (k * d) % d;
    assert k * d == q * d + r && 0 <= r < d;
    assert (k - q) * d == r;
    MulSign(k - q, d);
  }

  /** A non-zero multiple of a positive number is at least that number away from 0. */
  lemma MulSign(m: int, d: int)
    requires d >= 1
    ensures m >= 1 ==> m * d >= d
    ensures m <= -1 ==> m * d <= -d
  {
  }
}
