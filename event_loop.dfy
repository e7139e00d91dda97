/**
 * `FileScout::run`: draw a frame, wait for the next event, handle it, until
 * the exit flag is set. The events arrive as a finite sequence; the
 * completions of background jobs are interleaved with them as events of
 * their own, each applied whole.
 */
module EventLoop {
  import opened Common
  import opened FsModel
  import opened Explorer
  import opened Ui
  import opened KeyEvents

  /** What the loop wakes up for. */
  datatype Event =
    | Press(key: Key, ctrl: bool)
    | Resize
    | Ignored
    | JobDone(job: Job, failure: Option<IoError>, sent: bool)

  /** One event, with the filesystem as it is then and the answer to the event's mutating call. */
  datatype Step = Step(event: Event, fs: FileSystem, effect: Effect)

  /** The key press that ends the program from the browser. */
  predicate QuitKey(e: Event) {
    e.Press? && (e.key == Char('q') || e.key == Char('Q'))
  }

  /**
   * Runs the loop over `steps`. It stops after the step that sets the exit
   * flag, or after the last step, or at the first panic (`ok` false).
   * `handled` counts the steps taken; every job spawned along the way is
   * returned in order.
   */
  method Run(app: FileScout, steps: seq<Step>) returns (ok: bool, handled: nat, jobs: seq<Job>)
    requires app.Valid() && !app.exit
    modifies app, app.files
    ensures handled <= |steps|
    ensures ok ==> app.Valid()
    ensures ok && handled < |steps| ==> app.exit
    ensures ok && app.exit ==> 0 < handled && QuitKey(steps[handled - 1].event)
  {
    handled, jobs := 0, [];
    while !app.exit && handled < |steps|
      invariant handled <= |steps|
      invariant app.Valid()
      invariant app.exit ==> 0 < handled && QuitKey(steps[handled - 1].event)
      decreases |steps| - handled
    {
      var step := steps[handled];
      var drawn := app.Draw(step.fs);
      if !drawn {
        return false, handled, jobs;
      }
      match step.event {
        case Press(key, ctrl) =>
          var done, _, job := HandleEvents(app, key, ctrl, step.fs, step.effect);
          if !done {
            return false, handled, jobs;
          }
          if job.Some? {
            jobs := jobs + [job.value];
          }
        case Resize =>
        case Ignored =>
        case JobDone(job, failure, sent) =>
          match job {
            case LoadPreview(path) =>
              CompleteLoad(app.files, step.fs, path, sent);
            case _ =>
              var done, _ := CompleteCrypto(app.files, step.fs, job, failure, sent);
              if !done {
                return false, handled, jobs;
              }
          }
      }
      handled := handled + 1;
    }
    ok := true;
  }
}
