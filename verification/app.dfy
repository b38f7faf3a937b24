/**
 * The resume page's state: the display language and the single
 * "an export is running" flag that rejects re-entrant export requests.
 * An export runs as two steps: the guarded start, and the completion
 * that always clears the flag, whether the job delivered a file or failed.
 */
module App {
  import opened Wrappers
  import opened Languages
  import opened Packaging

  class ResumeApp {
    /** The language currently shown. */
    var lang: Language
    /** `isExporting`. */
    var busy: bool
    /** The job in flight, if any. */
    var job: Option<Job>

    /** The flag is set exactly while a job is in flight. */
    ghost predicate Valid()
      reads this
    {
      busy <==> job.Some?
    }

    /** The page opens in Chinese with no export running. */
    constructor ()
      ensures Valid()
      ensures lang == Zh && !busy && job == None
    {
      lang := Zh;
      busy := false;
      job := None;
    }

    /** `toggleLang`: switches the language; a running export keeps the language it started with. */
    method ToggleLang()
      requires Valid()
      modifies this
      ensures Valid()
      ensures lang == Toggle(old(lang))
      ensures busy == old(busy) && job == old(job)
    {
      lang := Toggle(lang);
    }

    /**
     * The guard at the head of `handleExport`: a request is dropped while a job
     * runs or when the capture target is absent, and otherwise starts a job of
     * the requested kind in the current language and sets the flag.
     */
    method StartExport(kind: ExportKind, targetPresent: bool) returns (started: bool)
      requires Valid()
      modifies this
      ensures Valid()
      ensures started <==> !old(busy) && targetPresent
      ensures started ==> busy && job == Some(Job(kind, lang))
      ensures !started ==> busy == old(busy) && job == old(job)
      ensures lang == old(lang)
    {
      if busy {
        return false;
      }
      if !targetPresent {
        return false;
      }
      busy := true;
      job := Some(Job(kind, lang));
      started := true;
    }

    /**
     * The rest of `handleExport`: the job runs to its outcome, a failure is
     * caught, and `finally` clears the flag in every case.
     */
    method FinishExport(capture: Capture) returns (artifact: Option<Artifact>)
      requires Valid() && busy
      modifies this
      ensures Valid()
      ensures !busy && job == None && lang == old(lang)
      ensures artifact == JobResult(old(job).value, capture)
    {
      artifact := JobResult(job.value, capture);
      busy := false;
      job := None;
    }

    /**
     * One export request followed at once by its completion. The state
     * afterwards is the state before: a dropped request changes nothing, and an
     * accepted one clears the flag it set.
     */
    method HandleExport(kind: ExportKind, targetPresent: bool, capture: Capture) returns (artifact: Option<Artifact>)
      requires Valid()
      modifies this
      ensures Valid()
      ensures busy == old(busy) && job == old(job) && lang == old(lang)
      ensures artifact == if !old(busy) && targetPresent then JobResult(Job(kind, lang), capture) else None
    {
      var started := StartExport(kind, targetPresent);
      if started {
        artifact := FinishExport(capture);
      } else {
        artifact := None;
      }
    }
  }

  /** A request made while an export runs is dropped; the running job keeps the flag and its language through a toggle, then ends with the flag clear. */
  method OverlappingRequests(c: Canvas)
  {
    var app := new ResumeApp();
    var first := app.StartExport(Pdf, true);
    assert first && app.busy;
    var second := app.StartExport(Png, true);
    assert !second && app.job == Some(Job(Pdf, Zh));
    app.ToggleLang();
    assert app.busy && app.lang == En;
    var file := app.FinishExport(Rendered(c, false));
    assert !app.busy;
    assert file.Some? && file.value.name == FileName(Zh, Pdf);
    var png := app.HandleExport(Png, true, Rendered(c, false));
    assert png == None && !app.busy;
  }
}
