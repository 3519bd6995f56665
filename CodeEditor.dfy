/**
 * The run coordinator of the lesson editor (CodeEditor.tsx): the editor's
 * state, the request it posts to the sandbox worker, and what the worker's
 * answers do to the output panel.
 *
 * React state setters become field assignments; the worker is named by the
 * serial number of its creation, and posting a request is recorded in
 * `requests`. The optional `onComplete` callback is counted in
 * `completions`; the application composes it with marking the lesson.
 */
module CodeEditor {

  import opened Wrappers
  import opened SandboxWorker

  /** The line the panel shows for a successful run that logged nothing. */
  const Placeholder: string := "✓ 코드가 성공적으로 실행되었습니다."

  /** The prefix of a failure's line in the panel. */
  const ErrorPrefix: string := "에러: "

  /** The part of the editor's state that the worker's answers change. */
  datatype RunView = RunView(output: seq<string>, isRunning: bool, hasRun: bool)

  /** What a `done` with these logs leaves in the panel. */
  function Shown(logs: seq<string>): (r: seq<string>)
    ensures |r| > 0
    ensures |logs| > 0 ==> r == logs
  {
    if |logs| > 0 then logs else [Placeholder]
  }

  /** `worker.onmessage` on the view (CodeEditor.tsx:52-70). */
  function Receive(v: RunView, m: Response): RunView {
    match m
    case Log(text) => v.(output := v.output + [text])
    case Error(text) => RunView(v.output + [ErrorPrefix + text], false, true)
    case Done(logs) => RunView(Shown(logs), false, true)
  }

  /** The view after a sequence of answers, received in order. */
  function ReceiveAll(v: RunView, ms: seq<Response>): RunView {
    if ms == [] then v else Receive(ReceiveAll(v, ms[..|ms| - 1]), ms[|ms| - 1])
  }

  /** How many times `onComplete` is called for a sequence of answers. */
  function Completions(ms: seq<Response>): (n: nat)
    ensures n <= |ms|
  {
    if ms == [] then 0
    else Completions(ms[..|ms| - 1]) + (if ms[|ms| - 1].Done? then 1 else 0)
  }

  /** The editor component. */
  class Editor {
    var initialCode: string
    const hasOnComplete: bool
    var code: string
    var output: seq<string>
    var isRunning: bool
    var isExpanded: bool
    var hasRun: bool
    /** `workerRef.current`, by the worker's serial number. */
    var worker: Option<nat>
    /** How many workers the editor has created. */
    var spawned: nat
    /** The workers terminated, in order. */
    var terminated: seq<nat>
    /** Every `postMessage({ code })`: the worker and the code posted. */
    var requests: seq<(nat, string)>
    /** How many times `onComplete` has been called. */
    var completions: nat

    /** Every worker the editor refers to is one it created. */
    predicate Valid()
      reads this
    {
      worker.Some? ==> worker.value < spawned
    }

    function View(): RunView
      reads this
    {
      RunView(output, isRunning, hasRun)
    }

    /** The first render (CodeEditor.tsx:15-20). */
    constructor(initial: string, onComplete: bool)
      ensures Valid()
      ensures initialCode == initial && code == initial && hasOnComplete == onComplete
      ensures output == [] && !isRunning && !isExpanded && !hasRun
      ensures worker == None && spawned == 0 && terminated == [] && requests == [] && completions == 0
    {
      initialCode := initial;
      hasOnComplete := onComplete;
      code := initial;
      output := [];
      isRunning := false;
      isExpanded := false;
      hasRun := false;
      worker := None;
      spawned := 0;
      terminated := [];
      requests := [];
      completions := 0;
    }

    /**
     * A new `initialCode` (the lesson changed, CodeEditor.tsx:22-26): the code
     * and the panel are reset; a run in progress is left running.
     */
    method SetInitialCode(c: string)
      requires Valid()
      modifies this
      ensures Valid()
      ensures initialCode == c && code == c && output == [] && !hasRun
      ensures isRunning == old(isRunning) && isExpanded == old(isExpanded)
      ensures worker == old(worker) && spawned == old(spawned) && terminated == old(terminated)
      ensures requests == old(requests) && completions == old(completions)
    {
      initialCode := c;
      code := c;
      output := [];
      hasRun := false;
    }

    /** Typing in the text area (CodeEditor.tsx:152). */
    method Edit(text: string)
      modifies this
      ensures code == text && output == old(output) && initialCode == old(initialCode)
      ensures isRunning == old(isRunning) && hasRun == old(hasRun) && isExpanded == old(isExpanded)
      ensures worker == old(worker) && spawned == old(spawned) && terminated == old(terminated)
      ensures requests == old(requests) && completions == old(completions)
    {
      code := text;
    }

    /** The floating button opens or closes the editor (CodeEditor.tsx:90). */
    method ToggleExpanded()
      modifies this
      ensures isExpanded == !old(isExpanded) && View() == old(View())
      ensures code == old(code) && initialCode == old(initialCode)
      ensures worker == old(worker) && spawned == old(spawned) && terminated == old(terminated)
      ensures requests == old(requests) && completions == old(completions)
    {
      isExpanded := !isExpanded;
    }

    /** ensureWorker: the current worker, created only when there is none. */
    method EnsureWorker() returns (w: nat)
      requires Valid()
      modifies this
      ensures Valid() && worker == Some(w)
      ensures old(worker).Some? ==> w == old(worker).value && spawned == old(spawned)
      ensures old(worker).None? ==> w == old(spawned) && spawned == old(spawned) + 1
      ensures View() == old(View()) && code == old(code) && initialCode == old(initialCode)
      ensures isExpanded == old(isExpanded) && terminated == old(terminated)
      ensures requests == old(requests) && completions == old(completions)
    {
      if worker.None? {
        worker := Some(spawned);
        spawned := spawned + 1;
      }
      w := worker.value;
    }

    /**
     * runCode: mark the run as started, clear the panel, and post the
     * current code to the (possibly reused) worker.
     */
    method RunCode()
      requires Valid()
      modifies this
      ensures Valid() && worker.Some?
      ensures isRunning && output == [] && hasRun == old(hasRun)
      ensures requests == old(requests) + [(worker.value, old(code))]
      ensures old(worker).Some? ==> worker == old(worker) && spawned == old(spawned)
      ensures old(worker).None? ==> worker == Some(old(spawned)) && spawned == old(spawned) + 1
      ensures code == old(code) && initialCode == old(initialCode) && isExpanded == old(isExpanded)
      ensures terminated == old(terminated) && completions == old(completions)
    {
      isRunning := true;
      output := [];
      var w := EnsureWorker();
      requests := requests + [(w, code)];
    }

    /** The run button, disabled while a run is in progress (CodeEditor.tsx:140-142). */
    method PressRun()
      requires Valid()
      modifies this
      ensures Valid()
      ensures old(isRunning) ==> requests == old(requests) && View() == old(View())
      ensures old(isRunning) ==> worker == old(worker) && spawned == old(spawned)
      ensures !old(isRunning) ==> isRunning && output == [] && hasRun == old(hasRun)
      ensures !old(isRunning) ==> worker.Some? && requests == old(requests) + [(worker.value, old(code))]
      ensures !old(isRunning) && old(worker).Some? ==> worker == old(worker) && spawned == old(spawned)
      ensures !old(isRunning) && old(worker).None? ==> worker == Some(old(spawned)) && spawned == old(spawned) + 1
      ensures code == old(code) && initialCode == old(initialCode) && isExpanded == old(isExpanded)
      ensures terminated == old(terminated) && completions == old(completions)
    {
      if !isRunning {
        RunCode();
      }
    }

    /** `worker.onmessage`: one answer of the worker. */
    method OnWorkerMessage(m: Response)
      requires Valid()
      modifies this
      ensures Valid() && View() == Receive(old(View()), m)
      ensures completions == old(completions) + (if m.Done? && hasOnComplete then 1 else 0)
      ensures code == old(code) && initialCode == old(initialCode) && isExpanded == old(isExpanded)
      ensures worker == old(worker) && spawned == old(spawned) && terminated == old(terminated)
      ensures requests == old(requests)
    {
      match m
      case Log(text) =>
        output := output + [text];
      case Error(text) =>
        output := output + [ErrorPrefix + text];
        isRunning := false;
        hasRun := true;
      case Done(logs) =>
        output := if |logs| > 0 then logs else [Placeholder];
        isRunning := false;
        hasRun := true;
        if hasOnComplete {
          completions := completions + 1;
        }
    }

    /** `worker.onerror`: the worker itself failed. */
    method OnWorkerError(message: string)
      requires Valid()
      modifies this
      ensures Valid() && View() == RunView(old(output) + [ErrorPrefix + message], false, true)
      ensures code == old(code) && initialCode == old(initialCode) && isExpanded == old(isExpanded)
      ensures worker == old(worker) && spawned == old(spawned) && terminated == old(terminated)
      ensures requests == old(requests) && completions == old(completions)
    {
      output := output + [ErrorPrefix + message];
      isRunning := false;
      hasRun := true;
    }

    /** resetCode: back to the lesson's code, with an empty panel. */
    method ResetCode()
      requires Valid()
      modifies this
      ensures Valid() && code == initialCode && output == []
      ensures isRunning == old(isRunning) && hasRun == old(hasRun) && isExpanded == old(isExpanded)
      ensures initialCode == old(initialCode)
      ensures worker == old(worker) && spawned == old(spawned) && terminated == old(terminated)
      ensures requests == old(requests) && completions == old(completions)
    {
      code := initialCode;
      output := [];
    }

    /** The unmount effect (CodeEditor.tsx:28-33): terminate the worker, drop the reference. */
    method Unmount()
      requires Valid()
      modifies this
      ensures Valid() && worker == None
      ensures old(worker).Some? ==> terminated == old(terminated) + [old(worker).value]
      ensures old(worker).None? ==> terminated == old(terminated)
      ensures View() == old(View()) && code == old(code) && spawned == old(spawned)
      ensures initialCode == old(initialCode) && isExpanded == old(isExpanded)
      ensures requests == old(requests) && completions == old(completions)
    {
      if worker.Some? {
        terminated := terminated + [worker.value];
      }
      worker := None;
    }
  }

  // ---------------------------------------------------------------------
  // A run, from the request to the panel
  // ---------------------------------------------------------------------

  lemma ReceiveAllSnoc(v: RunView, ms: seq<Response>, m: Response)
    ensures ReceiveAll(v, ms + [m]) == Receive(ReceiveAll(v, ms), m)
  {
    assert (ms + [m])[..|ms|] == ms;
  }

  /**
   * While only `log` messages arrive, the panel grows by their lines and
   * the run stays in progress.
   */
  lemma {:induction false} StreamedLines(v: RunView, lines: seq<string>)
    ensures ReceiveAll(v, LogMessages(lines)) == v.(output := v.output + lines)
    ensures Completions(LogMessages(lines)) == 0
  {
    if lines != [] {
      var init := lines[..|lines| - 1];
      StreamedLines(v, init);
      ReceiveAllSnoc(v, LogMessages(init), Log(lines[|lines| - 1]));
      assert init + [lines[|lines| - 1]] == lines;
      assert LogMessages(lines)[..|lines| - 1] == LogMessages(init);
    }
  }

  /**
   * After the request is posted (empty panel), the worker's answers for a
   * run leave the panel showing the transcript, or the placeholder when the
   * snippet logged nothing, or the transcript and the error's line; then
   * the run is over and `hasRun` is set, and `onComplete` is called exactly
   * when the snippet returned. When the thrown value cannot be converted to
   * text, no terminal message comes: the panel holds the transcript and the
   * run stays in progress, so the run button stays disabled.
   */
  lemma RunEndsInPanel(h: Console.Host, t: Trace, v: RunView)
    requires v.output == []
    ensures var logs, w := Transcript(h, t.calls), ReceiveAll(v, Posted(h, t));
      && (t.outcome.Returned? ==> w == RunView(Shown(logs), false, true))
      && (t.outcome.Threw? ==> var m := ThrownMessage(h, t.outcome.thrown);
            && (m.Some? ==> w == RunView(logs + [ErrorPrefix + m.value], false, true))
            && (m.None? ==> w == v.(output := logs)))
      && Completions(Posted(h, t)) == (if t.outcome.Returned? then 1 else 0)
  {
    var logs := Transcript(h, t.calls);
    StreamedLines(v, logs);
    assert Posted(h, t)[..|logs|] == LogMessages(logs);
    assert [] + logs == logs;
    if Concludes(h, t) {
      ReceiveAllSnoc(v, LogMessages(logs), Terminal(h, t, logs).value);
      assert Posted(h, t) == LogMessages(logs) + [Terminal(h, t, logs).value];
    } else {
      assert Posted(h, t) == LogMessages(logs);
    }
  }

  /**
   * Before the terminal message the panel already shows every line the
   * `done` message will carry: replacing the output by the logs changes
   * nothing unless the run logged nothing.
   */
  lemma DoneAgreesWithStream(h: Console.Host, t: Trace, v: RunView)
    requires v.output == [] && t.outcome.Returned?
    ensures var logs := Transcript(h, t.calls);
      var before := ReceiveAll(v, Posted(h, t)[..|logs|]);
      before.output == logs && before.isRunning == v.isRunning
      && (|logs| > 0 ==> ReceiveAll(v, Posted(h, t)).output == before.output)
  {
    var logs := Transcript(h, t.calls);
    StreamedLines(v, logs);
    assert Posted(h, t)[..|logs|] == LogMessages(logs);
    RunEndsInPanel(h, t, v);
  }
}
