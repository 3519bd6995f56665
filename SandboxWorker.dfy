/**
 * The message handler of the snippet sandbox (sandbox-worker.ts:41-75).
 *
 * One request carries the editor's code. The handler strips the TypeScript
 * syntax, hands the result to the JavaScript engine behind a "use strict"
 * directive, and while the snippet runs it turns every console call into a
 * `log` message and a line of the run's transcript; when the snippet has
 * settled it posts one terminal message, `done` with the transcript or
 * `error` with the failure's text. The text of a thrown value that is not
 * an Error comes from String, which can itself throw inside the `catch`:
 * then no terminal message is posted at all, and the handler's promise is
 * rejected. A console call whose arguments cannot be converted throws back
 * into the snippet before it records or posts anything.
 *
 * The engine is a foreign runtime: it is a parameter that maps the program
 * text to the trace of console calls the snippet makes before it settles,
 * and how it settles. A program that does not compile is a trace without
 * calls that throws, which is what the `try` around the construction of the
 * runner makes of it.
 */
module SandboxWorker {

  import opened Wrappers
  import Sanitizer
  import opened Console

  /** `{ code }` as the editor posts it; the code may be absent. */
  datatype Request = Request(code: Option<string>)

  /** SandboxResponse. */
  datatype Response = Log(message: string) | Error(message: string) | Done(logs: seq<string>)

  /** A call the snippet makes on the console it is given. */
  datatype ConsoleCall = LogCall(args: seq<Value>) | ErrorCall(args: seq<Value>)

  /** What the snippet throws: an Error instance, or any other value. */
  datatype Thrown = ErrorInstance(message: string) | NonError(value: Value)

  /** How the runner settles. */
  datatype Outcome = Returned | Threw(thrown: Thrown)

  /** What the engine does with a program: its console calls, then how it settles. */
  datatype Trace = Trace(calls: seq<ConsoleCall>, outcome: Outcome)

  type Engine = string -> Trace

  /** `event.data?.code ?? ""`. */
  function CodeOf(req: Request): string {
    match req.code
    case Some(c) => c
    case None => ""
  }

  /** The directive the body of the runner starts with. */
  const Directive: string := "\"use strict\"; "

  /** The body the runner is built from: the directive, then the sanitized code. */
  function Program(code: string): (p: string)
    ensures |Directive| <= |p| <= |Directive| + |code|
    ensures p[..|Directive|] == Directive
  {
    Directive + Sanitizer.SanitizeCode(code)
  }

  /** The line a console call adds to the transcript, or `None` when formatArgs throws. */
  function CallMessage(h: Host, c: ConsoleCall): (r: Option<string>)
    ensures r.Some? <==> Renders(h, c.args)
  {
    match c
    case LogCall(args) => FormatArgs(h, args)
    case ErrorCall(args) =>
      match FormatArgs(h, args)
      case Some(line) => Some("❌ " + line)
      case None => None
  }

  /** What a console call adds to the transcript: its line, or nothing when it throws. */
  function CallLines(h: Host, c: ConsoleCall): (r: seq<string>)
    ensures |r| <= 1
  {
    match CallMessage(h, c)
    case Some(line) => [line]
    case None => []
  }

  /** Every console call of the sequence can format its arguments. */
  predicate AllRender(h: Host, calls: seq<ConsoleCall>) {
    forall k :: 0 <= k < |calls| ==> CallMessage(h, calls[k]).Some?
  }

  /**
   * The transcript of a sequence of console calls: one line per call that
   * does not throw, in order; one line per call when none throws.
   */
  function Transcript(h: Host, calls: seq<ConsoleCall>): (r: seq<string>)
    ensures |r| <= |calls|
    ensures AllRender(h, calls) ==> |r| == |calls|
    ensures AllRender(h, calls) ==> forall k :: 0 <= k < |calls| ==> r[k] == CallMessage(h, calls[k]).value
  {
    if calls == [] then []
    else Transcript(h, calls[..|calls| - 1]) + CallLines(h, calls[|calls| - 1])
  }

  /** One more call of a sequence adds its lines to the transcript of the calls before it. */
  lemma TranscriptStep(h: Host, calls: seq<ConsoleCall>, i: nat)
    requires i < |calls|
    ensures Transcript(h, calls[..i + 1]) == Transcript(h, calls[..i]) + CallLines(h, calls[i])
  {
    assert calls[..i + 1][..i] == calls[..i];
  }

  /** The transcript of a concatenation is the concatenation of the transcripts. */
  lemma {:induction false} TranscriptAppend(h: Host, a: seq<ConsoleCall>, b: seq<ConsoleCall>)
    ensures Transcript(h, a + b) == Transcript(h, a) + Transcript(h, b)
  {
    if b == [] {
      assert a + b == a;
    } else {
      var init, last := b[..|b| - 1], CallLines(h, b[|b| - 1]);
      assert (a + b)[..|a + b| - 1] == a + init && (a + b)[|a + b| - 1] == b[|b| - 1];
      assert Transcript(h, a + b) == Transcript(h, a + init) + last;
      assert Transcript(h, b) == Transcript(h, init) + last;
      TranscriptAppend(h, a, init);
      assert (Transcript(h, a) + Transcript(h, init)) + last == Transcript(h, a) + (Transcript(h, init) + last);
    }
  }

  /** One `log` message per transcript line, in order. */
  function LogMessages(lines: seq<string>): (r: seq<Response>)
    ensures |r| == |lines|
    ensures forall k :: 0 <= k < |lines| ==> r[k] == Log(lines[k])
  {
    if lines == [] then [] else LogMessages(lines[..|lines| - 1]) + [Log(lines[|lines| - 1])]
  }

  /**
   * `error.message` for an Error, `String(error)` otherwise; `None` when
   * that conversion throws.
   */
  function ThrownMessage(h: Host, e: Thrown): (r: Option<string>)
    ensures r.None? <==> e.NonError? && h.toText(e.value).Raises?
  {
    match e
    case ErrorInstance(m) => Some(m)
    case NonError(v) =>
      match h.toText(v)
      case Text(t) => Some(t)
      case Raises => None
  }

  /** The run ends with a terminal message: it returned, or what it threw has a text. */
  predicate Concludes(h: Host, t: Trace) {
    t.outcome.Returned? || ThrownMessage(h, t.outcome.thrown).Some?
  }

  /** The message that ends a run, if the `catch` itself does not throw. */
  function Terminal(h: Host, t: Trace, logs: seq<string>): (r: Option<Response>)
    ensures r.Some? <==> Concludes(h, t)
    ensures r.Some? ==> !r.value.Log?
  {
    match t.outcome
    case Returned => Some(Done(logs))
    case Threw(e) =>
      match ThrownMessage(h, e)
      case Some(m) => Some(Error(m))
      case None => None
  }

  /**
   * The messages a run posts, in order: one `log` per transcript line, then
   * one terminal message exactly when the run concludes; nothing before the
   * last message is terminal.
   */
  function Posted(h: Host, t: Trace): (r: seq<Response>)
    ensures var logs := Transcript(h, t.calls);
      && |r| == |logs| + (if Concludes(h, t) then 1 else 0)
      && (forall k :: 0 <= k < |logs| ==> r[k] == Log(logs[k]))
      && (Concludes(h, t) ==> !r[|logs|].Log?)
  {
    var logs := Transcript(h, t.calls);
    LogMessages(logs) +
      match Terminal(h, t, logs)
      case Some(m) => [m]
      case None => []
  }

  /** The messages the handler posts for a request. */
  function RunMessages(h: Host, engine: Engine, req: Request): seq<Response> {
    Posted(h, engine(Program(CodeOf(req))))
  }

  /**
   * The console handed to the snippet. `logs` is the run's transcript and
   * `posted` the messages sent back so far.
   */
  class ConsoleProxy {
    const host: Host
    var logs: seq<string>
    var posted: seq<Response>

    /** A fresh proxy: every run starts with an empty transcript. */
    constructor(h: Host)
      ensures host == h && logs == [] && posted == []
    {
      host := h;
      logs := [];
      posted := [];
    }

    /**
     * `console.log(...args)`: record the line and post it as a `log`
     * message; when formatArgs throws, nothing is recorded or posted and
     * the exception reaches the snippet (`raised`).
     */
    method CallLog(args: seq<Value>) returns (raised: bool)
      modifies this
      ensures raised <==> !Renders(host, args)
      ensures logs == old(logs) + CallLines(host, LogCall(args))
      ensures posted == old(posted) + LogMessages(CallLines(host, LogCall(args)))
    {
      var message := FormatArgs(host, args);
      if message.None? {
        return true;
      }
      raised := false;
      logs := logs + [message.value];
      posted := posted + [Log(message.value)];
    }

    /** `console.error(...args)`: the same with a "❌ " prefix, still a `log` message. */
    method CallError(args: seq<Value>) returns (raised: bool)
      modifies this
      ensures raised <==> !Renders(host, args)
      ensures logs == old(logs) + CallLines(host, ErrorCall(args))
      ensures posted == old(posted) + LogMessages(CallLines(host, ErrorCall(args)))
    {
      var formatted := FormatArgs(host, args);
      if formatted.None? {
        return true;
      }
      raised := false;
      var message := "❌ " + formatted.value;
      logs := logs + [message];
      posted := posted + [Log(message)];
    }

    /** `send(payload)`. */
    method Send(payload: Response)
      modifies this
      ensures posted == old(posted) + [payload] && logs == old(logs)
    {
      posted := posted + [payload];
    }
  }

  /**
   * One console call of the snippet on the proxy; whether it threw back
   * into the snippet is the engine's concern.
   */
  method RelayCall(proxy: ConsoleProxy, call: ConsoleCall)
    modifies proxy
    ensures proxy.logs == old(proxy.logs) + CallLines(proxy.host, call)
    ensures proxy.posted == old(proxy.posted) + LogMessages(CallLines(proxy.host, call))
  {
    var raised;
    if call.LogCall? {
      raised := proxy.CallLog(call.args);
    } else {
      raised := proxy.CallError(call.args);
    }
  }

  /**
   * The snippet's console calls, relayed in order through a fresh proxy:
   * afterwards the proxy holds the run's transcript and one `log` message
   * per line. What the snippet does with a call that throws is already in
   * the trace the engine produced.
   */
  method RelayCalls(proxy: ConsoleProxy, calls: seq<ConsoleCall>)
    requires proxy.logs == [] && proxy.posted == []
    modifies proxy
    ensures proxy.logs == Transcript(proxy.host, calls)
    ensures proxy.posted == LogMessages(proxy.logs)
  {
    var i := 0;
    while i < |calls|
      invariant 0 <= i <= |calls|
      invariant proxy.logs == Transcript(proxy.host, calls[..i])
      invariant proxy.posted == LogMessages(proxy.logs)
    {
      var before := proxy.logs;
      RelayCall(proxy, calls[i]);
      TranscriptStep(proxy.host, calls, i);
      LogMessagesAppend(before, CallLines(proxy.host, calls[i]));
      i := i + 1;
    }
    assert calls[..i] == calls;
  }

  /** Posting the lines of two transcripts one after the other. */
  lemma {:induction false} LogMessagesAppend(a: seq<string>, b: seq<string>)
    ensures LogMessages(a + b) == LogMessages(a) + LogMessages(b)
  {
    if b != [] {
      var init := b[..|b| - 1];
      assert (a + b)[..|a + b| - 1] == a + init;
      LogMessagesAppend(a, init);
    } else {
      assert a + b == a;
    }
  }

  /**
   * `self.onmessage`: run the request's code on the engine, relaying its
   * console calls, and return everything posted, in order. When the thrown
   * value's conversion throws inside the `catch`, nothing more is posted.
   */
  method OnMessage(h: Host, engine: Engine, req: Request) returns (posted: seq<Response>)
    ensures posted == RunMessages(h, engine, req)
  {
    var proxy := new ConsoleProxy(h);
    var safeCode := Program(CodeOf(req));
    var trace := engine(safeCode);
    RelayCalls(proxy, trace.calls);
    var terminal := Terminal(h, trace, proxy.logs);
    if terminal.Some? {
      proxy.Send(terminal.value);
    }
    posted := proxy.posted;
  }

  // ---------------------------------------------------------------------
  // The run protocol
  // ---------------------------------------------------------------------

  /**
   * A run that returns posts one `log` per console call and then `done`,
   * whose transcript is exactly the posted lines, in posting order.
   */
  lemma DoneCarriesPostedLines(h: Host, t: Trace)
    requires t.outcome == Returned
    ensures var r := Posted(h, t);
      && r[|r| - 1] == Done(seq(|r| - 1, k requires 0 <= k < |r| - 1 => r[k].message))
      && forall k :: 0 <= k < |r| ==> !r[k].Error?
  {
  }

  /**
   * `console.error` does not end a run: when its arguments format, it posts
   * a `log` message whose text is the formatted arguments behind "❌ ",
   * after the lines of the calls before it and before the terminal message.
   */
  lemma ConsoleErrorIsLogged(h: Host, t: Trace, k: nat)
    requires k < |t.calls| && t.calls[k].ErrorCall? && Renders(h, t.calls[k].args)
    ensures var r, i := Posted(h, t), |Transcript(h, t.calls[..k])|;
      i < |Transcript(h, t.calls)| && r[i] == Log("❌ " + FormatArgs(h, t.calls[k].args).value)
  {
    var calls, pre := t.calls, Transcript(h, t.calls[..k]);
    var msg := "❌ " + FormatArgs(h, calls[k].args).value;
    assert CallLines(h, calls[k]) == [msg];
    TranscriptStep(h, calls, k);
    assert calls[..k + 1] + calls[k + 1..] == calls;
    TranscriptAppend(h, calls[..k + 1], calls[k + 1..]);
    var logs := Transcript(h, calls);
    assert logs == (pre + [msg]) + Transcript(h, calls[k + 1..]);
    assert logs[|pre|] == msg;
  }

  /**
   * A run that throws posts its logs and no `done`. When the thrown value
   * has a text, an `error` with that text comes last; when its conversion
   * throws, only `log` messages are posted.
   */
  lemma ThrowPostsErrorOnly(h: Host, t: Trace)
    requires t.outcome.Threw?
    ensures var r, m := Posted(h, t), ThrownMessage(h, t.outcome.thrown);
      && (m.Some? ==> r[|r| - 1] == Error(m.value))
      && (m.None? ==> forall k :: 0 <= k < |r| ==> r[k].Log?)
      && forall k :: 0 <= k < |r| ==> !r[k].Done?
  {
  }

  /** The empty program: the directive alone. */
  lemma EmptyProgram()
    ensures Program("") == Directive
  {
    assert |Sanitizer.SanitizeCode("")| == 0;
  }

  /**
   * With no code, or empty code, the engine runs the directive alone; an
   * engine that runs it without a console call and returns makes the run
   * post exactly `done` with an empty transcript.
   */
  lemma MissingCodeIsDoneEmpty(h: Host, engine: Engine, req: Request)
    requires req.code.None? || req.code == Some("")
    requires engine(Directive) == Trace([], Returned)
    ensures RunMessages(h, engine, req) == [Done([])]
  {
    EmptyProgram();
  }

  /**
   * A runner that cannot be built (the program does not compile) posts
   * exactly one message, the `error` with the exception's text.
   */
  lemma CompileErrorIsSingleError(h: Host, engine: Engine, req: Request, m: string)
    requires engine(Program(CodeOf(req))) == Trace([], Threw(ErrorInstance(m)))
    ensures RunMessages(h, engine, req) == [Error(m)]
  {
  }
}
