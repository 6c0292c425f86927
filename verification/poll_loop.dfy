/**
 * The polling loop of `execute_command`, separated from threads, the clock
 * and the OS process. Each iteration is driven by one observation: the lines
 * the two drainer threads have queued since the previous iteration, whether
 * `process.poll()` reports an exit, and the elapsed milliseconds; or a
 * keyboard interrupt.
 */
module PollLoop {
  import opened Options
  import opened Text

  datatype Event =
    | Poll(stdoutLines: seq<string>, stderrLines: seq<string>, exited: bool, elapsedMs: int)
    | Interrupt

  /** `Running` is a loop that has not left yet (the observed trace ran out). */
  datatype Outcome = Running | Completed | TimedOut | Interrupted

  /**
   * The loop's variables: the two queues (`q`, `q_stderr`), the two buffers
   * (`output`, `stderr_output`), how often `terminate_process` was called,
   * and how the loop was left.
   */
  datatype State = State(
    stdoutQueue: seq<string>,
    stderrQueue: seq<string>,
    output: string,
    stderrOutput: string,
    terminateCalls: nat,
    outcome: Outcome)

  /** Before the first iteration: nothing queued, nothing collected, no terminate call. */
  function Initial(): (r: State)
    ensures r.outcome == Running && r.terminateCalls == 0
    ensures r.stdoutQueue == [] && r.stderrQueue == [] && r.output == "" && r.stderrOutput == ""
  {
    State([], [], "", "", 0, Running)
  }

  /** Lines a drainer thread queued for the event, per stream. */
  function Arrivals(e: Event, stdout: bool): (r: seq<string>)
  {
    match e
    case Interrupt => []
    case Poll(outLines, errLines, _, _) => if stdout then outLines else errLines
  }

  /** The timeout test `timeout is not None and elapsed_time * 1000 > timeout`. */
  predicate Expired(timeout: Option<int>, elapsedMs: int): (r: bool)
    ensures timeout.None? ==> !r
    ensures timeout.Some? && elapsedMs <= timeout.value ==> !r
    ensures timeout.Some? && elapsedMs > timeout.value ==> r
  {
    timeout.Some? && elapsedMs > timeout.value
  }

  /**
   * The final drain after exit: every queued stdout line is taken, and kept
   * only when it does not already occur in `output` as a substring.
   */
  function DrainNew(output: string, lines: seq<string>): (r: string)
    ensures output <= r
    ensures |r| <= |output| + |Concat(lines)|
    decreases |lines|
  {
    if lines == [] then output
    else
      var next := if IsSubstring(lines[0], output) then output else output + lines[0];
      DrainNew(next, lines[1..])
  }

  /** Non-blocking `get_nowait` of at most one line, appended when non-empty. */
  function PopInto(queue: seq<string>, buffer: string): (r: (seq<string>, string))
    ensures queue == [] ==> r == (queue, buffer)
    ensures queue != [] ==> r.0 == queue[1..] && r.1 == buffer + queue[0]
    ensures r.1 + Concat(r.0) == buffer + Concat(queue)
  {
    if queue == [] then (queue, buffer)
    else (queue[1..], if queue[0] != "" then buffer + queue[0] else buffer)
  }

  /** One iteration of the loop. */
  function Step(s: State, e: Event, timeout: Option<int>): (t: State)
    requires s.outcome == Running
    ensures t.outcome == Completed <==> e.Poll? && e.exited
    ensures t.outcome == TimedOut <==> e.Poll? && !e.exited && Expired(timeout, e.elapsedMs)
    ensures t.outcome == Interrupted <==> e.Interrupt?
    ensures t.terminateCalls == s.terminateCalls + (if t.outcome in {TimedOut, Interrupted} then 1 else 0)
  {
    match e
    case Interrupt =>
      s.(terminateCalls := s.terminateCalls + 1, outcome := Interrupted)
    case Poll(outLines, errLines, exited, elapsedMs) =>
      var q := s.stdoutQueue + outLines;
      var qErr := s.stderrQueue + errLines;
      if exited then
        State([], qErr, DrainNew(s.output, q), s.stderrOutput, s.terminateCalls, Completed)
      else if Expired(timeout, elapsedMs) then
        State(q, qErr, s.output, s.stderrOutput, s.terminateCalls + 1, TimedOut)
      else
        var (q', output') := PopInto(q, s.output);
        var (qErr', stderrOutput') := PopInto(qErr, s.stderrOutput);
        State(q', qErr', output', stderrOutput', s.terminateCalls, Running)
  }

  /** The loop over a trace of observations, up to the first one that ends it. */
  function Run(s: State, trace: seq<Event>, timeout: Option<int>): (t: State)
    ensures s.outcome != Running ==> t == s
    decreases |trace|
  {
    if trace == [] || s.outcome != Running then s
    else Run(Step(s, trace[0], timeout), trace[1..], timeout)
  }

  /** The lines the drainers queued on one stream while the loop was running. */
  function Enqueued(s: State, trace: seq<Event>, timeout: Option<int>, stdout: bool): (r: seq<string>)
    decreases |trace|
  {
    if trace == [] || s.outcome != Running then []
    else Arrivals(trace[0], stdout) + Enqueued(Step(s, trace[0], timeout), trace[1..], timeout, stdout)
  }

  /**
   * The loop as the source runs it: the queues and buffers are local
   * variables updated in place, and the exit branch drains stdout with an
   * inner loop.
   */
  method PollUntilDone(timeout: Option<int>, trace: seq<Event>) returns (s: State)
    ensures s == Run(Initial(), trace, timeout)
  {
    var stdoutQueue: seq<string> := [];
    var stderrQueue: seq<string> := [];
    var output := "";
    var stderrOutput := "";
    var terminateCalls: nat := 0;
    var outcome := Running;
    var i := 0;
    while i < |trace| && outcome == Running
      invariant 0 <= i <= |trace|
      invariant Run(State(stdoutQueue, stderrQueue, output, stderrOutput, terminateCalls, outcome), trace[i..], timeout)
             == Run(Initial(), trace, timeout)
    {
      ghost var before := State(stdoutQueue, stderrQueue, output, stderrOutput, terminateCalls, outcome);
      var e := trace[i];
      assert trace[i..][1..] == trace[i + 1..];
      if e.Interrupt? {
        // KeyboardInterrupt: the except branch calls terminate_process once.
        terminateCalls, outcome := terminateCalls + 1, Interrupted;
      } else {
        // What the drainer threads queued since the previous iteration.
        stdoutQueue := stdoutQueue + e.stdoutLines;
        stderrQueue := stderrQueue + e.stderrLines;
        if e.exited {
          ghost var queued := stdoutQueue;
          ghost var output0 := output;
          while stdoutQueue != []
            invariant DrainNew(output, stdoutQueue) == DrainNew(output0, queued)
          {
            var line := stdoutQueue[0];
            stdoutQueue := stdoutQueue[1..];
            if !IsSubstring(line, output) {
              output := output + line;
            }
          }
          outcome := Completed;
        } else if timeout.Some? && e.elapsedMs > timeout.value {
          // TimeoutError: the except branch calls terminate_process once.
          terminateCalls, outcome := terminateCalls + 1, TimedOut;
        } else {
          if stdoutQueue != [] {
            var line := stdoutQueue[0];
            stdoutQueue := stdoutQueue[1..];
            if line != "" {
              output := output + line;
            }
          }
          if stderrQueue != [] {
            var line := stderrQueue[0];
            stderrQueue := stderrQueue[1..];
            if line != "" {
              stderrOutput := stderrOutput + line;
            }
          }
        }
      }
      assert State(stdoutQueue, stderrQueue, output, stderrOutput, terminateCalls, outcome) == Step(before, e, timeout);
      i := i + 1;
    }
    s := State(stdoutQueue, stderrQueue, output, stderrOutput, terminateCalls, outcome);
  }
}
