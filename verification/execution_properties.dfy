/** End-to-end consequences for a fresh run of `execute_command`. */
module ExecutionProperties {
  import opened Options
  import opened CommandPrep
  import opened PollLoop
  import opened PollLoopProperties
  import opened CommandResult
  import opened Execution

  /** A timeout still answers with the partial output, and terminates the process once. */
  lemma {:induction false} TimeoutStillAnswers(limits: Limits, timeout: Option<int>, trace: seq<Event>)
    requires Run(Initial(), trace, NormaliseTimeout(timeout, limits.minRunTime, limits.maxRunTime)).outcome == TimedOut
    ensures var s := Run(Initial(), trace, NormaliseTimeout(timeout, limits.minRunTime, limits.maxRunTime));
      && timeout.Some?
      && s.terminateCalls == 1
      && Answer(s, limits.maxOutputLength) == Finished(Assemble(s.output, s.stderrOutput, limits.maxOutputLength), TimedOut)
  {
    var ms := NormaliseTimeout(timeout, limits.minRunTime, limits.maxRunTime);
    RunTerminatesOnlyOnAbort(Initial(), trace, ms);
    if timeout.None? {
      NoTimeoutNeverTimesOut(Initial(), trace);
    }
  }

  /** A process that exits on the first observation completes without a terminate call. */
  lemma EchoHello(limits: Limits, timeout: Option<int>, elapsedMs: int)
    requires limits.maxOutputLength >= 6
    ensures var s := Run(Initial(), [Poll(["hello\n"], [], true, elapsedMs)], NormaliseTimeout(timeout, limits.minRunTime, limits.maxRunTime));
      && s.terminateCalls == 0
      && Answer(s, limits.maxOutputLength) == Finished("stdout:\n```\nhello\n\n```", Completed)
  {
    var ms := NormaliseTimeout(timeout, limits.minRunTime, limits.maxRunTime);
    var e := Poll(["hello\n"], [], true, elapsedMs);
    assert DrainNew("", ["hello\n"]) == "hello\n" by {
      assert !Text.IsSubstring("hello\n", "");
      assert ["hello\n"][1..] == [];
    }
    var t := Step(Initial(), e, ms);
    assert t == State([], [], "hello\n", "", 0, Completed);
    assert Run(Initial(), [e], ms) == t;
    AssembleEchoHello(limits.maxOutputLength);
  }
}
