/**
 * `execute_command` as a whole: normalise the timeout, rewrite the command,
 * count the run on the project, replay a stored response when the project
 * skips steps, otherwise run the polling loop and assemble the answer.
 */
module Execution {
  import opened Options
  import opened CommandPrep
  import opened PollLoop
  import opened CommandResult

  /** The tunables of `const/code_execution.py`, which is not part of this model. */
  datatype Limits = Limits(minRunTime: int, maxRunTime: int, maxOutputLength: int)

  /** A stored command run, as the history lookup returns it. */
  datatype CommandRun = CommandRun(command: string, cliResponse: string)

  /**
   * What the call yields: a replayed response, the assembled text and how the
   * loop ended, or `StillRunning` when the observed trace ends before the loop does.
   */
  datatype Reply =
    | Replayed(response: string)
    | Finished(response: string, outcome: Outcome)
    | StillRunning(state: State)

  /** The fields of the project object that `execute_command` reads or writes. */
  class Project {
    var commandRunsCount: int
    var skipSteps: bool
    var lastCommandRun: Option<CommandRun>

    constructor (skipSteps: bool)
      ensures this.commandRunsCount == 0 && this.skipSteps == skipSteps && this.lastCommandRun == None
    {
      this.commandRunsCount := 0;
      this.skipSteps := skipSteps;
      this.lastCommandRun := None;
    }
  }

  /** The reply once the loop has left: the assembled text, even after a timeout or interrupt. */
  function Answer(s: State, cap: int): (r: Reply)
    ensures s.outcome == Running <==> r.StillRunning?
    ensures s.outcome != Running ==> r == Finished(Assemble(s.output, s.stderrOutput, cap), s.outcome)
  {
    if s.outcome == Running then StillRunning(s)
    else Finished(Assemble(s.output, s.stderrOutput, cap), s.outcome)
  }

  /**
   * `execute_command(project, command, timeout)`. `history` stands for the
   * stored runs of this project, keyed by the command text actually run;
   * `trace` for what the spawned process and the clock do.
   */
  method ExecuteCommand(project: Project, limits: Limits, command: string, timeout: Option<int>,
                        history: map<string, CommandRun>, trace: seq<Event>) returns (reply: Reply)
    modifies project
    ensures project.commandRunsCount == old(project.commandRunsCount) + 1
    ensures project.skipSteps == old(project.skipSteps)
    ensures var run := ShellCommand(command);
      if run in history && old(project.skipSteps) then
        reply == Replayed(history[run].cliResponse) && project.lastCommandRun == Some(history[run])
      else
        && project.lastCommandRun == old(project.lastCommandRun)
        && reply == Answer(Run(Initial(), trace, NormaliseTimeout(timeout, limits.minRunTime, limits.maxRunTime)),
                           limits.maxOutputLength)
  {
    var ms := NormaliseTimeout(timeout, limits.minRunTime, limits.maxRunTime);
    var run := ShellCommand(command);
    project.commandRunsCount := project.commandRunsCount + 1;
    if run in history && project.skipSteps {
      project.lastCommandRun := Some(history[run]);
      return Replayed(history[run].cliResponse);
    }
    var s := PollUntilDone(ms, trace);
    reply := Answer(s, limits.maxOutputLength);
  }
}
