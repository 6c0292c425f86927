/**
 * What `execute_command` does to its arguments before anything is spawned:
 * the timeout is normalised to milliseconds and clamped, and a command that
 * uses the shell built-ins `cd` or `source` is wrapped in `bash -c '...'`.
 */
module CommandPrep {
  import opened Options
  import opened Text

  /** A timeout under 1000 is read as seconds and scaled to milliseconds. */
  function InMillis(timeout: int): (ms: int)
    ensures timeout < 1000 ==> ms == timeout * 1000
    ensures timeout >= 1000 ==> ms == timeout
  {
    if timeout < 1000 then timeout * 1000 else timeout
  }

  /**
   * `min(max(ms, minRunTime), maxRunTime)`: the clamp of `execute_command`.
   * With `minRunTime > maxRunTime` Python's expression yields `maxRunTime`.
   */
  function Clamp(ms: int, minRunTime: int, maxRunTime: int): (r: int)
    ensures minRunTime <= maxRunTime ==> minRunTime <= r <= maxRunTime
    ensures minRunTime <= ms <= maxRunTime ==> r == ms
    ensures ms < minRunTime <= maxRunTime ==> r == minRunTime
    ensures maxRunTime < ms ==> r == maxRunTime
    ensures maxRunTime < minRunTime ==> r == maxRunTime
  {
    var atLeastMin := if ms < minRunTime then minRunTime else ms;
    if atLeastMin < maxRunTime then atLeastMin else maxRunTime
  }

  /** Timeout normalisation: `None` means "no timeout" and stays so. */
  function NormaliseTimeout(timeout: Option<int>, minRunTime: int, maxRunTime: int): (r: Option<int>)
    ensures r.None? <==> timeout.None?
    ensures timeout.Some? && minRunTime <= maxRunTime ==> minRunTime <= r.value <= maxRunTime
    ensures timeout.Some? && minRunTime <= InMillis(timeout.value) <= maxRunTime ==> r.value == InMillis(timeout.value)
  {
    match timeout
    case None => None
    case Some(t) => Some(Clamp(InMillis(t), minRunTime, maxRunTime))
  }

  /**
   * When the lower bound is at least 1000 every normalised value is already in
   * milliseconds and inside the bounds, so normalising again changes nothing.
   */
  lemma NormaliseIdempotent(timeout: Option<int>, minRunTime: int, maxRunTime: int)
    requires 1000 <= minRunTime <= maxRunTime
    ensures NormaliseTimeout(NormaliseTimeout(timeout, minRunTime, maxRunTime), minRunTime, maxRunTime)
         == NormaliseTimeout(timeout, minRunTime, maxRunTime)
  {
  }

  /** The built-ins that make `execute_command` go through `bash -c`. */
  predicate NeedsShell(command: string): (r: bool)
    ensures r <==> (exists i :: OccursAt("cd ", command, i)) || (exists i :: OccursAt("source ", command, i))
  {
    IsSubstringAt("cd ", command);
    IsSubstringAt("source ", command);
    IsSubstring("cd ", command) || IsSubstring("source ", command)
  }

  const ShellPrefix: string := "bash -c '"
  const ShellSuffix: string := "'"

  /** The command rewrite: wrap in `bash -c '...'` when a built-in appears. */
  function ShellCommand(command: string): (r: string)
    ensures NeedsShell(command) ==> r == "bash -c '" + command + "'"
    ensures !NeedsShell(command) ==> r == command
  {
    if NeedsShell(command) then ShellPrefix + command + ShellSuffix else command
  }

  /**
   * The wrapped command can be recovered, and the wrapped text still needs a
   * shell: the rewrite is not idempotent, a second pass wraps again.
   */
  lemma ShellCommandInverse(command: string)
    requires NeedsShell(command)
    ensures var r := ShellCommand(command);
      |r| == |command| + 10 && r[9..|r| - 1] == command && NeedsShell(r)
  {
    var r := ShellCommand(command);
    assert r[9..|r| - 1] == command;
    if IsSubstring("cd ", command) {
      SubstringOfPrepended("cd ", ShellPrefix, command);
      SubstringOfExtension("cd ", ShellPrefix + command, ShellSuffix);
    } else {
      SubstringOfPrepended("source ", ShellPrefix, command);
      SubstringOfExtension("source ", ShellPrefix + command, ShellSuffix);
    }
  }

  /** Whether a command needs the shell is unchanged by the rewrite. */
  lemma ShellCommandKeepsNeed(command: string)
    ensures NeedsShell(ShellCommand(command)) <==> NeedsShell(command)
  {
    if NeedsShell(command) {
      ShellCommandInverse(command);
    }
  }
}
