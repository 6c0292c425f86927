/**
 * The text `execute_command` returns: an optional `stderr` section and a
 * `stdout` section, each fenced with three back-quotes and holding only the
 * most recent characters of its buffer.
 */
module CommandResult {

  /**
   * Python's `s[-cap:]`. For a positive `cap` this is the last `cap`
   * characters, or all of `s` when it is shorter; for `cap <= 0` the start
   * index `-cap` is non-negative, so `cap == 0` keeps the whole string.
   */
  function Tail(s: string, cap: int): (r: string)
    ensures |r| <= |s| && r == s[|s| - |r|..]
    ensures cap > 0 ==> |r| == if |s| <= cap then |s| else cap
    ensures cap <= 0 ==> |r| == if -cap <= |s| then |s| + cap else 0
  {
    if cap > 0 then
      if |s| <= cap then s else s[|s| - cap..]
    else
      if -cap <= |s| then s[-cap..] else []
  }

  const StderrHeader: string := "stderr:\n```\n"
  const StdoutHeader: string := "stdout:\n```\n"
  const Fence: string := "\n```"

  /** Result assembly from the two buffers and `MAX_COMMAND_OUTPUT_LENGTH`. */
  function Assemble(output: string, stderrOutput: string, cap: int): (r: string)
    ensures stderrOutput == "" ==> r == "stdout:\n```\n" + Tail(output, cap) + "\n```"
    ensures stderrOutput != "" ==>
      r == "stderr:\n```\n" + Tail(stderrOutput, cap) + "\n```\n" + "stdout:\n```\n" + Tail(output, cap) + "\n```"
  {
    var stderrSection := if stderrOutput != "" then StderrHeader + Tail(stderrOutput, cap) + Fence + "\n" else "";
    stderrSection + StdoutHeader + Tail(output, cap) + Fence
  }

  /** With a positive cap the tail is the whole text when it fits and the last `cap` characters otherwise. */
  lemma TailIsRecentOutput(s: string, cap: int)
    requires cap > 0
    ensures |Tail(s, cap)| <= cap
    ensures |s| <= cap ==> Tail(s, cap) == s
    ensures |s| > cap ==> Tail(s, cap) == s[|s| - cap..]
  {
  }

  /** The result opens with a `stderr` section exactly when something was written to stderr. */
  lemma AssembleOpensWithStderrIff(output: string, stderrOutput: string, cap: int)
    ensures var r := Assemble(output, stderrOutput, cap);
      (|r| >= |StderrHeader| && r[..|StderrHeader|] == StderrHeader) <==> stderrOutput != ""
  {
    var r := Assemble(output, stderrOutput, cap);
    if stderrOutput == "" {
      assert r[3] == 'o' != StderrHeader[3];
    } else {
      assert r[..|StderrHeader|] == StderrHeader;
    }
  }

  /** The result always ends with the most recent stdout, then the closing fence. */
  lemma AssembleEndsWithRecentStdout(output: string, stderrOutput: string, cap: int)
    requires cap > 0
    ensures var r := Assemble(output, stderrOutput, cap);
      var keep := if |output| <= cap then |output| else cap;
      |r| >= keep + |Fence| && r[|r| - keep - |Fence|..] == output[|output| - keep..] + Fence
  {
    var r := Assemble(output, stderrOutput, cap);
    var t := Tail(output, cap);
    var head := if stderrOutput != "" then StderrHeader + Tail(stderrOutput, cap) + Fence + "\n" else "";
    assert r == (head + StdoutHeader) + (t + Fence);
    assert r[|r| - |t| - |Fence|..] == t + Fence;
  }

  /** The result never exceeds twice the cap plus the fixed headers and fences. */
  lemma AssembleLengthBound(output: string, stderrOutput: string, cap: int)
    requires cap > 0
    ensures |Assemble(output, stderrOutput, cap)| <= 2 * cap + 33
    ensures stderrOutput == "" ==> |Assemble(output, stderrOutput, cap)| <= cap + 16
  {
  }

  /** `echo hello` with nothing on stderr. */
  lemma AssembleEchoHello(cap: int)
    requires cap >= 6
    ensures Assemble("hello\n", "", cap) == "stdout:\n```\nhello\n\n```"
  {
    assert Tail("hello\n", cap) == "hello\n";
  }
}
