/** What the polling loop promises, stated over `Step`, `Run` and `DrainNew`. */
module PollLoopProperties {
  import opened Options
  import opened Text
  import opened PollLoop

  // ---------------------------------------------------------------- final drain

  /** After the final drain every drained line occurs somewhere in `output`. */
  lemma {:induction false} DrainNewCoversLines(output: string, lines: seq<string>)
    ensures forall l :: l in lines ==> IsSubstring(l, DrainNew(output, lines))
    decreases |lines|
  {
    if lines != [] {
      var line := lines[0];
      var next := if IsSubstring(line, output) then output else output + line;
      assert IsSubstring(line, next) by {
        if !IsSubstring(line, output) {
          SubstringOfItself(line);
          SubstringOfPrepended(line, output, line);
        }
      }
      DrainNewCoversLines(next, lines[1..]);
      var r := DrainNew(output, lines);
      assert next <= r;
      assert IsSubstring(line, r) by {
        assert r == next + r[|next|..];
        SubstringOfExtension(line, next, r[|next|..]);
      }
      forall l | l in lines
        ensures IsSubstring(l, r)
      {
        if l != line {
          assert l in lines[1..];
        }
      }
    }
  }

  /** Lines already present in `output` are all skipped. */
  lemma {:induction false} DrainNewSkipsSeen(output: string, lines: seq<string>)
    requires forall l :: l in lines ==> IsSubstring(l, output)
    ensures DrainNew(output, lines) == output
    decreases |lines|
  {
    if lines != [] {
      assert lines[0] in lines;
      DrainNewSkipsSeen(output, lines[1..]);
    }
  }

  /** A line not yet present in `output` is appended in queue order. */
  lemma DrainNewAppendsUnseen(output: string, line: string, rest: seq<string>)
    requires !IsSubstring(line, output)
    ensures DrainNew(output, [line] + rest) == DrainNew(output + line, rest)
  {
    assert ([line] + rest)[1..] == rest;
  }

  /** A line already present in `output` is skipped, and the rest are still considered. */
  lemma DrainNewSkipsSeenLine(output: string, line: string, rest: seq<string>)
    requires IsSubstring(line, output)
    ensures DrainNew(output, [line] + rest) == DrainNew(output, rest)
  {
    assert ([line] + rest)[1..] == rest;
  }

  /**
   * Raw containment drops a genuinely new line that happens to occur inside
   * earlier output.
   */
  lemma DrainNewDropsLineSeenInside()
    ensures DrainNew("hello\n", ["lo\n"]) == "hello\n"
  {
    assert "lo\n" <= "hello\n"[3..];
    assert IsSubstring("lo\n", "hello\n"[3..]);
    assert IsSubstring("lo\n", "hello\n"[2..]);
    assert IsSubstring("lo\n", "hello\n"[1..]);
    assert IsSubstring("lo\n", "hello\n");
    assert ["lo\n"][1..] == [];
  }

  // ---------------------------------------------------------------- one step

  /** An ordinary iteration moves at most one line per stream, in FIFO order. */
  lemma PollStepMovesOneLinePerStream(s: State, e: Event, timeout: Option<int>)
    requires s.outcome == Running
    requires e.Poll? && !e.exited && !Expired(timeout, e.elapsedMs)
    ensures var t := Step(s, e, timeout);
      var q := s.stdoutQueue + e.stdoutLines;
      var qErr := s.stderrQueue + e.stderrLines;
      && t.outcome == Running && t.terminateCalls == s.terminateCalls
      && (q == [] ==> t.stdoutQueue == [] && t.output == s.output)
      && (q != [] ==> t.stdoutQueue == q[1..] && t.output == s.output + q[0])
      && (qErr == [] ==> t.stderrQueue == [] && t.stderrOutput == s.stderrOutput)
      && (qErr != [] ==> t.stderrQueue == qErr[1..] && t.stderrOutput == s.stderrOutput + qErr[0])
  {
  }

  /**
   * Exit is checked before the timeout: an exited process completes even
   * when the timeout has passed. Only stdout is drained; stderr is left as is.
   */
  lemma ExitStepDrainsStdoutOnly(s: State, e: Event, timeout: Option<int>)
    requires s.outcome == Running
    requires e.Poll? && e.exited
    ensures var t := Step(s, e, timeout);
      && t.outcome == Completed
      && t.terminateCalls == s.terminateCalls
      && t.stdoutQueue == []
      && t.output == DrainNew(s.output, s.stdoutQueue + e.stdoutLines)
      && t.stderrQueue == s.stderrQueue + e.stderrLines
      && t.stderrOutput == s.stderrOutput
  {
  }

  /** A timeout or interrupt keeps both buffers as they are and terminates once. */
  lemma AbortStepKeepsBuffers(s: State, e: Event, timeout: Option<int>)
    requires s.outcome == Running
    requires e.Interrupt? || (!e.exited && Expired(timeout, e.elapsedMs))
    ensures var t := Step(s, e, timeout);
      && t.outcome in {TimedOut, Interrupted}
      && t.terminateCalls == s.terminateCalls + 1
      && t.output == s.output && t.stderrOutput == s.stderrOutput
  {
  }

  // ---------------------------------------------------------------- whole runs

  /**
   * `buffer` holds, in order, every line of `enqueued` that was taken off the
   * queue, and `queue` holds the rest.
   */
  predicate Drained(buffer: string, queue: seq<string>, enqueued: seq<string>)
  {
    && |queue| <= |enqueued|
    && queue == enqueued[|enqueued| - |queue|..]
    && buffer == Concat(enqueued[..|enqueued| - |queue|])
  }

  /** `output` is the join of the first `k` lines followed by the final drain of the others. */
  predicate DrainedAfter(output: string, enqueued: seq<string>, k: int)
  {
    0 <= k <= |enqueued| && output == DrainNew(Concat(enqueued[..k]), enqueued[k..])
  }

  /** The stdout side: FIFO until exit, then one final drain of what was left. */
  ghost predicate StdoutAccounted(s: State, enqueued: seq<string>)
  {
    if s.outcome == Completed then
      s.stdoutQueue == [] && exists k :: DrainedAfter(s.output, enqueued, k)
    else Drained(s.output, s.stdoutQueue, enqueued)
  }

  lemma {:induction false} PopKeepsDrained(queue: seq<string>, buffer: string, enqueued: seq<string>, more: seq<string>)
    requires Drained(buffer, queue, enqueued)
    ensures Drained(PopInto(queue + more, buffer).1, PopInto(queue + more, buffer).0, enqueued + more)
  {
    var all := enqueued + more;
    var k := |enqueued| - |queue|;
    assert |all| - |queue + more| == k;
    assert all[k..] == queue + more;
    assert all[..k] == enqueued[..k];
    if queue + more != [] {
      assert all[..k + 1] == enqueued[..k] + [(queue + more)[0]];
      ConcatSnoc(enqueued[..k], (queue + more)[0]);
      assert all[k + 1..] == (queue + more)[1..];
    }
  }

  lemma EnqueueKeepsDrained(queue: seq<string>, buffer: string, enqueued: seq<string>, more: seq<string>)
    requires Drained(buffer, queue, enqueued)
    ensures Drained(buffer, queue + more, enqueued + more)
  {
    var all := enqueued + more;
    var k := |enqueued| - |queue|;
    assert all[k..] == queue + more;
    assert all[..k] == enqueued[..k];
  }

  lemma StepKeepsStderrDrained(s: State, e: Event, timeout: Option<int>, enqueued: seq<string>)
    requires s.outcome == Running
    requires Drained(s.stderrOutput, s.stderrQueue, enqueued)
    ensures var t := Step(s, e, timeout);
      Drained(t.stderrOutput, t.stderrQueue, enqueued + Arrivals(e, false))
  {
    if e.Interrupt? {
      assert enqueued + [] == enqueued;
    } else if e.exited || Expired(timeout, e.elapsedMs) {
      EnqueueKeepsDrained(s.stderrQueue, s.stderrOutput, enqueued, e.stderrLines);
    } else {
      PopKeepsDrained(s.stderrQueue, s.stderrOutput, enqueued, e.stderrLines);
    }
  }

  lemma ExitKeepsStdoutAccounted(s: State, e: Event, timeout: Option<int>, enqueued: seq<string>)
    requires s.outcome == Running && e.Poll? && e.exited
    requires Drained(s.output, s.stdoutQueue, enqueued)
    ensures StdoutAccounted(Step(s, e, timeout), enqueued + e.stdoutLines)
  {
    var t := Step(s, e, timeout);
    var all := enqueued + e.stdoutLines;
    var k := |enqueued| - |s.stdoutQueue|;
    assert all[..k] == enqueued[..k];
    assert all[k..] == s.stdoutQueue + e.stdoutLines;
    assert DrainedAfter(t.output, all, k);
  }

  lemma StepKeepsStdoutAccounted(s: State, e: Event, timeout: Option<int>, enqueued: seq<string>)
    requires s.outcome == Running
    requires StdoutAccounted(s, enqueued)
    ensures StdoutAccounted(Step(s, e, timeout), enqueued + Arrivals(e, true))
  {
    if e.Interrupt? {
      assert enqueued + [] == enqueued;
    } else if e.exited {
      ExitKeepsStdoutAccounted(s, e, timeout, enqueued);
    } else if Expired(timeout, e.elapsedMs) {
      EnqueueKeepsDrained(s.stdoutQueue, s.output, enqueued, e.stdoutLines);
    } else {
      PopKeepsDrained(s.stdoutQueue, s.output, enqueued, e.stdoutLines);
    }
  }

  // Congruence and unfolding helpers below: they hold by definition and are
  // called only to keep the run-level inductions small for the solver.
  lemma StdoutAccountedSame(t: State, a: seq<string>, b: seq<string>)
    requires StdoutAccounted(t, a) && a == b
    ensures StdoutAccounted(t, b)
  {
  }

  /** One iteration of `Run` and of `Enqueued`, unfolded. */
  lemma RunUnfold(s: State, trace: seq<Event>, timeout: Option<int>, stdout: bool)
    requires s.outcome == Running && trace != []
    ensures var u := Step(s, trace[0], timeout);
      && Run(s, trace, timeout) == Run(u, trace[1..], timeout)
      && Enqueued(s, trace, timeout, stdout) == Arrivals(trace[0], stdout) + Enqueued(u, trace[1..], timeout, stdout)
  {
  }

  /** A loop that has ended, or has nothing left to observe, stays where it is. */
  lemma RunStopped(s: State, trace: seq<Event>, timeout: Option<int>, stdout: bool)
    requires s.outcome != Running || trace == []
    ensures Run(s, trace, timeout) == s && Enqueued(s, trace, timeout, stdout) == []
  {
  }

  /** The stdout side stays accounted for over any number of iterations. */
  lemma {:induction false} RunKeepsStdoutAccounted(s: State, trace: seq<Event>, timeout: Option<int>, outs: seq<string>)
    requires s.outcome == Running
    requires Drained(s.output, s.stdoutQueue, outs)
    ensures StdoutAccounted(Run(s, trace, timeout), outs + Enqueued(s, trace, timeout, true))
    decreases |trace|
  {
    var all := outs + Enqueued(s, trace, timeout, true);
    if trace == [] {
      assert Run(s, trace, timeout) == s && all == outs by {
        RunStopped(s, trace, timeout, true);
        assert outs + [] == outs;
      }
      StdoutAccountedSame(s, outs, all);
    } else {
      var e := trace[0];
      var u := Step(s, e, timeout);
      var more := Arrivals(e, true);
      var rest := Enqueued(u, trace[1..], timeout, true);
      var t := Run(u, trace[1..], timeout);
      assert Run(s, trace, timeout) == t && all == (outs + more) + rest by {
        RunUnfold(s, trace, timeout, true);
        assert (outs + more) + rest == outs + (more + rest);
      }
      assert StdoutAccounted(t, (outs + more) + rest) by {
        StepKeepsStdoutAccounted(s, e, timeout, outs);
        if u.outcome == Running {
          RunKeepsStdoutAccounted(u, trace[1..], timeout, outs + more);
        } else {
          RunStopped(u, trace[1..], timeout, true);
          assert (outs + more) + [] == outs + more;
        }
      }
      StdoutAccountedSame(t, (outs + more) + rest, all);
    }
  }

  /** The stderr side: FIFO in every state, exit included. */
  predicate StderrAccounted(s: State, enqueued: seq<string>)
  {
    Drained(s.stderrOutput, s.stderrQueue, enqueued)
  }

  // A congruence helper, kept for the same solver-stability reason.
  lemma StderrAccountedSame(t: State, a: seq<string>, b: seq<string>)
    requires StderrAccounted(t, a) && a == b
    ensures StderrAccounted(t, b)
  {
  }

  /** The stderr side stays FIFO over any number of iterations, exit included. */
  lemma {:induction false} RunKeepsStderrAccounted(s: State, trace: seq<Event>, timeout: Option<int>, errs: seq<string>)
    requires s.outcome == Running
    requires StderrAccounted(s, errs)
    ensures StderrAccounted(Run(s, trace, timeout), errs + Enqueued(s, trace, timeout, false))
    decreases |trace|
  {
    var all := errs + Enqueued(s, trace, timeout, false);
    if trace == [] {
      assert Run(s, trace, timeout) == s && all == errs by {
        RunStopped(s, trace, timeout, false);
        assert errs + [] == errs;
      }
      StderrAccountedSame(s, errs, all);
    } else {
      var e := trace[0];
      var u := Step(s, e, timeout);
      var more := Arrivals(e, false);
      var rest := Enqueued(u, trace[1..], timeout, false);
      var t := Run(u, trace[1..], timeout);
      assert Run(s, trace, timeout) == t && all == (errs + more) + rest by {
        RunUnfold(s, trace, timeout, false);
        assert (errs + more) + rest == errs + (more + rest);
      }
      assert StderrAccounted(t, (errs + more) + rest) by {
        StepKeepsStderrDrained(s, e, timeout, errs);
        if u.outcome == Running {
          RunKeepsStderrAccounted(u, trace[1..], timeout, errs + more);
        } else {
          RunStopped(u, trace[1..], timeout, false);
          assert (errs + more) + [] == errs + more;
        }
      }
      StderrAccountedSame(t, (errs + more) + rest, all);
    }
  }

  /**
   * Per-stream FIFO from queue to buffer: from the start, `stderr_output` is
   * always the in-order join of the stderr lines taken so far, and so is
   * `output` until the process exits; after exit `output` is that join for
   * some prefix followed by the final drain of the remaining stdout lines.
   */
  lemma RunFromStartIsFifo(trace: seq<Event>, timeout: Option<int>)
    ensures var t := Run(Initial(), trace, timeout);
      && StdoutAccounted(t, Enqueued(Initial(), trace, timeout, true))
      && StderrAccounted(t, Enqueued(Initial(), trace, timeout, false))
  {
    assert Drained("", [], []) by {
      assert Concat([]) == "";
    }
    RunKeepsStdoutAccounted(Initial(), trace, timeout, []);
    RunKeepsStderrAccounted(Initial(), trace, timeout, []);
    assert [] + Enqueued(Initial(), trace, timeout, true) == Enqueued(Initial(), trace, timeout, true);
    assert [] + Enqueued(Initial(), trace, timeout, false) == Enqueued(Initial(), trace, timeout, false);
  }

  /** `terminate_process` is called exactly once on a timeout or interrupt, never otherwise. */
  lemma {:induction false} RunTerminatesOnlyOnAbort(s: State, trace: seq<Event>, timeout: Option<int>)
    requires s.outcome == Running && s.terminateCalls == 0
    ensures var t := Run(s, trace, timeout);
      t.terminateCalls == if t.outcome in {TimedOut, Interrupted} then 1 else 0
    decreases |trace|
  {
    if trace != [] {
      var u := Step(s, trace[0], timeout);
      if u.outcome == Running {
        RunTerminatesOnlyOnAbort(u, trace[1..], timeout);
      }
    }
  }

  /** The loop keeps running exactly while no observation ends it. */
  lemma {:induction false} RunStillRunningIff(s: State, trace: seq<Event>, timeout: Option<int>)
    requires s.outcome == Running
    ensures Run(s, trace, timeout).outcome == Running
        <==> forall i :: 0 <= i < |trace| ==>
               trace[i].Poll? && !trace[i].exited && !Expired(timeout, trace[i].elapsedMs)
    decreases |trace|
  {
    if trace != [] {
      var u := Step(s, trace[0], timeout);
      if u.outcome == Running {
        RunStillRunningIff(u, trace[1..], timeout);
        forall i | 1 <= i < |trace|
          ensures trace[i] == trace[1..][i - 1]
        {
        }
      }
    }
  }

  /** Without a timeout the loop never ends by timing out. */
  lemma {:induction false} NoTimeoutNeverTimesOut(s: State, trace: seq<Event>)
    requires s.outcome != TimedOut
    ensures Run(s, trace, None).outcome != TimedOut
    decreases |trace|
  {
    if trace != [] && s.outcome == Running {
      NoTimeoutNeverTimesOut(Step(s, trace[0], None), trace[1..]);
    }
  }
}
