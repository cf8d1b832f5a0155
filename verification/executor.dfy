/** The command-execution seam (src/command_executor.rs): run a program with
    arguments and environment variables, and capture its exit status and
    output. It is an oracle here; operations that use it also return the
    list of invocations they made, in order. */
module Executor {
  import opened Common

  /** A process exit code (`i32`). */
  type ExitCode = x: int | -0x8000_0000 <= x < 0x8000_0000

  /** Environment variables as an ordered list of pairs. */
  type EnvList = seq<(string, string)>

  /** One call `execute(program, args, env)`. */
  datatype Invocation = Invocation(program: string, args: seq<string>, env: EnvList)

  /** A finished process: `status` is `None` when there is no exit code. */
  datatype Output = Output(status: Option<ExitCode>, stdout: string, stderr: string)

  /** `Err` when the program could not be spawned at all. */
  type ExecResult = Result<Output, string>

  /** The executor: what each invocation yields. */
  type Exec = Invocation -> ExecResult

  /** A value together with the invocations made to compute it. */
  datatype Traced<+T> = Traced(value: T, calls: seq<Invocation>)

  /** The executor ran the program and it exited with status 0. */
  predicate ExitedZero(r: ExecResult) {
    r.Ok? && r.value.status == Some(0)
  }

  /** Number of calls to `program` whose first argument is `subcommand`. */
  function CountCalls(calls: seq<Invocation>, program: string, subcommand: string): (n: nat)
    ensures n <= |calls|
  {
    if |calls| == 0 then 0
    else
      (if calls[0].program == program && |calls[0].args| > 0 && calls[0].args[0] == subcommand
       then 1 else 0)
      + CountCalls(calls[1..], program, subcommand)
  }

  /** Counting distributes over concatenating two traces. */
  lemma {:induction false} CountCallsAppend(a: seq<Invocation>, b: seq<Invocation>, program: string, subcommand: string)
    ensures CountCalls(a + b, program, subcommand) == CountCalls(a, program, subcommand) + CountCalls(b, program, subcommand)
    decreases |a|
  {
    if |a| > 0 {
      assert (a + b)[0] == a[0];
      assert (a + b)[1..] == a[1..] + b;
      CountCallsAppend(a[1..], b, program, subcommand);
    } else {
      assert a + b == b;
    }
  }

  /** Every call in the list runs `program`. */
  predicate OnlyRuns(calls: seq<Invocation>, program: string) {
    forall i :: 0 <= i < |calls| ==> calls[i].program == program
  }

  /** No call in the list runs `program`. */
  predicate NeverRuns(calls: seq<Invocation>, program: string) {
    forall i :: 0 <= i < |calls| ==> calls[i].program != program
  }

  /** Two traces that never run `program` concatenate to one that does not. */
  lemma NeverRunsAppend(a: seq<Invocation>, b: seq<Invocation>, program: string)
    requires NeverRuns(a, program) && NeverRuns(b, program)
    ensures NeverRuns(a + b, program)
  {
    forall i | 0 <= i < |a + b|
      ensures (a + b)[i].program != program
    {
      if i >= |a| {
        assert (a + b)[i] == b[i - |a|];
      }
    }
  }
}
