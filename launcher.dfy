/**
 * The launch decisions of `main` (linux-shell/shell.c lines 71-146) and the
 * redirection choices of `execArgs` (lines 212-241), as an abstract plan.
 *
 * The plan says whether the built-in `cd` runs in the shell itself, and
 * otherwise which argument vectors are executed, in one process or in two
 * processes joined by a pipe, and which descriptor operations each process
 * performs before it replaces its image.  The system calls themselves
 * (fork, pipe, dup2, open, close, execvp, chdir, wait) are not modelled;
 * they appear only as the steps of a process script.
 */
module Launcher {
  import opened Wrappers
  import opened Parser

  /** The one built-in command (line 71). */
  const BUILTIN_CD: string := "cd"

  /** A redirection that `execArgs` applies before exec. */
  datatype Redirect = StdinFrom(path: string) | StdoutTo(path: string)

  datatype Plan =
    | Builtin(dir: Option<string>)
    | Single(argv: seq<string>, redirs: seq<Redirect>)
    | Piped(leftArgv: seq<string>, rightArgv: seq<string>, redirs: seq<Redirect>)

  /**
   * The redirections of `execArgs`, in the order it applies them: standard
   * input when there is an input file (lines 215-223), then standard output
   * when there is an output file (lines 226-234).
   */
  function Redirections(c: Command): (rs: seq<Redirect>)
    ensures |rs| == (if c.inPath.Some? then 1 else 0) + (if c.outPath.Some? then 1 else 0)
    ensures forall i :: 0 <= i < |rs| && rs[i].StdinFrom? ==> c.inPath == Some(rs[i].path)
    ensures forall i :: 0 <= i < |rs| && rs[i].StdoutTo? ==> c.outPath == Some(rs[i].path)
    ensures forall i, j :: 0 <= i < j < |rs| ==> rs[i].StdinFrom? && rs[j].StdoutTo?
  {
    (match c.inPath case Some(p) => [StdinFrom(p)] case None => []) +
    (match c.outPath case Some(p) => [StdoutTo(p)] case None => [])
  }

  /**
   * The built-in test of line 71.  Its second half, `args[1] != NULL`,
   * compares an array with NULL and is always true, so the first argument
   * alone decides.
   */
  predicate IsBuiltin(c: Command)
  {
    |c.arguments| > 0 && c.arguments[0] == BUILTIN_CD
  }

  /**
   * The directory handed to `chdir` (line 73): the second argument.  For a
   * lone `cd` the source passes a slot that was never written; here there
   * is no target.
   */
  function CdTarget(c: Command): Option<string>
  {
    if |c.arguments| >= 2 then Some(c.arguments[1]) else None
  }

  /**
   * What `main` does with a parsed command: `cd` first (lines 71-74), then
   * the pipe test `has_pipe > 0` (line 85), splitting the arguments into the
   * stages before and after the pipe (lines 87-96), and otherwise one stage
   * with all arguments (lines 140-143).  Both stages of a pipe go through
   * `execArgs` (lines 119, 130), so both get the same redirections.
   */
  function LaunchPlan(c: Command): (p: Plan)
    requires c.Valid()
    ensures p.Builtin? <==> IsBuiltin(c)
    ensures p.Builtin? ==> p.dir == (if |c.arguments| >= 2 then Some(c.arguments[1]) else None)
    ensures p.Single? ==> p.argv == c.arguments && p.redirs == Redirections(c)
    ensures p.Single? ==> c.pipeSplit.None? || c.pipeSplit == Some(0)
    ensures p.Piped? <==> !IsBuiltin(c) && c.pipeSplit.Some? && c.pipeSplit.value > 0
    ensures p.Piped? ==>
      && p.leftArgv + p.rightArgv == c.arguments
      && |p.leftArgv| == c.pipeSplit.value
      && p.redirs == Redirections(c)
  {
    if IsBuiltin(c) then Builtin(CdTarget(c))
    else if c.pipeSplit.Some? && c.pipeSplit.value > 0 then
      var k := c.pipeSplit.value;
      assert c.arguments[..k] + c.arguments[k..] == c.arguments;
      Piped(c.arguments[..k], c.arguments[k..], Redirections(c))
    else Single(c.arguments, Redirections(c))
  }

  /**
   * `main`'s argument gathering as the loops of lines 89-96 and 140-143 that
   * copy the arguments into `argv` and `argv2`.
   */
  method BuildPlan(c: Command) returns (p: Plan)
    requires c.Valid()
    ensures p == LaunchPlan(c)
  {
    if |c.arguments| > 0 && c.arguments[0] == BUILTIN_CD {
      var dir: Option<string> := None;
      if |c.arguments| >= 2 {
        dir := Some(c.arguments[1]);
      }
      return Builtin(dir);
    }
    var redirs := Redirections(c);
    var n := |c.arguments|;
    if c.pipeSplit.Some? && c.pipeSplit.value > 0 {
      var k := c.pipeSplit.value;
      var argv: seq<string> := [];
      for i := 0 to k
        invariant argv == c.arguments[..i]
      {
        argv := argv + [c.arguments[i]];
      }
      var argv2: seq<string> := [];
      for i := k to n
        invariant argv2 == c.arguments[k..i]
      {
        argv2 := argv2 + [c.arguments[i]];
      }
      p := Piped(argv, argv2, redirs);
    } else {
      var argv: seq<string> := [];
      for i := 0 to n
        invariant argv == c.arguments[..i]
      {
        argv := argv + [c.arguments[i]];
      }
      p := Single(argv, redirs);
    }
  }

  // ---------------------------------------------------------------------
  // Process scripts and their effect on the descriptors

  /** One operation a launched process performs, in order. */
  datatype Action =
    | ClosePipeRead
    | ClosePipeWrite
    | DupPipeWriteToStdout
    | DupPipeReadToStdin
    | Bind(r: Redirect)
    | Exec(argv: seq<string>)

  /** The redirection part of `execArgs`, one step per redirection. */
  function RedirectSteps(rs: seq<Redirect>): (steps: seq<Action>)
    ensures |steps| == |rs| && forall i :: 0 <= i < |rs| ==> steps[i] == Bind(rs[i])
  {
    seq(|rs|, i requires 0 <= i < |rs| => Bind(rs[i]))
  }

  /** `execArgs`: the redirections, then exec. */
  function ExecArgs(rs: seq<Redirect>, argv: seq<string>): seq<Action>
  {
    RedirectSteps(rs) + [Exec(argv)]
  }

  /**
   * The script of every process the plan creates: none for the built-in;
   * one child without a pipe; with a pipe, the stage before it (the
   * grandchild, lines 114-119) and the stage after it (the child, lines
   * 125-130).
   */
  function Processes(p: Plan): seq<seq<Action>>
  {
    match p
    case Builtin(_) => []
    case Single(argv, rs) => [ExecArgs(rs, argv)]
    case Piped(l, r, rs) =>
      [[ClosePipeRead, DupPipeWriteToStdout, ClosePipeWrite] + ExecArgs(rs, l),
       [ClosePipeWrite, DupPipeReadToStdin, ClosePipeRead] + ExecArgs(rs, r)]
  }

  /** Where a standard stream of a process is connected. */
  datatype Stream = Terminal | PipeEnd | File(path: string)

  /** The descriptor state of a process: its two standard streams and whether it still holds each pipe end. */
  datatype Fds = Fds(stdin: Stream, stdout: Stream, holdsRead: bool, holdsWrite: bool)

  /** The effect of one step; a dup2 of an end already closed fails and changes nothing. */
  function Effect(f: Fds, s: Action): Fds
  {
    match s
    case ClosePipeRead => f.(holdsRead := false)
    case ClosePipeWrite => f.(holdsWrite := false)
    case DupPipeWriteToStdout => if f.holdsWrite then f.(stdout := PipeEnd) else f
    case DupPipeReadToStdin => if f.holdsRead then f.(stdin := PipeEnd) else f
    case Bind(StdinFrom(path)) => f.(stdin := File(path))
    case Bind(StdoutTo(path)) => f.(stdout := File(path))
    case Exec(_) => f
  }

  function Run(f: Fds, steps: seq<Action>): Fds
    decreases |steps|
  {
    if steps == [] then f else Run(Effect(f, steps[0]), steps[1..])
  }

  /** A process starts on the terminal; the two pipe stages start holding both ends of the pipe. */
  function StartOf(p: Plan): Fds
  {
    if p.Piped? then Fds(Terminal, Terminal, true, true) else Fds(Terminal, Terminal, false, false)
  }

  /** The file a redirection binds, or the default connection. */
  function InOr(c: Command, default: Stream): Stream
  {
    match c.inPath case Some(path) => File(path) case None => default
  }

  function OutOr(c: Command, default: Stream): Stream
  {
    match c.outPath case Some(path) => File(path) case None => default
  }

  lemma {:induction false} RunAppend(f: Fds, a: seq<Action>, b: seq<Action>)
    ensures Run(f, a + b) == Run(Run(f, a), b)
    decreases |a|
  {
    if a == [] {
      assert a + b == b;
    } else {
      assert (a + b)[1..] == a[1..] + b;
      RunAppend(Effect(f, a[0]), a[1..], b);
    }
  }

  /** Wiring the pipe leaves each stage's end on its standard stream and closes both descriptors. */
  lemma PipeWiring()
    ensures Run(Fds(Terminal, Terminal, true, true), [ClosePipeRead, DupPipeWriteToStdout, ClosePipeWrite])
      == Fds(Terminal, PipeEnd, false, false)
    ensures Run(Fds(Terminal, Terminal, true, true), [ClosePipeWrite, DupPipeReadToStdin, ClosePipeRead])
      == Fds(PipeEnd, Terminal, false, false)
  {
    var start := Fds(Terminal, Terminal, true, true);
    var left := [ClosePipeRead, DupPipeWriteToStdout, ClosePipeWrite];
    assert Run(start, left) == Run(start.(holdsRead := false), left[1..]);
    assert Run(start.(holdsRead := false), left[1..]) == Run(Fds(Terminal, PipeEnd, false, true), left[2..]);
    var right := [ClosePipeWrite, DupPipeReadToStdin, ClosePipeRead];
    assert Run(start, right) == Run(start.(holdsWrite := false), right[1..]);
    assert Run(start.(holdsWrite := false), right[1..]) == Run(Fds(PipeEnd, Terminal, true, false), right[2..]);
  }

  /** The redirection steps bind the files and leave the pipe ends alone. */
  lemma RunRedirections(f: Fds, c: Command)
    ensures Run(f, RedirectSteps(Redirections(c)))
      == Fds(InOr(c, f.stdin), OutOr(c, f.stdout), f.holdsRead, f.holdsWrite)
  {
    var rs := Redirections(c);
    var steps := RedirectSteps(rs);
    if |rs| == 2 {
      var g := Effect(f, steps[0]);
      assert Run(f, steps) == Run(g, steps[1..]);
      assert Run(g, steps[1..]) == Run(Effect(g, steps[1]), steps[2..]);
    } else if |rs| == 1 {
      assert Run(f, steps) == Run(Effect(f, steps[0]), steps[1..]);
    }
  }

  /** A script that ends in its one exec, and the descriptor state it leaves for the program. */
  predicate ReadyToExec(s: seq<Action>, start: Fds, argv: seq<string>, stdin: Stream, stdout: Stream)
  {
    && s != []
    && s[|s| - 1] == Exec(argv)
    && (forall i :: 0 <= i < |s| - 1 ==> !s[i].Exec?)
    && Run(start, s[..|s| - 1]) == Fds(stdin, stdout, false, false)
  }

  lemma ScriptReady(start: Fds, wiring: seq<Action>, c: Command, argv: seq<string>)
    requires forall i :: 0 <= i < |wiring| ==> !wiring[i].Exec?
    requires var w := Run(start, wiring); !w.holdsRead && !w.holdsWrite
    ensures var w := Run(start, wiring);
      ReadyToExec(wiring + ExecArgs(Redirections(c), argv), start, argv, InOr(c, w.stdin), OutOr(c, w.stdout))
  {
    var rsteps := RedirectSteps(Redirections(c));
    var s := wiring + ExecArgs(Redirections(c), argv);
    assert s == (wiring + rsteps) + [Exec(argv)];
    assert s[..|s| - 1] == wiring + rsteps;
    RunAppend(start, wiring, rsteps);
    RunRedirections(Run(start, wiring), c);
  }

  /**
   * What each launched program finds when its image replaces the process:
   * the arguments it is given, where its standard streams are connected,
   * and that it holds no pipe descriptor.  Without a pipe the program reads
   * the input file or the terminal and writes the output file or the
   * terminal.  With a pipe the first stage writes into the pipe and the
   * second reads from it, except that both stages apply both redirections
   * after wiring the pipe, so a file named with `<` or `>` takes the place
   * of the pipe end.  The built-in creates no process.
   */
  lemma ExecEnvironment(c: Command)
    requires c.Valid()
    ensures var p := LaunchPlan(c);
      && (p.Builtin? ==> Processes(p) == [])
      && (p.Single? ==>
            && |Processes(p)| == 1
            && ReadyToExec(Processes(p)[0], StartOf(p), c.arguments, InOr(c, Terminal), OutOr(c, Terminal)))
      && (p.Piped? ==>
            && |Processes(p)| == 2
            && ReadyToExec(Processes(p)[0], StartOf(p), p.leftArgv, InOr(c, Terminal), OutOr(c, PipeEnd))
            && ReadyToExec(Processes(p)[1], StartOf(p), p.rightArgv, InOr(c, PipeEnd), OutOr(c, Terminal)))
  {
    var p := LaunchPlan(c);
    if p.Single? {
      ScriptReady(StartOf(p), [], c, c.arguments);
      assert [] + ExecArgs(Redirections(c), c.arguments) == Processes(p)[0];
    } else if p.Piped? {
      PipeWiring();
      ScriptReady(StartOf(p), [ClosePipeRead, DupPipeWriteToStdout, ClosePipeWrite], c, p.leftArgv);
      ScriptReady(StartOf(p), [ClosePipeWrite, DupPipeReadToStdin, ClosePipeRead], c, p.rightArgv);
    }
  }

  // ---------------------------------------------------------------------
  // From the tokens to the stages

  /**
   * With a pipe, the two stages are the arguments before and after the
   * split, together exactly the arguments, and no operator token (the `|`
   * included) is in either; the first stage is what the tokens before the
   * last `|` parse to.
   */
  lemma PipedStagesFromTokens(ts: seq<string>)
    requires Parse(ts).Ok?
    ensures Parse(ts).value.Valid()
    ensures var c := Parse(ts).value; var p := LaunchPlan(c);
      p.Piped? ==>
        && p.leftArgv + p.rightArgv == c.arguments
        && (forall i :: 0 <= i < |p.leftArgv| ==> !IsOperator(p.leftArgv[i]))
        && (forall i :: 0 <= i < |p.rightArgv| ==> !IsOperator(p.rightArgv[i]))
        && forall j :: LastAt(ts, j, "|") ==> Parse(ts[..j]).Ok? && Parse(ts[..j]).value.arguments == p.leftArgv
  {
    ParseValid(ts);
    var c := Parse(ts).value;
    var p := LaunchPlan(c);
    if p.Piped? {
      ArgumentsHaveNoOperator(ts);
      PipeSplitCountsPriorArguments(ts);
      var k := c.pipeSplit.value;
      forall i | 0 <= i < |p.leftArgv| ensures !IsOperator(p.leftArgv[i]) {
        assert p.leftArgv[i] == c.arguments[i];
      }
      forall i | 0 <= i < |p.rightArgv| ensures !IsOperator(p.rightArgv[i]) {
        assert p.rightArgv[i] == c.arguments[k + i];
      }
    }
  }

  /** A line without a `|` token and without the built-in runs as one process over all its arguments. */
  lemma NoPipeSingleStage(ts: seq<string>)
    requires Parse(ts).Ok? && "|" !in ts
    ensures Parse(ts).value.Valid()
    ensures var c := Parse(ts).value;
      !IsBuiltin(c) ==> LaunchPlan(c) == Single(c.arguments, Redirections(c))
  {
    ParseValid(ts);
    PipeSplitCountsPriorArguments(ts);
  }
}
