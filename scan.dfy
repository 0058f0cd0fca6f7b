/**
 * `tokenize` (linux-shell/shell.c lines 172-210) as written, one loop
 * iteration per strtok token, with the argument array it fills.
 *
 * Each iteration looks at one token and then bumps `counter` (line 205), so
 * `counter` is the token's index.  A word is copied into `args[counter]`
 * (line 200).  `|` stores `counter` in `has_pipe` (line 195).  `<` and `>`
 * fetch the next token and copy it into `file_in` or `file_out` (lines
 * 184-191); they do not step past it, so the next iteration scans that
 * token again, as a word or as an operator.  The slot of an operator
 * iteration is never written.
 *
 * The model keeps what is defined: a slot is `None` where the source leaves
 * it unwritten, an absent `has_pipe` is `None` where the source leaves it
 * uninitialised, and a `<` or `>` as the last token, which makes `strcpy`
 * read from NULL, is the error `MissingRedirectTarget`.  The rest of the
 * model uses the corrected parse of module `Parser`; the lemmas at the end
 * compare the two and exhibit the defects.
 */
module SourceScan {
  import opened Wrappers
  import Split
  import opened Parser

  /**
   * `struct Cmd` after the scan: one argument slot per iteration (so
   * `num_args`, line 208, is the number of slots), the file names, blank
   * when not given (lines 177-178), and `has_pipe`.
   */
  datatype Cmd = Cmd(slots: seq<Option<string>>, fileIn: string, fileOut: string, hasPipe: Option<nat>)

  const INITIAL: Cmd := Cmd([], "", "", None)

  /** Iteration `i` of the loop of lines 181-206, with `counter == i`. */
  function ScanStep(ts: seq<string>, i: nat, s: Cmd): Result<Cmd, ParseError>
    requires i < |ts|
  {
    if IsRedirect(ts[i]) then
      if i + 1 == |ts| then Err(MissingRedirectTarget)
      else if ts[i] == "<" then Ok(s.(slots := s.slots + [None], fileIn := ts[i + 1]))
      else Ok(s.(slots := s.slots + [None], fileOut := ts[i + 1]))
    else if ts[i] == "|" then Ok(s.(slots := s.slots + [None], hasPipe := Some(|s.slots|)))
    else Ok(s.(slots := s.slots + [Some(ts[i])]))
  }

  /** The state after the first `n` iterations. */
  function ScanUpTo(ts: seq<string>, n: nat): Result<Cmd, ParseError>
    requires n <= |ts|
  {
    if n == 0 then Ok(INITIAL)
    else
      match ScanUpTo(ts, n - 1)
      case Err(e) => Err(e)
      case Ok(s) => ScanStep(ts, n - 1, s)
  }

  function Scan(ts: seq<string>): Result<Cmd, ParseError>
  {
    ScanUpTo(ts, |ts|)
  }

  function ScanLine(line: string): Result<Cmd, ParseError>
  {
    Scan(Split.Tokens(line))
  }

  /** The loop of lines 181-206 as written: every token is scanned, file names included. */
  method TokenizeAsWritten(line: string) returns (r: Result<Cmd, ParseError>)
    ensures r == ScanLine(line)
  {
    var tokens := Split.Tokens(line);
    var slots: seq<Option<string>> := [];
    var fileIn, fileOut := "", "";
    var hasPipe: Option<nat> := None;
    var counter := 0;
    while counter < |tokens|
      invariant counter <= |tokens| && |slots| == counter
      invariant ScanUpTo(tokens, counter) == Ok(Cmd(slots, fileIn, fileOut, hasPipe))
    {
      var token := tokens[counter];
      if token == "<" || token == ">" {
        if counter + 1 == |tokens| {
          // strtok returns NULL and strcpy would read from it
          return Err(MissingRedirectTarget);
        }
        if token == "<" {
          fileIn := tokens[counter + 1];
        } else {
          fileOut := tokens[counter + 1];
        }
        slots := slots + [None];
      } else if token == "|" {
        hasPipe := Some(counter);
        slots := slots + [None];
      } else {
        slots := slots + [Some(token)];
      }
      counter := counter + 1;
    }
    r := Ok(Cmd(slots, fileIn, fileOut, hasPipe));
  }

  // ---------------------------------------------------------------------
  // A declarative reading of the scan

  /** The argument slots of a token sequence: a word fills its own slot, an operator leaves it unwritten. */
  function SlotsOf(ts: seq<string>): seq<Option<string>>
  {
    seq(|ts|, i requires 0 <= i < |ts| => if IsOperator(ts[i]) then None else Some(ts[i]))
  }

  /** The token after position `j`, or blank. */
  function FileAfter(ts: seq<string>, j: Option<nat>): string
  {
    if j.Some? && j.value + 1 < |ts| then ts[j.value + 1] else ""
  }

  /** The state after `n` iterations, read off the tokens. */
  function Reading(ts: seq<string>, n: nat): Cmd
    requires n <= |ts|
  {
    var p := ts[..n];
    Cmd(SlotsOf(p), FileAfter(ts, LastIndex(p, "<")), FileAfter(ts, LastIndex(p, ">")), LastIndex(p, "|"))
  }

  lemma LastIndexOfPrefix(ts: seq<string>, n: nat, t: string)
    requires 0 < n <= |ts|
    ensures LastIndex(ts[..n], t) == if ts[n - 1] == t then Some(n - 1) else LastIndex(ts[..n - 1], t)
  {
    var p := ts[..n];
    assert p[..|p| - 1] == ts[..n - 1];
  }

  lemma {:induction false} ScanUpToReading(ts: seq<string>, n: nat)
    requires n <= |ts|
    requires n == |ts| && n > 0 ==> !IsRedirect(ts[n - 1])
    ensures ScanUpTo(ts, n) == Ok(Reading(ts, n))
    decreases n
  {
    if n > 0 {
      ScanUpToReading(ts, n - 1);
      var p := ts[..n];
      assert p[..n - 1] == ts[..n - 1];
      assert p[n - 1] == ts[n - 1];
      assert SlotsOf(p) == SlotsOf(ts[..n - 1]) + [if IsOperator(ts[n - 1]) then None else Some(ts[n - 1])];
      LastIndexOfPrefix(ts, n, "<");
      LastIndexOfPrefix(ts, n, ">");
      LastIndexOfPrefix(ts, n, "|");
      var s := Reading(ts, n - 1);
      assert |s.slots| == n - 1;
      assert ScanUpTo(ts, n) == ScanStep(ts, n - 1, s);
      var r := Reading(ts, n);
      assert r.slots == s.slots + [if IsOperator(ts[n - 1]) then None else Some(ts[n - 1])];
      if ts[n - 1] == "<" {
        assert r.fileIn == ts[n];
        assert r == s.(slots := r.slots, fileIn := ts[n]);
      } else if ts[n - 1] == ">" {
        assert r.fileOut == ts[n];
        assert r == s.(slots := r.slots, fileOut := ts[n]);
      } else if ts[n - 1] == "|" {
        assert r == s.(slots := r.slots, hasPipe := Some(n - 1));
      } else {
        assert r == s.(slots := r.slots);
      }
    } else {
      assert ts[..0] == [];
      assert SlotsOf([]) == [];
    }
  }

  /**
   * The scan as written fails, with `MissingRedirectTarget`, exactly when
   * the last token is `<` or `>`; otherwise its result is the declarative reading of all the tokens.
   */
  lemma ScanFailsExactly(ts: seq<string>)
    ensures Scan(ts).Err? <==> |ts| > 0 && IsRedirect(ts[|ts| - 1])
    ensures Scan(ts).Err? ==> Scan(ts).error == MissingRedirectTarget
    ensures Scan(ts).Ok? ==> Scan(ts).value == Reading(ts, |ts|)
  {
    if |ts| > 0 && IsRedirect(ts[|ts| - 1]) {
      ScanUpToReading(ts, |ts| - 1);
    } else {
      ScanUpToReading(ts, |ts|);
    }
  }

  /**
   * One slot per token: every word token is copied into its own slot,
   * file names included, and the slot of every operator is left unwritten.
   */
  lemma ScanSlots(ts: seq<string>)
    requires Scan(ts).Ok?
    ensures |Scan(ts).value.slots| == |ts|
    ensures forall i :: 0 <= i < |ts| ==>
      (Scan(ts).value.slots[i] == None <==> IsOperator(ts[i])) &&
      (!IsOperator(ts[i]) ==> Scan(ts).value.slots[i] == Some(ts[i]))
  {
    ScanFailsExactly(ts);
    assert ts[..|ts|] == ts;
  }

  /**
   * The input file name is the token after the last `<` token, and blank
   * when there is no `<`; likewise for `>` and the output file name.
   */
  lemma ScanFileNames(ts: seq<string>)
    requires Scan(ts).Ok?
    ensures "<" !in ts ==> Scan(ts).value.fileIn == ""
    ensures forall j :: LastAt(ts, j, "<") ==> j + 1 < |ts| && Scan(ts).value.fileIn == ts[j + 1]
    ensures ">" !in ts ==> Scan(ts).value.fileOut == ""
    ensures forall j :: LastAt(ts, j, ">") ==> j + 1 < |ts| && Scan(ts).value.fileOut == ts[j + 1]
  {
    ScanFailsExactly(ts);
    assert ts[..|ts|] == ts;
    forall j | LastAt(ts, j, "<") ensures j + 1 < |ts| && Scan(ts).value.fileIn == ts[j + 1]
    {
      LastIndexIs(ts, j, "<");
    }
    forall j | LastAt(ts, j, ">") ensures j + 1 < |ts| && Scan(ts).value.fileOut == ts[j + 1]
    {
      LastIndexIs(ts, j, ">");
    }
  }

  /** `has_pipe` is the token index of the last `|`, and is never set without one. */
  lemma ScanPipeIndex(ts: seq<string>)
    requires Scan(ts).Ok?
    ensures "|" !in ts <==> Scan(ts).value.hasPipe == None
    ensures forall j :: LastAt(ts, j, "|") ==> Scan(ts).value.hasPipe == Some(j)
  {
    ScanFailsExactly(ts);
    assert ts[..|ts|] == ts;
    forall j | LastAt(ts, j, "|") ensures Scan(ts).value.hasPipe == Some(j)
    {
      LastIndexIs(ts, j, "|");
    }
  }

  // ---------------------------------------------------------------------
  // The scan as written against the corrected parse

  function OrBlank(p: Option<string>): string
  {
    match p case Some(s) => s case None => ""
  }

  /** Wherever the corrected parse accepts a line, the scan as written accepts it too and records the same file names. */
  lemma AgreesOnFileNames(ts: seq<string>)
    requires Parse(ts).Ok?
    ensures Scan(ts).Ok?
    ensures Scan(ts).value.fileIn == OrBlank(Parse(ts).value.inPath)
    ensures Scan(ts).value.fileOut == OrBlank(Parse(ts).value.outPath)
  {
    ParseFailsExactly(ts);
    ScanFailsExactly(ts);
    ScanFileNames(ts);
    RedirectPaths(ts);
    if "<" in ts {
      assert LastAt(ts, LastIndex(ts, "<").value, "<");
    }
    if ">" in ts {
      assert LastAt(ts, LastIndex(ts, ">").value, ">");
    }
  }

  /**
   * The corrected split counts the arguments before the last `|`; the
   * source's `has_pipe` is that pipe's token index.  The two agree exactly
   * when no operator comes before the last `|`.
   */
  lemma PipeSplitMatchesCounter(ts: seq<string>, j: nat)
    requires Parse(ts).Ok? && LastAt(ts, j, "|")
    ensures Scan(ts).Ok? && Scan(ts).value.hasPipe == Some(j)
    ensures Parse(ts).value.pipeSplit == Some(j) <==> forall k :: 0 <= k < j ==> !IsOperator(ts[k])
  {
    ParseFailsExactly(ts);
    ScanFailsExactly(ts);
    ScanPipeIndex(ts);
    PipeSplitCountsPriorArguments(ts);
    var p := ts[..j];
    var c := Parse(ts).value;
    assert Parse(p).Ok? && c.pipeSplit == Some(|Parse(p).value.arguments|);
    if forall k :: 0 <= k < j ==> !IsOperator(ts[k]) {
      assert forall k :: 0 <= k < |p| ==> p[k] == ts[k];
      NoOperatorsAllArguments(p);
    } else {
      var k :| 0 <= k < j && IsOperator(ts[k]);
      assert p[k] == ts[k];
      ArgumentsFewerThanTokens(p);
    }
  }

  /**
   * `sort < in.txt > out.txt` as written: both file names are set, and both
   * are also scanned again and copied into the argument array, where the
   * corrected parse has the one argument `sort`.
   */
  lemma AsWrittenFileNamesBecomeArguments()
    ensures Scan(["sort", "<", "in.txt", ">", "out.txt"])
      == Ok(Cmd([Some("sort"), None, Some("in.txt"), None, Some("out.txt")], "in.txt", "out.txt", None))
  {
    var ts := ["sort", "<", "in.txt", ">", "out.txt"];
    ScanFailsExactly(ts);
    assert ts[..5] == ts;
    assert LastIndex(ts, "<") == Some(1) by { LastIndexIs(ts, 1, "<"); }
    assert LastIndex(ts, ">") == Some(3) by { LastIndexIs(ts, 3, ">"); }
    assert "|" !in ts;
    assert SlotsOf(ts) == [Some("sort"), None, Some("in.txt"), None, Some("out.txt")];
  }

  /**
   * A file name that is an operator acts as one in the scan as written:
   * `cat < > x` sets both file names, `cat < | wc` records a pipe at token
   * 2, and `cat < <` ends on a `<` with nothing after it.  The corrected
   * parse rejects all three.
   */
  lemma AsWrittenOperatorFileName()
    ensures Scan(["cat", "<", ">", "x"]) == Ok(Cmd([Some("cat"), None, None, Some("x")], ">", "x", None))
    ensures Scan(["cat", "<", "|", "wc"]) == Ok(Cmd([Some("cat"), None, None, Some("wc")], "|", "", Some(2)))
    ensures Scan(["cat", "<", "<"]) == Err(MissingRedirectTarget)
  {
    ScanOperatorOutput();
    ScanOperatorPipe();
    var c := ["cat", "<", "<"];
    ScanFailsExactly(c);
    assert IsRedirect(c[|c| - 1]);
  }

  lemma ScanOperatorOutput()
    ensures Scan(["cat", "<", ">", "x"]) == Ok(Cmd([Some("cat"), None, None, Some("x")], ">", "x", None))
  {
    var a := ["cat", "<", ">", "x"];
    ScanFailsExactly(a);
    assert a[..4] == a;
    assert LastIndex(a, "<") == Some(1) by { LastIndexIs(a, 1, "<"); }
    assert LastIndex(a, ">") == Some(2) by { LastIndexIs(a, 2, ">"); }
    assert "|" !in a;
    assert SlotsOf(a) == [Some("cat"), None, None, Some("x")];
  }

  lemma ScanOperatorPipe()
    ensures Scan(["cat", "<", "|", "wc"]) == Ok(Cmd([Some("cat"), None, None, Some("wc")], "|", "", Some(2)))
  {
    var b := ["cat", "<", "|", "wc"];
    ScanFailsExactly(b);
    assert b[..4] == b;
    assert LastIndex(b, "<") == Some(1) by { LastIndexIs(b, 1, "<"); }
    assert LastIndex(b, "|") == Some(2) by { LastIndexIs(b, 2, "|"); }
    assert ">" !in b;
    assert SlotsOf(b) == [Some("cat"), None, None, Some("wc")];
  }

  /** The slots the first-stage loop of line 89 may copy: indices 0 to `has_pipe` inclusive. */
  function AsWrittenLeftSlots(s: Cmd): seq<Option<string>>
    requires s.hasPipe.Some? && s.hasPipe.value < |s.slots|
  {
    s.slots[..s.hasPipe.value + 1]
  }

  /** The slots the second-stage loop of line 94 reads from: index `has_pipe` on. */
  function AsWrittenRightSlots(s: Cmd): seq<Option<string>>
    requires s.hasPipe.Some? && s.hasPipe.value < |s.slots|
  {
    s.slots[s.hasPipe.value..]
  }

  /**
   * Both stage loops, as written, reach the pipe's own slot, which the scan
   * never writes: the last slot the first loop may copy and the first slot
   * the second loop reads.
   */
  lemma AsWrittenStagesReadPipeSlot(ts: seq<string>)
    requires Scan(ts).Ok? && "|" in ts
    ensures var s := Scan(ts).value;
      && s.hasPipe.Some? && s.hasPipe.value < |s.slots|
      && AsWrittenLeftSlots(s)[s.hasPipe.value] == None
      && AsWrittenRightSlots(s)[0] == None
  {
    var j := LastIndex(ts, "|").value;
    ScanPipeIndex(ts);
    ScanSlots(ts);
  }

  /**
   * For `ls -l | wc -l` the source's stage loops see the slots `ls, -l, ?`
   * and `?, wc, -l, ...`, where `?` is the unwritten pipe slot, while the
   * intended stages are `ls -l` and `wc -l`.
   */
  lemma AsWrittenStagesOfLsWc()
    ensures Scan(["ls", "-l", "|", "wc", "-l"]).Ok?
    ensures var s := Scan(["ls", "-l", "|", "wc", "-l"]).value;
      && s.hasPipe == Some(2) && |s.slots| == 5
      && AsWrittenLeftSlots(s) == [Some("ls"), Some("-l"), None]
      && AsWrittenRightSlots(s) == [None, Some("wc"), Some("-l")]
  {
    ScanOfLsWc();
    var s := Cmd([Some("ls"), Some("-l"), None, Some("wc"), Some("-l")], "", "", Some(2));
    assert AsWrittenLeftSlots(s) == s.slots[..3];
    assert AsWrittenRightSlots(s) == s.slots[2..];
  }

  lemma ScanOfLsWc()
    ensures Scan(["ls", "-l", "|", "wc", "-l"]) == Ok(Cmd([Some("ls"), Some("-l"), None, Some("wc"), Some("-l")], "", "", Some(2)))
  {
    var ts := ["ls", "-l", "|", "wc", "-l"];
    ScanFailsExactly(ts);
    assert ts[..5] == ts;
    assert LastIndex(ts, "|") == Some(2) by { LastIndexIs(ts, 2, "|"); }
    assert "<" !in ts && ">" !in ts;
    assert SlotsOf(ts) == [Some("ls"), Some("-l"), None, Some("wc"), Some("-l")];
  }
}
