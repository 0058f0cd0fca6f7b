/**
 * Facts proved of the model for concrete command lines: what the corrected
 * `tokenize` makes of them and what `main` then launches.  Each line is first
 * split into its tokens, then the tokens are parsed.
 */
module Examples {
  import opened Wrappers
  import Split
  import opened Parser
  import opened Launcher

  lemma JoinPipeLine()
    ensures Split.Join(["ls", "-l", "|", "wc", "-l"]) == "ls -l | wc -l"
  {
    assert Split.Join(["-l"]) == "-l";
    assert Split.Join(["wc", "-l"]) == "wc -l";
    assert Split.Join(["|", "wc", "-l"]) == "| wc -l";
    assert Split.Join(["-l", "|", "wc", "-l"]) == "-l | wc -l";
  }

  lemma TokensOfPipeLine()
    ensures Split.Tokens("ls -l | wc -l") == ["ls", "-l", "|", "wc", "-l"]
  {
    JoinPipeLine();
    Split.TokensOfJoin(["ls", "-l", "|", "wc", "-l"]);
  }

  lemma ParsePipeTokens()
    ensures Parse(["ls", "-l", "|", "wc", "-l"]) == Ok(Command(["ls", "-l", "wc", "-l"], None, None, Some(2)))
  {
    NoOperatorsAllArguments(["ls", "-l"]);
    ParseSnoc(["ls", "-l"], Bar);
    assert ["ls", "-l"] + ItemTokens(Bar) == ["ls", "-l", "|"];
    ParseSnoc(["ls", "-l", "|"], Arg("wc"));
    assert ["ls", "-l", "|"] + ItemTokens(Arg("wc")) == ["ls", "-l", "|", "wc"];
    ParseSnoc(["ls", "-l", "|", "wc"], Arg("-l"));
    assert ["ls", "-l", "|", "wc"] + ItemTokens(Arg("-l")) == ["ls", "-l", "|", "wc", "-l"];
    assert ["ls", "-l"] + ["wc"] == ["ls", "-l", "wc"];
    assert ["ls", "-l", "wc"] + ["-l"] == ["ls", "-l", "wc", "-l"];
  }

  /** `ls -l | wc -l`: the stages `ls -l` and `wc -l`, joined by a pipe. */
  lemma PipeLine()
    ensures ParseLine("ls -l | wc -l") == Ok(Command(["ls", "-l", "wc", "-l"], None, None, Some(2)))
    ensures LaunchPlan(Command(["ls", "-l", "wc", "-l"], None, None, Some(2)))
      == Piped(["ls", "-l"], ["wc", "-l"], [])
  {
    TokensOfPipeLine();
    ParsePipeTokens();
    var c := Command(["ls", "-l", "wc", "-l"], None, None, Some(2));
    assert c.arguments[..2] == ["ls", "-l"] && c.arguments[2..] == ["wc", "-l"];
  }

  lemma JoinRedirectLine()
    ensures Split.Join(["sort", "<", "in.txt", ">", "out.txt"]) == "sort < in.txt > out.txt"
  {
    JoinOutputPart();
    assert Split.Join(["<", "in.txt", ">", "out.txt"]) == "< in.txt > out.txt";
  }

  lemma JoinOutputPart()
    ensures Split.Join(["in.txt", ">", "out.txt"]) == "in.txt > out.txt"
  {
    assert Split.Join(["out.txt"]) == "out.txt";
    assert Split.Join([">", "out.txt"]) == "> out.txt";
  }

  lemma TokensOfRedirectLine()
    ensures Split.Tokens("sort < in.txt > out.txt") == ["sort", "<", "in.txt", ">", "out.txt"]
  {
    JoinRedirectLine();
    Split.TokensOfJoin(["sort", "<", "in.txt", ">", "out.txt"]);
  }

  lemma ParseRedirectTokens()
    ensures Parse(["sort", "<", "in.txt", ">", "out.txt"]) == Ok(Command(["sort"], Some("in.txt"), Some("out.txt"), None))
  {
    NoOperatorsAllArguments(["sort"]);
    ParseSnoc(["sort"], InFrom("in.txt"));
    assert ["sort"] + ItemTokens(InFrom("in.txt")) == ["sort", "<", "in.txt"];
    ParseSnoc(["sort", "<", "in.txt"], OutTo("out.txt"));
    assert ["sort", "<", "in.txt"] + ItemTokens(OutTo("out.txt")) == ["sort", "<", "in.txt", ">", "out.txt"];
  }

  /** `sort < in.txt > out.txt`: one stage, input then output redirected. */
  lemma RedirectLine()
    ensures ParseLine("sort < in.txt > out.txt") == Ok(Command(["sort"], Some("in.txt"), Some("out.txt"), None))
    ensures LaunchPlan(Command(["sort"], Some("in.txt"), Some("out.txt"), None))
      == Single(["sort"], [StdinFrom("in.txt"), StdoutTo("out.txt")])
  {
    TokensOfRedirectLine();
    ParseRedirectTokens();
    PlanRedirectLine();
  }

  lemma PlanRedirectLine()
    ensures LaunchPlan(Command(["sort"], Some("in.txt"), Some("out.txt"), None))
      == Single(["sort"], [StdinFrom("in.txt"), StdoutTo("out.txt")])
  {
    var c := Command(["sort"], Some("in.txt"), Some("out.txt"), None);
    assert c.arguments[0] != BUILTIN_CD by {
      assert c.arguments[0][0] == 's';
    }
    assert Redirections(c) == [StdinFrom("in.txt")] + [StdoutTo("out.txt")];
  }

  /** `echo hello world`: three arguments, no redirection, no pipe. */
  lemma PlainLine()
    ensures ParseLine("echo hello world") == Ok(Command(["echo", "hello", "world"], None, None, None))
  {
    TokensOfPlainLine();
    ParsePlainTokens();
  }

  lemma ParsePlainTokens()
    ensures Parse(["echo", "hello", "world"]) == Ok(Command(["echo", "hello", "world"], None, None, None))
  {
    NoOperatorsAllArguments(["echo", "hello", "world"]);
  }

  lemma JoinPlainLine()
    ensures Split.Join(["echo", "hello", "world"]) == "echo hello world"
  {
    assert Split.Join(["world"]) == "world";
    assert Split.Join(["hello", "world"]) == "hello world";
  }

  lemma TokensOfPlainLine()
    ensures Split.Tokens("echo hello world") == ["echo", "hello", "world"]
  {
    JoinPlainLine();
    Split.TokensOfJoin(["echo", "hello", "world"]);
  }

  /** `cmd>file`: operators count only as whole tokens, so this is one argument. */
  lemma GluedOperator()
    ensures ParseLine("cmd>file") == Ok(Command(["cmd>file"], None, None, None))
  {
    Split.TokensOfToken("cmd>file");
    ParseGluedTokens();
  }

  lemma ParseGluedTokens()
    ensures Parse(["cmd>file"]) == Ok(Command(["cmd>file"], None, None, None))
  {
    var t := "cmd>file";
    assert !IsOperator(t) by {
      assert |t| == 8;
    }
    NoOperatorsAllArguments([t]);
  }

  /** `cat <`: a redirection with no file name is rejected. */
  lemma MissingTarget()
    ensures ParseLine("cat <") == Err(MissingRedirectTarget)
  {
    TokensOfMissingTarget();
    ParseFailsExactly(["cat", "<"]);
    assert Dangling(["cat", "<"], 1);
  }

  lemma TokensOfMissingTarget()
    ensures Split.Tokens("cat <") == ["cat", "<"]
  {
    assert Split.Join(["<"]) == "<";
    assert Split.Join(["cat", "<"]) == "cat <";
    Split.TokensOfJoin(["cat", "<"]);
  }

  /**
   * A file name that is itself an operator is rejected: `cat < > x`,
   * `cat < | wc` and `cat < <` have no file name after the first `<`.
   */
  lemma OperatorAsFileName()
    ensures Parse(["cat", "<", ">", "x"]) == Err(MissingRedirectTarget)
    ensures Parse(["cat", "<", "|", "wc"]) == Err(MissingRedirectTarget)
    ensures Parse(["cat", "<", "<"]) == Err(MissingRedirectTarget)
  {
    ParseFailsExactly(["cat", "<", ">", "x"]);
    assert Dangling(["cat", "<", ">", "x"], 1);
    ParseFailsExactly(["cat", "<", "|", "wc"]);
    assert Dangling(["cat", "<", "|", "wc"], 1);
    ParseFailsExactly(["cat", "<", "<"]);
    assert Dangling(["cat", "<", "<"], 1);
  }

  lemma JoinTwoInputs()
    ensures Split.Join(["cat", "<", "a", "<", "b"]) == "cat < a < b"
  {
    assert Split.Join(["b"]) == "b";
    assert Split.Join(["<", "b"]) == "< b";
    assert Split.Join(["a", "<", "b"]) == "a < b";
    assert Split.Join(["<", "a", "<", "b"]) == "< a < b";
  }

  lemma TokensOfTwoInputs()
    ensures Split.Tokens("cat < a < b") == ["cat", "<", "a", "<", "b"]
  {
    JoinTwoInputs();
    Split.TokensOfJoin(["cat", "<", "a", "<", "b"]);
  }

  /** `cat < a < b`: the later `<` wins. */
  lemma LaterRedirectWins()
    ensures ParseLine("cat < a < b") == Ok(Command(["cat"], Some("b"), None, None))
  {
    TokensOfTwoInputs();
    ParseTwoInputsTokens();
  }

  lemma ParseTwoInputsTokens()
    ensures Parse(["cat", "<", "a", "<", "b"]) == Ok(Command(["cat"], Some("b"), None, None))
  {
    NoOperatorsAllArguments(["cat"]);
    ParseSnoc(["cat"], InFrom("a"));
    assert ["cat"] + ItemTokens(InFrom("a")) == ["cat", "<", "a"];
    ParseSnoc(["cat", "<", "a"], InFrom("b"));
    assert ["cat", "<", "a"] + ItemTokens(InFrom("b")) == ["cat", "<", "a", "<", "b"];
  }

  lemma TokensOfLeadingPipe()
    ensures Split.Tokens("| wc") == ["|", "wc"]
  {
    assert Split.Join(["|", "wc"]) == "| wc" by {
      assert Split.Join(["wc"]) == "wc";
    }
    Split.TokensOfJoin(["|", "wc"]);
  }

  lemma ParseLeadingPipeTokens()
    ensures Parse(["|", "wc"]) == Ok(Command(["wc"], None, None, Some(0)))
  {
    assert Parse([]) == Ok(EMPTY_COMMAND);
    ParseSnoc([], Bar);
    assert [] + ItemTokens(Bar) == ["|"];
    assert Parse(["|"]) == Ok(Command([], None, None, Some(0)));
    ParseSnoc(["|"], Arg("wc"));
    assert Parser.Step(Command([], None, None, Some(0)), Arg("wc")) == Command([] + ["wc"], None, None, Some(0));
    assert [] + ["wc"] == ["wc"];
    assert ["|"] + ItemTokens(Arg("wc")) == ["|", "wc"];
  }

  /**
   * `| wc`: the source does not reject a pipe with nothing before it; the
   * split is 0, which fails the test `has_pipe > 0`, so `wc` runs alone.
   */
  lemma LeadingPipe()
    ensures ParseLine("| wc") == Ok(Command(["wc"], None, None, Some(0)))
    ensures LaunchPlan(Command(["wc"], None, None, Some(0))) == Single(["wc"], [])
  {
    TokensOfLeadingPipe();
    ParseLeadingPipeTokens();
  }

  /** `cd /tmp` runs in the shell and starts no process; so does a lone `cd`, with no target. */
  lemma ChangeDirectory()
    ensures LaunchPlan(Command(["cd", "/tmp"], None, None, None)) == Builtin(Some("/tmp"))
    ensures Processes(Builtin(Some("/tmp"))) == []
    ensures LaunchPlan(Command(["cd"], None, None, None)) == Builtin(None)
    ensures LaunchPlan(Command(["cd", "/tmp", "wc"], None, None, Some(2))) == Builtin(Some("/tmp"))
  {
  }
}
