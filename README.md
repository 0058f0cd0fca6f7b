# A verified model of the command parser and launch decisions of a small Unix shell

The shell in `linux-shell/shell.c` reads a line, splits it on spaces, picks
out the redirection operators `<` and `>` and the pipe operator `|`, and then
either changes directory itself (the built-in `cd`) or forks one process, or
two processes joined by a pipe, that apply the redirections and exec the
program.  This project models, in Dafny:

- the splitting of a line into tokens by `strtok(input, " ")` (module `Split`);
- `tokenize` exactly as written: one loop iteration per token, with the
  argument array it fills, one slot per iteration (module `SourceScan`, the
  loop itself is `SourceScan.TokenizeAsWritten`);
- `tokenize` corrected, which is what the launch model uses: the arguments,
  the input and output file names and the pipe position of a line (module
  `Parser`, the loop itself is `Parser.Tokenize`);
- the decisions of `main` and `execArgs`: whether `cd` runs in the shell,
  how the arguments are gathered into one or two argument vectors, and which
  descriptor operations each process performs, in which order, before exec
  (module `Launcher`, with an abstract descriptor state to say what each
  program finds when it starts);
- concrete lines such as `ls -l | wc -l` and `sort < in.txt > out.txt`
  (module `Examples`).

As written, the `<` and `>` branches of `tokenize` (lines 184-191) fetch the
file name with `strtok` but leave it as the current token, so the next
iteration scans it again: a file name is also copied into the argument array,
and a file name that is an operator acts as that operator.  The corrected
parse takes the file name together with its operator and rejects a `<` or
`>` that has no file name after it (the line ends, or an operator follows).
Both readings are modelled and compared; the differences are listed under
"Findings".

The corrected parser is described three ways that are proved to agree:
`Lex` groups the tokens into items (a word, a redirection with its file
name, a pipe); `Step`/`Apply` make the update of one item each, in order;
`Interpret` reads a list of items declaratively (the words in order, the file
name of the last `<` and of the last `>`, the number of words before the last
`|`).  `Render` writes items back out as tokens, which gives the round trip.

Apart from the scan of file names, the model does what the code does:

- There is no pipeline error.  A second `|` overwrites the first (line 195).
  A `|` at the start, as in `| wc`, gives a split of 0, which fails the test
  `has_pipe > 0` (line 85), so the command runs as one stage.  A `|` at the
  end gives an empty second stage, whose exec fails.
- Both stages of a pipe call `execArgs` (lines 119, 130), so both apply the
  input and the output redirection, after the pipe has been wired.  A named
  file therefore replaces the pipe end in either stage (proved in
  `Launcher.ExecEnvironment`); `<` does not apply to the first stage only, nor
  `>` to the last stage only.
- An empty line is not short-circuited; it yields a single process with an
  empty argument vector, whose exec fails.
- `cd` as the first argument always runs in the shell: the second half of
  the test on line 71, `args[1] != NULL`, compares an array with NULL and is
  always true.  A lone `cd` therefore also starts no process.
- Only the space character separates tokens; a tab is part of a token.

Undefined behaviour of the source is not reproduced (the comments in
`scan.dfy` and `parser.dfy` say where it is): a redirection operator as the
last token, which makes `strcpy` read from NULL, is the error
`MissingRedirectTarget`; an unwritten argument slot is `None`; `has_pipe` is
absent, not uninitialised, without a pipe.

## Model

| member | source | states |
|---|---|---|
| `Split.Tokens` | linux-shell/shell.c:175-201 | every token is non-empty and contains no space, and there are never more tokens than characters |
| `Split.TokensSplitAtSpace` | linux-shell/shell.c:175-201 | a space splits the line: the tokens of `a + " " + b` are the tokens of `a` followed by those of `b`, in order |
| `Split.SpacesCollapse` | linux-shell/shell.c:175-201 | a run of any number of spaces separates tokens exactly as one space does |
| `Split.TokensOfToken` | linux-shell/shell.c:175-201 | a non-empty string without spaces is one token, itself |
| `Split.TokensOfJoin` | linux-shell/shell.c:175-201 | round trip: tokens joined by single spaces split back into the same tokens |
| `Split.TokensKeepCharacters` | linux-shell/shell.c:175-201 | the tokens concatenated are the line's non-space characters in their original order |
| `Split.TokensOfSpaces` | linux-shell/shell.c:175-181 | an empty or all-space line has no tokens |
| `SourceScan.TokenizeAsWritten` | linux-shell/shell.c:172-210 | the loop as written, one iteration per token, computes exactly the scan of the line's tokens |
| `SourceScan.ScanFailsExactly` | linux-shell/shell.c:181-191 | the scan as written fails (strcpy from NULL) if and only if the last token is `<` or `>`, and otherwise yields the declarative reading of all the tokens |
| `SourceScan.ScanSlots` | linux-shell/shell.c:195-205 | one argument slot per token: each word token, file names included, is copied into its own slot, and exactly the operator slots are left unwritten |
| `SourceScan.ScanFileNames` | linux-shell/shell.c:177-191 | the input file name is the token after the last `<` token, blank without a `<`; likewise the output file name and `>` |
| `SourceScan.ScanPipeIndex` | linux-shell/shell.c:194-196 | `has_pipe` is the token index of the last pipe token, and is unset exactly when there is no pipe token |
| `SourceScan.AgreesOnFileNames` | linux-shell/shell.c:184-191 | whenever the corrected parse accepts a line, the scan as written accepts it too and records the same input and output file names |
| `SourceScan.PipeSplitMatchesCounter` | linux-shell/shell.c:194-205 | the corrected split equals the source's `has_pipe` exactly when no operator precedes the last pipe token |
| `SourceScan.AsWrittenFileNamesBecomeArguments` | linux-shell/shell.c:184-205 | for `sort < in.txt > out.txt` the scan as written sets both file names and also copies `in.txt` and `out.txt` into argument slots |
| `SourceScan.AsWrittenOperatorFileName` | linux-shell/shell.c:184-196 | as written, `cat < > x` sets both file names, `cat < pipe wc` records a pipe at token 2, and `cat < <` fails |
| `SourceScan.AsWrittenStagesReadPipeSlot` | linux-shell/shell.c:89-95 | for any line with a pipe, both stage loops as written reach the pipe's own slot, which is never written |
| `SourceScan.AsWrittenStagesOfLsWc` | linux-shell/shell.c:89-96 | for `ls -l`, pipe, `wc -l` the as-written loops see `ls, -l, ?` and `?, wc, -l` |
| `Parser.Tokenize` | linux-shell/shell.c:172-210 | the corrected scan loop computes exactly the parse of the line's tokens, failing on a redirection without a file name |
| `Parser.LexSound` | linux-shell/shell.c:181-206 | the items the tokens are grouped into render back to exactly the tokens, and no item holds an operator as its word or file name |
| `Parser.ApplyIsInterpret` | linux-shell/shell.c:183-205 | the per-item updates of the command compute the declarative reading: words in order, last `<` and `>` file names, words before the last pipe |
| `Parser.ParseRender` | linux-shell/shell.c:181-206 | round trip: any well-formed item list (no operator as a word or file name) written out as tokens parses to its declarative reading, so file names never become arguments |
| `Parser.ParseSound` | linux-shell/shell.c:181-206 | every successful parse is the declarative reading of a well-formed item list that renders to exactly the input tokens |
| `Parser.RenderInjective` | linux-shell/shell.c:181-206 | the item list behind a token sequence is unique |
| `Parser.ParseFailsExactly` | linux-shell/shell.c:184-191 | the parse fails, with `MissingRedirectTarget`, if and only if some `<` or `>` is the last token or is followed by an operator; in particular whenever the last token is `<` or `>` |
| `Parser.ParseSnoc` | linux-shell/shell.c:184-202 | one more word is appended to the arguments; a later `<` or `>` overwrites the earlier file name; a later pipe moves the split to the current argument count; a `<` or `>` whose file name is an operator makes the line fail |
| `Parser.ParseValid` | linux-shell/shell.c:194-195 | the pipe split never exceeds the number of arguments |
| `Parser.ArgumentsHaveNoOperator` | linux-shell/shell.c:184-202 | no operator token is ever among the arguments |
| `Parser.NoOperatorsAllArguments` | linux-shell/shell.c:184-202 | operators are recognised only as whole tokens: with no standalone operator all tokens are arguments, with no file names and no pipe |
| `Parser.ArgumentsFewerThanTokens` | linux-shell/shell.c:184-205 | there are never more arguments than tokens, and strictly fewer as soon as any operator occurs |
| `Parser.RedirectPaths` | linux-shell/shell.c:177-191 | the input file name is exactly the token after the last `<` token, and absent when there is no `<`; likewise the output file name and `>` |
| `Parser.PipeSplitCountsPriorArguments` | linux-shell/shell.c:194-196 | with a pipe token, the split is set and equals the number of arguments the tokens before the last pipe produce, which form the first stage; with no pipe token there is no split |
| `Parser.BlankLine` | linux-shell/shell.c:175-181 | an empty or all-space line parses to no arguments, no file names, no pipe |
| `Launcher.Redirections` | linux-shell/shell.c:215-234 | one redirection per file name present, standard input before standard output, each carrying the command's file name |
| `Launcher.LaunchPlan` | linux-shell/shell.c:71-145 | built-in exactly when the first argument is `cd`, with the second argument as target if there is one; otherwise a pipe exactly for a positive split, with stages that concatenate to the arguments and a first stage as long as the split, or else one stage with all arguments; every stage gets the command's redirections |
| `Launcher.BuildPlan` | linux-shell/shell.c:71-143 | the `cd` test and the argument-gathering loops produce exactly the launch plan |
| `Launcher.PipeWiring` | linux-shell/shell.c:113-127 | the wiring of each pipe stage leaves its pipe end on its standard stream and both pipe descriptors closed |
| `Launcher.RunRedirections` | linux-shell/shell.c:215-234 | the redirection steps bind standard input and output to the named files and touch nothing else |
| `Launcher.ExecEnvironment` | linux-shell/shell.c:111-145 | the built-in starts no process; every launched process ends in its one exec with the right arguments, holds no pipe descriptor, and has its standard streams on the named files or else the terminal or pipe end |
| `Launcher.PipedStagesFromTokens` | linux-shell/shell.c:87-96 | with a pipe, the stages concatenate to the arguments, contain no operator (the pipe token is in neither) and the first stage is what the tokens before the last pipe parse to |
| `Launcher.NoPipeSingleStage` | linux-shell/shell.c:139-145 | a line without a pipe token that is not the built-in runs as one process over all its arguments |
| `Examples.PipeLine` | linux-shell/shell.c:87-96 | `ls -l`, pipe, `wc -l` gives stages `ls -l` and `wc -l` with no redirection |
| `Examples.RedirectLine` | linux-shell/shell.c:184-234 | `sort < in.txt > out.txt` gives the one argument `sort`, both file names, and standard input then standard output redirected |
| `Examples.PlainLine` | linux-shell/shell.c:199-202 | `echo hello world` gives three arguments, no file names and no pipe |
| `Examples.GluedOperator` | linux-shell/shell.c:184-194 | `cmd>file` is one argument |
| `Examples.MissingTarget` | linux-shell/shell.c:184-186 | `cat <` is rejected |
| `Examples.OperatorAsFileName` | linux-shell/shell.c:184-191 | `cat < > x`, `cat < pipe wc` and `cat < <` are rejected |
| `Examples.LaterRedirectWins` | linux-shell/shell.c:184-186 | `cat < a < b` reads from `b` |
| `Examples.LeadingPipe` | linux-shell/shell.c:85-195 | a pipe with nothing before it gives a split of 0 and one stage |
| `Examples.ChangeDirectory` | linux-shell/shell.c:71-73 | `cd /tmp` runs in the shell and starts no process, even with a pipe after it; a lone `cd` runs in the shell with no target |

## Left out

- Parser.Tokenize, Parser.ParseRender, Parser.ParseSnoc and the other `Parser` lemmas describe the corrected scan, in which a file name is not scanned again; the scan as written is `SourceScan`, and the differences are the first two rows under "Findings".
- Launcher.LaunchPlan: takes the pipe branch when the split, a count of arguments, is positive, where the source tests `has_pipe`, the pipe's token index (line 85); so `< f | wc` runs as two stages in the source and as one here.  The two tests agree when no operator precedes the last pipe (`SourceScan.PipeSplitMatchesCounter`).
- Launcher.LaunchPlan: for a lone `cd` the source hands `chdir` the never-written `args[1]`; the plan records no target.
- The system calls `fork`, `wait`, `pipe`, `dup2`, `open`, `close`, `execvp`, `chdir`, `getcwd` and `perror` (lines 79-150, 163-167, 216-240) are operating-system I/O; they appear only as the steps of a process script, and their failures (a file that cannot be opened, a program that cannot be found, a failed `fork` or `pipe`) are not modelled.
- Each redirection is one step: the `open`, `dup2` and `close` of lines 216-222 and 227-233 are not separated, so descriptor numbers are not modelled.
- Process lifetimes and waiting are not modelled: the shell waits for its one child (line 150), which in the pipe case runs the second stage after forking the first; in the source the pipe itself is created in that child (line 99).
- The read-eval loop, the `exit` test, the greeting and the printing of the working directory (lines 43-64, 74, 155, 160-167) are interactive I/O.
- The 100-byte `fgets` buffer, the newline stripping, and the limits `MAX_ARGS`, `ARG_AT` and the 100-byte file names (lines 22-29, 44, 56-57) are fixed-size buffer artefacts; the model's strings and sequences are unbounded.
- The undefined behaviour of the source is not reproduced: the contents of unwritten argument slots (`None` here), the uninitialised `has_pipe`, the terminator written to `args[counter + 1]` instead of `args[counter]` (line 209), the reads of `args[i][0]` in unwritten slots (lines 89, 94, 141) and the `strcmp` of `args[0]` on an empty line (line 71).  The launch model therefore works on the gap-free arguments of the corrected parse, not on the slots.

## Findings

| source | as written | input that shows it | evidently intended | confidence | as-written member | corrected member |
|---|---|---|---|---|---|---|
| linux-shell/shell.c:184-191 | the `<` and `>` branches fetch the file name but do not step past it, so the next iteration scans it again and line 200 copies it into the argument array | the line `sort < in.txt > out.txt`, whose argument slots become `sort, ?, in.txt, ?, out.txt` | the one argument `sort`, with `in.txt` and `out.txt` as file names only | high, not executed | `SourceScan.AsWrittenFileNamesBecomeArguments` | `Parser.ParseRender` |
| linux-shell/shell.c:184-196 | for the same reason a file name that is an operator is scanned again as that operator | `cat < > x` (the output also goes to `x`) and `cat < pipe wc` (a pipe is recorded at token 2) | a redirection takes the next token as its file name and nothing else, and a redirection without a usable file name is rejected | medium, not executed | `SourceScan.AsWrittenOperatorFileName` | `Parser.ParseFailsExactly` |
| linux-shell/shell.c:89-95 | the first-stage loop copies indices 0 to `has_pipe` inclusive and the second-stage loop starts at index `has_pipe`; `has_pipe` is the index of the pipe's own slot, which `tokenize` never writes, so both stages read an undefined slot | the line `ls -l`, pipe, `wc -l` | stages `ls -l` and `wc -l`, the pipe token in neither | high, not executed | `SourceScan.AsWrittenStagesOfLsWc` | `Launcher.PipedStagesFromTokens` |
