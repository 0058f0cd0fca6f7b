/**
 * The command-line parser: `tokenize` in linux-shell/shell.c (lines
 * 172-210), in the corrected reading that the launch model uses.
 *
 * The source scans the strtok tokens left to right.  `<` and `>` take the
 * next token as the input or output file name, `|` records where the first
 * pipeline stage ends, and every other token is copied into the argument
 * array.  Operators are recognised only by an exact whole-token `strcmp`, so
 * `cmd>file` is one argument.
 *
 * As written, the `<` and `>` branches fetch the file name (lines 185, 190)
 * but leave it as the current token, so the next iteration scans it again: a
 * file name is also copied into the arguments, and a file name that is an
 * operator acts as one.  Module `SourceScan` models that scan as written.
 * This module takes the file name in the same iteration as its operator and
 * rejects a `<` or `>` that is followed by nothing or by another operator.
 *
 * Where the source has undefined behaviour this model does not reproduce it:
 *  - `counter` is bumped for operator iterations too (line 205), so the
 *    source's argument array has slots that are never written; here
 *    `arguments` has no gaps, and `pipeSplit` counts the arguments before
 *    the pipe, not the loop iterations;
 *  - `has_pipe` is left uninitialised when there is no `|`; here it is `None`;
 *  - `<` or `>` as the last token makes `strcpy` read from NULL (lines
 *    185-186, 190-191); here the parse fails with `MissingRedirectTarget`.
 *
 * The model is layered: `Lex` groups the tokens into items (a word, a
 * redirection with its file name, a pipe), `Step` is the update one item
 * makes to the command being built, and `Interpret` is an independent,
 * declarative reading of a list of items.  `Tokenize` is the scan loop.
 */
module Parser {
  import opened Wrappers
  import Split

  datatype ParseError = MissingRedirectTarget

  /** The parse result: `struct Cmd` without its fixed-size buffers. */
  datatype Command = Command(
    arguments: seq<string>,
    inPath: Option<string>,
    outPath: Option<string>,
    pipeSplit: Option<nat>)
  {
    /** A pipe position never lies beyond the arguments. */
    predicate Valid()
    {
      pipeSplit.Some? ==> pipeSplit.value <= |arguments|
    }
  }

  /** The state before the first token: no arguments, blank file names (lines 176-178). */
  const EMPTY_COMMAND: Command := Command([], None, None, None)

  predicate IsRedirect(t: string)
  {
    t == "<" || t == ">"
  }

  predicate IsOperator(t: string)
  {
    IsRedirect(t) || t == "|"
  }

  /** What the scan makes of one token, or of a redirection and its file name. */
  datatype Item = Arg(text: string) | InFrom(path: string) | OutTo(path: string) | Bar

  datatype Kind = InKind | OutKind | BarKind

  predicate IsKind(it: Item, k: Kind)
  {
    match k
    case InKind => it.InFrom?
    case OutKind => it.OutTo?
    case BarKind => it.Bar?
  }

  /** The tokens one item stands for. */
  function ItemTokens(it: Item): seq<string>
  {
    match it
    case Arg(t) => [t]
    case InFrom(p) => ["<", p]
    case OutTo(p) => [">", p]
    case Bar => ["|"]
  }

  /** The items written back out as tokens. */
  function Render(items: seq<Item>): seq<string>
  {
    if items == [] then [] else ItemTokens(items[0]) + Render(items[1..])
  }

  /** No item holds an operator as its text or file name: the scan would have read it as one. */
  predicate ItemOk(it: Item)
  {
    match it
    case Arg(t) => !IsOperator(t)
    case InFrom(p) => !IsOperator(p)
    case OutTo(p) => !IsOperator(p)
    case Bar => true
  }

  predicate WellFormed(items: seq<Item>)
  {
    forall i :: 0 <= i < |items| ==> ItemOk(items[i])
  }

  function Prepend(it: Item, r: Result<seq<Item>, ParseError>): Result<seq<Item>, ParseError>
  {
    match r
    case Ok(rest) => Ok([it] + rest)
    case Err(e) => Err(e)
  }

  /**
   * The grouping the scan of lines 181-206 performs.  A redirection operator
   * with no file name after it (the line ends, or an operator follows) is
   * the one way to fail.
   */
  function Lex(ts: seq<string>): Result<seq<Item>, ParseError>
  {
    if ts == [] then Ok([])
    else if IsRedirect(ts[0]) then
      if |ts| == 1 || IsOperator(ts[1]) then Err(MissingRedirectTarget)
      else Prepend(if ts[0] == "<" then InFrom(ts[1]) else OutTo(ts[1]), Lex(ts[2..]))
    else if ts[0] == "|" then Prepend(Bar, Lex(ts[1..]))
    else Prepend(Arg(ts[0]), Lex(ts[1..]))
  }

  /** The update one item makes to the command (lines 184-202). */
  function Step(acc: Command, it: Item): Command
  {
    match it
    case Arg(t) => acc.(arguments := acc.arguments + [t])
    case InFrom(p) => acc.(inPath := Some(p))
    case OutTo(p) => acc.(outPath := Some(p))
    case Bar => acc.(pipeSplit := Some(|acc.arguments|))
  }

  /** The iterations applied in order to `acc`. */
  function Apply(acc: Command, items: seq<Item>): Command
    decreases |items|
  {
    if items == [] then acc else Apply(Step(acc, items[0]), items[1..])
  }

  /** The rest of the scan from the state `acc` on. */
  function ParseFrom(ts: seq<string>, acc: Command): Result<Command, ParseError>
  {
    match Lex(ts)
    case Ok(items) => Ok(Apply(acc, items))
    case Err(e) => Err(e)
  }

  /** What `tokenize` makes of a token sequence. */
  function Parse(ts: seq<string>): Result<Command, ParseError>
  {
    ParseFrom(ts, EMPTY_COMMAND)
  }

  /** What `tokenize` makes of a line. */
  function ParseLine(line: string): Result<Command, ParseError>
  {
    Parse(Split.Tokens(line))
  }

  /**
   * `tokenize` (lines 172-210), corrected: one pass over the strtok tokens
   * that takes the file name of a redirection together with its operator.
   */
  method Tokenize(line: string) returns (r: Result<Command, ParseError>)
    ensures r == ParseLine(line)
  {
    var tokens := Split.Tokens(line);
    var cmd := EMPTY_COMMAND;
    var i := 0;
    while i < |tokens|
      invariant 0 <= i <= |tokens|
      invariant ParseFrom(tokens[i..], cmd) == Parse(tokens)
      decreases |tokens| - i
    {
      var rest := tokens[i..];
      var token := tokens[i];
      assert rest[0] == token;
      if token == "<" || token == ">" {
        assert |rest| > 1 ==> rest[1] == tokens[i + 1];
        if i + 1 == |tokens| || IsOperator(tokens[i + 1]) {
          // no file name: strtok returns NULL here, or the next token is an operator
          return Err(MissingRedirectTarget);
        }
        var it := if token == "<" then InFrom(tokens[i + 1]) else OutTo(tokens[i + 1]);
        assert rest[2..] == tokens[i + 2..];
        assert Lex(rest) == Prepend(it, Lex(tokens[i + 2..]));
        if token == "<" {
          cmd := cmd.(inPath := Some(tokens[i + 1]));
        } else {
          cmd := cmd.(outPath := Some(tokens[i + 1]));
        }
        i := i + 2;
      } else {
        var it := if token == "|" then Bar else Arg(token);
        assert rest[1..] == tokens[i + 1..];
        assert Lex(rest) == Prepend(it, Lex(tokens[i + 1..]));
        if token == "|" {
          cmd := cmd.(pipeSplit := Some(|cmd.arguments|));
        } else {
          cmd := cmd.(arguments := cmd.arguments + [token]);
        }
        i := i + 1;
      }
    }
    assert tokens[i..] == [];
    r := Ok(cmd);
  }

  // ---------------------------------------------------------------------
  // A declarative reading of a list of items

  /** The words among the items, in order. */
  function Words(items: seq<Item>): seq<string>
  {
    if items == [] then []
    else
      var last := items[|items| - 1];
      Words(items[..|items| - 1]) + (if last.Arg? then [last.text] else [])
  }

  /** The position of the last item of kind `k`, if any. */
  function LastOf(items: seq<Item>, k: Kind): (r: Option<nat>)
    ensures r.Some? ==> r.value < |items| && IsKind(items[r.value], k)
    ensures r.Some? ==> forall j :: r.value < j < |items| ==> !IsKind(items[j], k)
    ensures r.None? ==> forall j :: 0 <= j < |items| ==> !IsKind(items[j], k)
  {
    if items == [] then None
    else if IsKind(items[|items| - 1], k) then Some(|items| - 1)
    else LastOf(items[..|items| - 1], k)
  }

  /**
   * The command a list of items denotes: the words in order, the operand of
   * the last `<` and of the last `>`, and, for the last `|`, the number of
   * words before it.
   */
  function Interpret(items: seq<Item>): Command
  {
    Command(
      Words(items),
      match LastOf(items, InKind) case Some(j) => Some(items[j].path) case None => None,
      match LastOf(items, OutKind) case Some(j) => Some(items[j].path) case None => None,
      match LastOf(items, BarKind) case Some(j) => Some(|Words(items[..j])|) case None => None)
  }

  /** The token that stands for an item of kind `k`. */
  function KindToken(k: Kind): string
  {
    match k
    case InKind => "<"
    case OutKind => ">"
    case BarKind => "|"
  }

  /** `j` is the position of the last occurrence of `t` in `ts`. */
  predicate LastAt(ts: seq<string>, j: int, t: string)
  {
    0 <= j < |ts| && ts[j] == t && forall k :: j < k < |ts| ==> ts[k] != t
  }

  /** The position of the last occurrence of `t` in `ts`, if any. */
  function LastIndex(ts: seq<string>, t: string): (r: Option<nat>)
    ensures r.Some? ==> LastAt(ts, r.value, t)
    ensures r.None? <==> t !in ts
  {
    if ts == [] then None
    else if ts[|ts| - 1] == t then Some(|ts| - 1)
    else LastIndex(ts[..|ts| - 1], t)
  }

  /** A `<` or `>` at `i` without a file name: the line ends there, or an operator follows. */
  predicate Dangling(ts: seq<string>, i: int)
  {
    0 <= i < |ts| && IsRedirect(ts[i]) && (i + 1 == |ts| || IsOperator(ts[i + 1]))
  }

  // ---------------------------------------------------------------------
  // Lemmas

  lemma {:induction false} WordsAppend(a: seq<Item>, b: seq<Item>)
    ensures Words(a + b) == Words(a) + Words(b)
    decreases |b|
  {
    if b != [] {
      var b' := b[..|b| - 1];
      assert (a + b)[..|a + b| - 1] == a + b';
      WordsAppend(a, b');
    } else {
      assert a + b == a;
    }
  }

  lemma {:induction false} RenderAppend(a: seq<Item>, b: seq<Item>)
    ensures Render(a + b) == Render(a) + Render(b)
  {
    if a != [] {
      assert (a + b)[1..] == a[1..] + b;
      RenderAppend(a[1..], b);
    } else {
      assert a + b == b;
    }
  }

  lemma {:induction false} ApplySnoc(acc: Command, items: seq<Item>, it: Item)
    ensures Apply(acc, items + [it]) == Step(Apply(acc, items), it)
    decreases |items|
  {
    if items != [] {
      assert (items + [it])[1..] == items[1..] + [it];
      ApplySnoc(Step(acc, items[0]), items[1..], it);
    } else {
      assert ([] + [it])[1..] == [];
    }
  }

  /** The declarative reading of one more item. */
  lemma InterpretSnoc(init: seq<Item>, it: Item)
    ensures Interpret(init + [it]) == Step(Interpret(init), it)
  {
    var items := init + [it];
    assert items[..|items| - 1] == init;
    assert Words(items) == Words(init) + (if it.Arg? then [it.text] else []);
    if it.Bar? {
      assert LastOf(items, BarKind) == Some(|init|);
    } else {
      assert LastOf(items, BarKind) == LastOf(init, BarKind);
      var bar := LastOf(init, BarKind);
      if bar.Some? {
        assert items[..bar.value] == init[..bar.value];
      }
    }
  }

  /** The scan's in-place updates compute exactly the declarative reading. */
  lemma {:induction false} ApplyIsInterpret(items: seq<Item>)
    ensures Apply(EMPTY_COMMAND, items) == Interpret(items)
    decreases |items|
  {
    if items != [] {
      var init := items[..|items| - 1];
      var it := items[|items| - 1];
      assert items == init + [it];
      ApplyIsInterpret(init);
      ApplySnoc(EMPTY_COMMAND, init, it);
      InterpretSnoc(init, it);
    }
  }

  lemma WellFormedTail(items: seq<Item>)
    requires items != [] && WellFormed(items)
    ensures WellFormed(items[1..])
  {
    forall i | 0 <= i < |items[1..]| ensures ItemOk(items[1..][i])
    {
      assert items[1..][i] == items[i + 1];
    }
  }

  lemma WellFormedPrefix(items: seq<Item>, j: nat)
    requires WellFormed(items) && j <= |items|
    ensures WellFormed(items[..j])
  {
    forall k | 0 <= k < j ensures items[..j][k] == items[k] { }
  }

  lemma LexPrefix(it: Item, rest: seq<string>)
    requires ItemOk(it)
    ensures Lex(ItemTokens(it) + rest) == Prepend(it, Lex(rest))
  {
    var ts := ItemTokens(it) + rest;
    match it
    case Arg(t) =>
      assert ts[0] == t && ts[1..] == rest;
    case InFrom(p) =>
      assert ts[0] == "<" && ts[1] == p && ts[2..] == rest;
    case OutTo(p) =>
      assert ts[0] == ">" && ts[1] == p && ts[2..] == rest;
    case Bar =>
      assert ts[0] == "|" && ts[1..] == rest;
  }

  /** Parsing what the items render to gives back the items. */
  lemma {:induction false} LexRender(items: seq<Item>)
    requires WellFormed(items)
    ensures Lex(Render(items)) == Ok(items)
  {
    if items != [] {
      WellFormedTail(items);
      LexRender(items[1..]);
      LexPrefix(items[0], Render(items[1..]));
      assert [items[0]] + items[1..] == items;
    }
  }

  /** Round trip: a well-formed item list written out parses to its declarative reading. */
  lemma ParseRender(items: seq<Item>)
    requires WellFormed(items)
    ensures Parse(Render(items)) == Ok(Interpret(items))
  {
    LexRender(items);
    ApplyIsInterpret(items);
  }

  /** The items of a successful grouping cover exactly the tokens and hold no operator as a word or file name. */
  lemma {:induction false} LexSound(ts: seq<string>)
    ensures Lex(ts).Ok? ==> Render(Lex(ts).value) == ts && WellFormed(Lex(ts).value)
    decreases |ts|
  {
    if ts != [] && Lex(ts).Ok? {
      var n := if IsRedirect(ts[0]) then 2 else 1;
      assert n == 2 ==> |ts| > 1 && !IsOperator(ts[1]);
      LexSound(ts[n..]);
      var it := if ts[0] == "<" then InFrom(ts[1]) else if ts[0] == ">" then OutTo(ts[1])
        else if ts[0] == "|" then Bar else Arg(ts[0]);
      assert ItemOk(it);
      assert ts == ItemTokens(it) + ts[n..];
      LexPrefix(it, ts[n..]);
      var rest := Lex(ts[n..]).value;
      assert Lex(ts).value == [it] + rest;
      assert ([it] + rest)[1..] == rest;
      assert WellFormed([it] + rest) by {
        forall i | 0 <= i < |[it] + rest| ensures ItemOk(([it] + rest)[i])
        {
          if i > 0 { assert ([it] + rest)[i] == rest[i - 1]; }
        }
      }
    }
  }

  /** Soundness: every successful parse is the reading of a well-formed item list that renders to exactly the tokens. */
  lemma ParseSound(ts: seq<string>)
    requires Parse(ts).Ok?
    ensures Lex(ts).Ok?
    ensures WellFormed(Lex(ts).value) && Render(Lex(ts).value) == ts
    ensures Parse(ts).value == Interpret(Lex(ts).value)
  {
    LexSound(ts);
    ApplyIsInterpret(Lex(ts).value);
  }

  /** The item list behind a token sequence is unique. */
  lemma RenderInjective(a: seq<Item>, b: seq<Item>)
    requires WellFormed(a) && WellFormed(b) && Render(a) == Render(b)
    ensures a == b
  {
    LexRender(a);
    LexRender(b);
  }

  /** The grouping fails exactly at a redirection without a file name. */
  lemma {:induction false} LexFails(ts: seq<string>)
    ensures Lex(ts).Err? <==> exists i :: Dangling(ts, i)
    decreases |ts|
  {
    if ts == [] {
    } else if IsRedirect(ts[0]) && (|ts| == 1 || IsOperator(ts[1])) {
      assert Dangling(ts, 0);
    } else {
      var n := if IsRedirect(ts[0]) then 2 else 1;
      var rest := ts[n..];
      LexFails(rest);
      assert Lex(ts).Err? <==> Lex(rest).Err?;
      forall i | Dangling(rest, i) ensures Dangling(ts, i + n)
      {
        assert ts[i + n] == rest[i];
        if i + 1 < |rest| { assert ts[i + n + 1] == rest[i + 1]; }
      }
      forall i | Dangling(ts, i) ensures i >= n && Dangling(rest, i - n)
      {
        assert rest[i - n] == ts[i];
        if i + 1 < |ts| { assert rest[i - n + 1] == ts[i + 1]; }
      }
    }
  }

  /**
   * The only failure: a line fails to parse, with `MissingRedirectTarget`,
   * exactly when some `<` or `>` has no file name after it; in particular
   * whenever the last token is `<` or `>`.
   */
  lemma ParseFailsExactly(ts: seq<string>)
    ensures Parse(ts).Err? <==> exists i :: Dangling(ts, i)
    ensures Parse(ts).Err? ==> Parse(ts).error == MissingRedirectTarget
    ensures |ts| > 0 && IsRedirect(ts[|ts| - 1]) ==> Parse(ts).Err?
  {
    LexFails(ts);
    if |ts| > 0 && IsRedirect(ts[|ts| - 1]) {
      assert Dangling(ts, |ts| - 1);
    }
  }

  lemma {:induction false} LexAppend(a: seq<string>, b: seq<string>)
    requires Lex(a).Ok?
    ensures Lex(b).Ok? ==> Lex(a + b) == Ok(Lex(a).value + Lex(b).value)
    ensures Lex(b).Err? ==> Lex(a + b).Err?
    decreases |a|, 0
  {
    if a == [] {
      assert a + b == b;
      if Lex(b).Ok? {
        assert Lex(a).value + Lex(b).value == Lex(b).value;
      }
    } else if IsRedirect(a[0]) {
      assert |a| >= 2 && !IsOperator(a[1]);
      var it := if a[0] == "<" then InFrom(a[1]) else OutTo(a[1]);
      assert a == ItemTokens(it) + a[2..];
      LexAppendStep(it, a[2..], b);
    } else {
      var it := if a[0] == "|" then Bar else Arg(a[0]);
      assert a == ItemTokens(it) + a[1..];
      LexAppendStep(it, a[1..], b);
    }
  }

  lemma {:induction false} LexAppendStep(it: Item, a: seq<string>, b: seq<string>)
    requires ItemOk(it)
    requires Lex(ItemTokens(it) + a).Ok?
    ensures Lex(a).Ok?
    ensures Lex(b).Ok? ==> Lex(ItemTokens(it) + a + b) == Ok(Lex(ItemTokens(it) + a).value + Lex(b).value)
    ensures Lex(b).Err? ==> Lex(ItemTokens(it) + a + b).Err?
    decreases |a|, 1
  {
    var x := ItemTokens(it) + a;
    assert x + b == ItemTokens(it) + (a + b);
    LexPrefix(it, a);
    LexPrefix(it, a + b);
    LexAppend(a, b);
    if Lex(b).Ok? {
      PrependAppend(it, Lex(a).value, Lex(b).value);
    }
  }

  lemma PrependAppend(it: Item, a: seq<Item>, b: seq<Item>)
    ensures Prepend(it, Ok(a + b)) == Ok(Prepend(it, Ok(a)).value + b)
  {
    assert [it] + (a + b) == ([it] + a) + b;
  }

  /**
   * Appending one more item to a line that parses: a word is appended to the
   * arguments, a later `<` or `>` overwrites the earlier file name, and a
   * later `|` moves the split to the current argument count; a `<` or `>`
   * whose file name is an operator makes the line fail.
   */
  lemma ParseSnoc(ts: seq<string>, it: Item)
    requires Parse(ts).Ok?
    requires it.Arg? ==> !IsOperator(it.text)
    ensures ItemOk(it) ==> Parse(ts + ItemTokens(it)) == Ok(Step(Parse(ts).value, it))
    ensures !ItemOk(it) ==> Parse(ts + ItemTokens(it)) == Err(MissingRedirectTarget)
  {
    var items := Lex(ts).value;
    if ItemOk(it) {
      assert Lex(ItemTokens(it)) == Ok([it]) by {
        assert WellFormed([it]);
        LexRender([it]);
        assert Render([it]) == ItemTokens(it) + Render([]);
      }
      LexAppend(ts, ItemTokens(it));
      ApplySnoc(EMPTY_COMMAND, items, it);
    } else {
      assert Lex(ItemTokens(it)).Err?;
      LexAppend(ts, ItemTokens(it));
      ParseFailsExactly(ts + ItemTokens(it));
    }
  }

  /** Every result is consistent: the pipe position lies within the arguments. */
  lemma ParseValid(ts: seq<string>)
    requires Parse(ts).Ok?
    ensures Parse(ts).value.Valid()
  {
    var items := Lex(ts).value;
    ParseSound(ts);
    var j := LastOf(items, BarKind);
    if j.Some? {
      WordsAppend(items[..j.value], items[j.value..]);
      assert items[..j.value] + items[j.value..] == items;
    }
  }

  lemma {:induction false} WordsOfWellFormed(items: seq<Item>)
    requires WellFormed(items)
    ensures forall i :: 0 <= i < |Words(items)| ==> !IsOperator(Words(items)[i])
    decreases |items|
  {
    if items != [] {
      var init := items[..|items| - 1];
      WellFormedPrefix(items, |items| - 1);
      WordsOfWellFormed(init);
      assert ItemOk(items[|items| - 1]);
    }
  }

  /** No operator token ever lands among the arguments. */
  lemma ArgumentsHaveNoOperator(ts: seq<string>)
    requires Parse(ts).Ok?
    ensures forall i :: 0 <= i < |Parse(ts).value.arguments| ==> !IsOperator(Parse(ts).value.arguments[i])
  {
    ParseSound(ts);
    WordsOfWellFormed(Lex(ts).value);
  }

  /** Exact-match recognition: a line with no standalone operator is all arguments, with no file names and no pipe. */
  lemma {:induction false} NoOperatorsAllArguments(ts: seq<string>)
    requires forall i :: 0 <= i < |ts| ==> !IsOperator(ts[i])
    ensures Parse(ts) == Ok(Command(ts, None, None, None))
    decreases |ts|
  {
    if ts != [] {
      var init := ts[..|ts| - 1];
      NoOperatorsAllArguments(init);
      ParseSnoc(init, Arg(ts[|ts| - 1]));
      assert init + ItemTokens(Arg(ts[|ts| - 1])) == ts;
    }
  }

  /** The first item's share of the words and of the tokens. */
  lemma WordsCons(items: seq<Item>)
    requires items != []
    ensures Words(items) == (if items[0].Arg? then [items[0].text] else []) + Words(items[1..])
    ensures Render(items) == ItemTokens(items[0]) + Render(items[1..])
  {
    assert items == [items[0]] + items[1..];
    WordsAppend([items[0]], items[1..]);
    assert [items[0]][..0] == [];
  }

  lemma {:induction false} WordsAtMostTokens(items: seq<Item>)
    ensures |Words(items)| <= |Render(items)|
  {
    if items != [] {
      WordsCons(items);
      WordsAtMostTokens(items[1..]);
    }
  }

  lemma {:induction false} WordsFewerThanTokens(items: seq<Item>, k: nat)
    requires WellFormed(items)
    requires k < |Render(items)| && IsOperator(Render(items)[k])
    ensures |Words(items)| < |Render(items)|
  {
    assert items != [];
    var it, rest := items[0], items[1..];
    var a := ItemTokens(it);
    WordsCons(items);
    WellFormedTail(items);
    WordsAtMostTokens(rest);
    assert |Words(items)| == (if it.Arg? then 1 else 0) + |Words(rest)|;
    assert |Render(items)| == |a| + |Render(rest)|;
    if k < |a| {
      assert a[k] == Render(items)[k];
      OperatorItemHasNoWord(it, k);
    } else {
      assert Render(rest)[k - |a|] == Render(items)[k];
      WordsFewerThanTokens(rest, k - |a|);
    }
  }

  lemma OperatorItemHasNoWord(it: Item, k: nat)
    requires ItemOk(it) && k < |ItemTokens(it)| && IsOperator(ItemTokens(it)[k])
    ensures !it.Arg?
  {
  }

  /** Every operator takes up a token that yields no argument: only a line without operators gives one argument per token. */
  lemma ArgumentsFewerThanTokens(ts: seq<string>)
    requires Parse(ts).Ok?
    ensures |Parse(ts).value.arguments| <= |ts|
    ensures (exists k :: 0 <= k < |ts| && IsOperator(ts[k])) ==> |Parse(ts).value.arguments| < |ts|
  {
    ParseSound(ts);
    WordsAtMostTokens(Lex(ts).value);
    if k :| 0 <= k < |ts| && IsOperator(ts[k]) {
      WordsFewerThanTokens(Lex(ts).value, k);
    }
  }

  lemma {:induction false} RenderAt(items: seq<Item>, j: nat)
    requires j < |items|
    ensures Render(items) == Render(items[..j]) + ItemTokens(items[j]) + Render(items[j + 1..])
  {
    assert items == items[..j] + ([items[j]] + items[j + 1..]);
    RenderAppend(items[..j], [items[j]] + items[j + 1..]);
    assert ([items[j]] + items[j + 1..])[1..] == items[j + 1..];
  }

  lemma LastIndexIs(ts: seq<string>, j: int, t: string)
    requires LastAt(ts, j, t)
    ensures LastIndex(ts, t) == Some(j)
  {
  }

  lemma LastAtShift(a: seq<string>, b: seq<string>, m: int, t: string)
    requires LastAt(b, m, t)
    ensures LastAt(a + b, |a| + m, t)
  {
    assert (a + b)[|a| + m] == b[m];
    forall k | |a| + m < k < |a + b| ensures (a + b)[k] != t {
      assert (a + b)[k] == b[k - |a|];
    }
  }

  lemma LastAtKeep(a: seq<string>, b: seq<string>, m: int, t: string)
    requires LastAt(a, m, t) && t !in b
    ensures LastAt(a + b, m, t)
  {
    assert (a + b)[m] == a[m];
    forall k | m < k < |a + b| ensures (a + b)[k] != t {
      if k < |a| {
        assert (a + b)[k] == a[k];
      } else {
        assert (a + b)[k] == b[k - |a|];
      }
    }
  }

  lemma LastIndexAppend(a: seq<string>, b: seq<string>, t: string)
    ensures LastIndex(a + b, t) == if t in b then Some(|a| + LastIndex(b, t).value) else LastIndex(a, t)
  {
    if t in b {
      var m := LastIndex(b, t).value;
      LastAtShift(a, b, m, t);
      LastIndexIs(a + b, |a| + m, t);
    } else if t in a {
      var m := LastIndex(a, t).value;
      LastAtKeep(a, b, m, t);
      LastIndexIs(a + b, m, t);
    } else {
      assert t !in a + b;
    }
  }

  /** Within one well-formed item, the token of kind `k` occurs only as the operator of an item of that kind. */
  lemma KindTokenOfItem(it: Item, k: Kind)
    requires ItemOk(it)
    ensures IsKind(it, k) ==> LastIndex(ItemTokens(it), KindToken(k)) == Some(0)
    ensures !IsKind(it, k) ==> KindToken(k) !in ItemTokens(it)
  {
    if IsKind(it, k) {
      LastIndexIs(ItemTokens(it), 0, KindToken(k));
    }
  }

  /** Where, among the tokens the items render to, the last item of kind `k` starts. */
  function KindStart(items: seq<Item>, k: Kind): Option<nat>
  {
    match LastOf(items, k) case Some(j) => Some(|Render(items[..j])|) case None => None
  }

  lemma KindStartSnoc(init: seq<Item>, it: Item, k: Kind)
    ensures KindStart(init + [it], k) ==
      if IsKind(it, k) then Some(|Render(init)|) else KindStart(init, k)
  {
    var items := init + [it];
    assert items[..|items| - 1] == init;
    if IsKind(it, k) {
      assert items[..|init|] == init;
    } else {
      var lo := LastOf(init, k);
      if lo.Some? {
        assert items[..lo.value] == init[..lo.value];
      }
    }
  }

  lemma RenderSnoc(init: seq<Item>, it: Item)
    ensures Render(init + [it]) == Render(init) + ItemTokens(it)
  {
    RenderAppend(init, [it]);
    assert Render([it]) == ItemTokens(it) + Render([]);
  }

  /** Appending one well-formed item moves the last token of kind `k` only when the item is of that kind. */
  lemma LastTokenSnoc(init: seq<Item>, it: Item, k: Kind)
    requires ItemOk(it)
    ensures LastIndex(Render(init + [it]), KindToken(k)) ==
      if IsKind(it, k) then Some(|Render(init)|) else LastIndex(Render(init), KindToken(k))
  {
    RenderSnoc(init, it);
    LastIndexAppend(Render(init), ItemTokens(it), KindToken(k));
    KindTokenOfItem(it, k);
  }

  /** The last operator token of a kind is where the last item of that kind starts. */
  lemma {:induction false} LastTokenOfKind(items: seq<Item>, k: Kind)
    requires WellFormed(items)
    ensures LastIndex(Render(items), KindToken(k)) == KindStart(items, k)
    decreases |items|
  {
    if items != [] {
      var init := items[..|items| - 1];
      var it := items[|items| - 1];
      assert items == init + [it];
      assert ItemOk(it);
      WellFormedPrefix(items, |items| - 1);
      LastTokenOfKind(init, k);
      LastTokenSnoc(init, it, k);
      KindStartSnoc(init, it, k);
    }
  }

  /** The file name of a redirection item is the token right after its operator. */
  lemma RenderPathAt(items: seq<Item>, m: nat)
    requires m < |items| && (items[m].InFrom? || items[m].OutTo?)
    ensures |Render(items[..m])| + 1 < |Render(items)|
    ensures Render(items)[|Render(items[..m])| + 1] == items[m].path
  {
    RenderAt(items, m);
    var pre, mid, post := Render(items[..m]), ItemTokens(items[m]), Render(items[m + 1..]);
    assert mid == [ItemTokens(items[m])[0], items[m].path];
    assert Render(items) == pre + mid + post;
    assert (pre + mid + post)[|pre| + 1] == mid[1];
  }

  /** The token after the last `<` (or `>`) token is the file name of the last redirection item of that kind. */
  lemma FileNameAfterLast(items: seq<Item>, k: Kind, j: int)
    requires WellFormed(items) && k != BarKind && LastAt(Render(items), j, KindToken(k))
    ensures LastOf(items, k).Some?
    ensures j + 1 < |Render(items)| && Render(items)[j + 1] == items[LastOf(items, k).value].path
  {
    LastTokenOfKind(items, k);
    LastIndexIs(Render(items), j, KindToken(k));
    var m := LastOf(items, k).value;
    assert j == |Render(items[..m])|;
    RenderPathAt(items, m);
  }

  /**
   * The input file name is the token right after the last `<` token, and
   * there is none when `<` never occurs; likewise for `>` and the output
   * file name.
   */
  lemma RedirectPaths(ts: seq<string>)
    requires Parse(ts).Ok?
    ensures "<" !in ts ==> Parse(ts).value.inPath == None
    ensures forall j :: LastAt(ts, j, "<") ==> j + 1 < |ts| && Parse(ts).value.inPath == Some(ts[j + 1])
    ensures ">" !in ts ==> Parse(ts).value.outPath == None
    ensures forall j :: LastAt(ts, j, ">") ==> j + 1 < |ts| && Parse(ts).value.outPath == Some(ts[j + 1])
  {
    ParseSound(ts);
    var items := Lex(ts).value;
    LastTokenOfKind(items, InKind);
    LastTokenOfKind(items, OutKind);
    forall j | LastAt(ts, j, "<") ensures j + 1 < |ts| && Parse(ts).value.inPath == Some(ts[j + 1])
    {
      FileNameAfterLast(items, InKind, j);
    }
    forall j | LastAt(ts, j, ">") ensures j + 1 < |ts| && Parse(ts).value.outPath == Some(ts[j + 1])
    {
      FileNameAfterLast(items, OutKind, j);
    }
  }

  lemma WordsPrefix(items: seq<Item>, j: nat)
    requires j <= |items|
    ensures |Words(items[..j])| <= |Words(items)|
    ensures Words(items[..j]) == Words(items)[..|Words(items[..j])|]
  {
    WordsAppend(items[..j], items[j..]);
    assert items[..j] + items[j..] == items;
  }

  /**
   * The pipe split is the number of arguments the tokens before the last
   * `|` token produce, and those arguments are the first stage; with no `|`
   * token there is no split.
   */
  lemma PipeSplitCountsPriorArguments(ts: seq<string>)
    requires Parse(ts).Ok?
    ensures "|" !in ts ==> Parse(ts).value.pipeSplit == None
    ensures forall j :: LastAt(ts, j, "|") ==>
      var c := Parse(ts).value;
      && c.pipeSplit.Some? && c.pipeSplit.value <= |c.arguments|
      && Parse(ts[..j]).Ok?
      && Parse(ts[..j]).value.arguments == c.arguments[..c.pipeSplit.value]
  {
    ParseSound(ts);
    var items := Lex(ts).value;
    LastTokenOfKind(items, BarKind);
    forall j | LastAt(ts, j, "|")
      ensures var c := Parse(ts).value;
        && c.pipeSplit.Some? && c.pipeSplit.value <= |c.arguments|
        && Parse(ts[..j]).Ok?
        && Parse(ts[..j]).value.arguments == c.arguments[..c.pipeSplit.value]
    {
      LastIndexIs(ts, j, "|");
      var m := LastOf(items, BarKind).value;
      RenderAt(items, m);
      assert ts[..j] == Render(items[..m]);
      WellFormedPrefix(items, m);
      ParseRender(items[..m]);
      WordsPrefix(items, m);
    }
  }

  /** An empty or all-space line parses to the empty command. */
  lemma BlankLine(n: nat)
    ensures ParseLine(Split.Spaces(n)) == Ok(EMPTY_COMMAND)
  {
    Split.TokensOfSpaces(n);
  }
}
