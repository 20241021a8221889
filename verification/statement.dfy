/** `StatementParser.__init__`: split the line, classify the pieces, and
    parse once from the lowest precedence, keeping the tokens, the final
    cursor and the tree. */
module Statement {
  import opened Tokens
  import opened Syntax
  import opened Parser

  datatype StatementParser = StatementParser(tokens: seq<Tok>, cursor: nat, ast: Expr)

  /** Every odd slot that has a token after it holds `+`, `-` or `*`:
      exactly the slots the top-level parse looks up. */
  predicate SlotsValid(toks: seq<Tok>)
  {
    forall i :: 0 <= i < |toks| - 1 && i % 2 == 1 ==> IsBinaryOp(toks[i])
  }

  /** Where the top-level parse stops: after the last token when there is
      an odd number of them, before the last one otherwise. */
  function StopAt(n: nat): nat
    requires n >= 1
  {
    if n % 2 == 1 then n else n - 1
  }

  /** `parse_expression(PRECEDENCE.LOWEST)` from cursor 0 on a token list,
      as the constructor runs it. It fails exactly when some looked-up
      slot holds a literal or `(`, reporting the leftmost one; otherwise it
      consumes every token except an unpaired last one, and the tree reads
      in order as the consumed tokens and is ordered by precedence. */
  function ParseTokens(toks: seq<Tok>): (r: Result<StatementParser>)
    requires |toks| >= 1
    ensures r.Ok? <==> SlotsValid(toks)
    ensures r.Ok? ==> r.value.tokens == toks && r.value.cursor == StopAt(|toks|)
    ensures r.Ok? ==> r.value.cursor <= |toks| && Flatten(r.value.ast) == toks[..r.value.cursor]
    ensures r.Ok? ==> Ordered(r.value.ast)
    ensures r.Err? ==> r.error.at % 2 == 1 && FirstBadSlot(toks, 1, r.error)
  {
    ExpressionFacts(toks, 0, Lowest);
    match ParseExpression(toks, 0, Lowest)
    case Err(e) => Err(e)
    case Ok(p) =>
      assert SlotsValid(toks) by {
        forall i | 0 <= i < |toks| - 1 && i % 2 == 1
          ensures IsBinaryOp(toks[i])
        {
          assert (i - 1) % 2 == 0;
        }
      }
      Ok(StatementParser(toks, p.end, p.tree))
  }

  /** `StatementParser(line)`: the tokens are those of the line; the parse
      succeeds exactly when every odd piece that has a piece after it is
      spelled `+`, `-` or `*`. */
  function NewStatementParser(line: string): (r: Result<StatementParser>)
    ensures r.Ok? <==>
      forall i :: 0 <= i < |Split(line)| - 1 && i % 2 == 1 ==> Split(line)[i] in {"+", "-", "*"}
    ensures r.Ok? ==> r.value.tokens == Tokenize(line) && Join(Spells(r.value.tokens)) == line
    ensures r.Ok? ==> r.value.cursor == StopAt(|Split(line)|)
  {
    SlotsSpelled(line);
    ParseTokens(Tokenize(line))
  }

  /** A piece classifies as an operator with a precedence entry exactly
      when it is spelled `+`, `-` or `*`. */
  lemma BinaryOpSpelling(piece: string)
    ensures IsBinaryOp(Classify(piece)) <==> piece in {"+", "-", "*"}
  {
  }

  lemma SlotsSpelled(line: string)
    ensures SlotsValid(Tokenize(line)) <==>
      forall i :: 0 <= i < |Split(line)| - 1 && i % 2 == 1 ==> Split(line)[i] in {"+", "-", "*"}
  {
    var toks, pieces := Tokenize(line), Split(line);
    forall i | 0 <= i < |toks|
      ensures IsBinaryOp(toks[i]) <==> pieces[i] in {"+", "-", "*"}
    {
      BinaryOpSpelling(pieces[i]);
    }
    if SlotsValid(toks) {
      forall i | 0 <= i < |pieces| - 1 && i % 2 == 1
        ensures pieces[i] in {"+", "-", "*"}
      {
        assert IsBinaryOp(toks[i]);
      }
    } else {
      var i :| 0 <= i < |toks| - 1 && i % 2 == 1 && !IsBinaryOp(toks[i]);
      assert 0 <= i < |Split(line)| - 1 && i % 2 == 1 && Split(line)[i] !in {"+", "-", "*"};
    }
  }

  /** The tree the parser builds is the one ordered tree that reads as the
      consumed tokens: precedence climbing agrees with the grammar in which
      `*` binds tighter than `+` and `-`, and all three group to the left. */
  lemma ParseIsTheOrderedTree(toks: seq<Tok>, e: Expr)
    requires |toks| >= 1 && ParseTokens(toks).Ok?
    requires Ordered(e) && Flatten(e) == toks[..ParseTokens(toks).value.cursor]
    ensures ParseTokens(toks).value.ast == e
  {
    OrderedUnique(ParseTokens(toks).value.ast, e);
  }

  /** Reading an ordered tree in order and parsing the tokens gives the
      tree back, with every token consumed. */
  lemma {:induction false} ParseFlatten(e: Expr)
    requires Ordered(e)
    ensures ParseTokens(Flatten(e)) == Ok(StatementParser(Flatten(e), |Flatten(e)|, e))
  {
    var toks := Flatten(e);
    FlattenLength(e);
    OperatorSlots(e);
    assert SlotsValid(toks);
    var r := ParseTokens(toks);
    assert toks[..|toks|] == toks;
    OrderedUnique(r.value.ast, e);
  }
}
