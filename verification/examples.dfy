/** Worked lines: what constructing a StatementParser gives on a few inputs,
    and what the renderer prints for them. */
module Examples {
  import opened Tokens
  import opened Syntax
  import opened Parser
  import opened Statement
  import opened Render
  import opened Roundtrip

  function N(s: string): Expr { Atom(Lit(s)) }

  /** The tokens of a line given as space-free pieces. */
  lemma LineTokens(pieces: seq<string>, toks: seq<Tok>)
    requires |pieces| >= 1 && |toks| == |pieces|
    requires forall i :: 0 <= i < |pieces| ==> ' ' !in pieces[i] && Classify(pieces[i]) == toks[i]
    ensures Tokenize(Join(pieces)) == toks
  {
    SplitJoin(pieces);
  }

  /** `+` groups to the left. */
  lemma SumsGroupLeft()
    ensures NewStatementParser("1 + 2 + 3").Ok? && NewStatementParser("1 + 2 + 3").value.ast == Bin(Bin(N("1"), Plus, N("2")), Plus, N("3"))
  {
    var e := Bin(Bin(N("1"), Plus, N("2")), Plus, N("3"));
    var pieces := ["1", "+", "2", "+", "3"];
    assert Spells(Flatten(e)) == pieces;
    assert Join(pieces) == "1 + 2 + 3" by {
      assert Join(pieces[4..]) == "3";
      assert Join(pieces[2..]) == "2 + 3";
    }
    ParseSpelling(e, "1 + 2 + 3");
  }

  /** `-` groups to the left, so the line means (1 - 2) - 3. */
  lemma DifferencesGroupLeft()
    ensures NewStatementParser("1 - 2 - 3").Ok? && NewStatementParser("1 - 2 - 3").value.ast == Bin(Bin(N("1"), Minus, N("2")), Minus, N("3"))
  {
    var e := Bin(Bin(N("1"), Minus, N("2")), Minus, N("3"));
    var pieces := ["1", "-", "2", "-", "3"];
    assert Spells(Flatten(e)) == pieces;
    assert Join(pieces) == "1 - 2 - 3" by {
      assert Join(pieces[4..]) == "3";
      assert Join(pieces[2..]) == "2 - 3";
    }
    ParseSpelling(e, "1 - 2 - 3");
  }

  /** `*` binds tighter than a `+` before it. */
  lemma ProductOnRight()
    ensures NewStatementParser("1 + 2 * 3").Ok? && NewStatementParser("1 + 2 * 3").value.ast == Bin(N("1"), Plus, Bin(N("2"), Asterisk, N("3")))
  {
    var e := Bin(N("1"), Plus, Bin(N("2"), Asterisk, N("3")));
    var pieces := ["1", "+", "2", "*", "3"];
    assert Spells(Flatten(e)) == pieces;
    assert Join(pieces) == "1 + 2 * 3" by {
      assert Join(pieces[4..]) == "3";
      assert Join(pieces[2..]) == "2 * 3";
    }
    ParseSpelling(e, "1 + 2 * 3");
  }

  /** `*` binds tighter than a `+` after it. */
  lemma ProductOnLeft()
    ensures NewStatementParser("1 * 2 + 3").Ok? && NewStatementParser("1 * 2 + 3").value.ast == Bin(Bin(N("1"), Asterisk, N("2")), Plus, N("3"))
  {
    var e := Bin(Bin(N("1"), Asterisk, N("2")), Plus, N("3"));
    var pieces := ["1", "*", "2", "+", "3"];
    assert Spells(Flatten(e)) == pieces;
    assert Join(pieces) == "1 * 2 + 3" by {
      assert Join(pieces[4..]) == "3";
      assert Join(pieces[2..]) == "2 + 3";
    }
    ParseSpelling(e, "1 * 2 + 3");
  }

  /** A trailing operator with nothing after it is left unread. */
  lemma TrailingOperator()
    ensures NewStatementParser("1 + 2 +").Ok? && NewStatementParser("1 + 2 +").value.cursor == 3
    ensures NewStatementParser("1 + 2 +").Ok? && NewStatementParser("1 + 2 +").value.ast == Bin(N("1"), Plus, N("2"))
  {
    var toks := [Lit("1"), OpTok(Plus), Lit("2"), OpTok(Plus)];
    var pieces := ["1", "+", "2", "+"];
    assert Join(pieces) == "1 + 2 +" by {
      assert Join(pieces[2..]) == "2 +";
    }
    LineTokens(pieces, toks);
    assert Tokenize("1 + 2 +") == toks;
    assert NewStatementParser("1 + 2 +") == ParseTokens(toks);
    TrailingTokens(toks);
  }

  lemma TrailingTokens(toks: seq<Tok>)
    requires toks == [Lit("1"), OpTok(Plus), Lit("2"), OpTok(Plus)]
    ensures ParseTokens(toks).Ok? && ParseTokens(toks).value.cursor == 3
    ensures ParseTokens(toks).Ok? && ParseTokens(toks).value.ast == Bin(N("1"), Plus, N("2"))
  {
    assert SlotsValid(toks);
    assert toks[..3] == Flatten(Bin(N("1"), Plus, N("2")));
    ParseIsTheOrderedTree(toks, Bin(N("1"), Plus, N("2")));
  }

  /** Two operands in a row: the parse stops after the first. */
  lemma OperandAfterOperand()
    ensures NewStatementParser("1 2").Ok? && NewStatementParser("1 2").value.cursor == 1
    ensures NewStatementParser("1 2").Ok? && NewStatementParser("1 2").value.ast == N("1")
  {
    var toks := [Lit("1"), Lit("2")];
    LineTokens(["1", "2"], toks);
    ParseIsTheOrderedTree(toks, N("1"));
  }

  /** An operator in operand position becomes a leaf. */
  lemma OperatorAsOperand()
    ensures NewStatementParser("+ 1").Ok? && NewStatementParser("+ 1").value.ast == Atom(OpTok(Plus))
  {
    var toks := [OpTok(Plus), Lit("1")];
    LineTokens(["+", "1"], toks);
    ParseIsTheOrderedTree(toks, Atom(OpTok(Plus)));
  }

  /** The empty line is one empty piece, parsed as an empty literal. */
  lemma EmptyLine()
    ensures NewStatementParser("") == Ok(StatementParser([Lit("")], 1, N("")))
  {
    ParseSpelling(N(""), "");
  }

  /** A piece that is not an operator, or is `(`, in operator position fails
      the precedence lookup. */
  lemma LookupFailures()
    ensures NewStatementParser("1 ( 2") == Err(KeyError(1, OpTok(LParen)))
    ensures NewStatementParser("1 2 3") == Err(KeyError(1, Lit("2")))
  {
    LineTokens(["1", "(", "2"], [Lit("1"), OpTok(LParen), Lit("2")]);
    LineTokens(["1", "2", "3"], [Lit("1"), Lit("2"), Lit("3")]);
  }

  /** A line with a single operand parses to a leaf, and `print_statement`
      fails on it after printing `(`; the display prints the operand. */
  lemma SingleOperandCrashes()
    ensures NewStatementParser("7").Ok? && PrintStatement(NewStatementParser("7").value.ast) == Printed([Open], true)
    ensures NewStatementParser("7").Ok? && Display(NewStatementParser("7").value.ast) == [Word("7")]
  {
    ParseSpelling(N("7"), "7");
  }

  /** The renderer's output for a parsed line, and its failure on a leaf root. */
  lemma Printing()
    ensures PrintStatement(Bin(N("1"), Plus, Bin(N("2"), Asterisk, N("3"))))
      == Printed([Open, Word("1"), Word("+"), Open, Word("2"), Word("*"), Word("3"), Close, Close], false)
    ensures NewStatementParser("1 2").Ok? && PrintStatement(NewStatementParser("1 2").value.ast) == Printed([Open], true)
  {
    OperandAfterOperand();
  }
}
