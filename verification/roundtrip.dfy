/** How the three stages fit together: spelling an ordered tree's tokens
    as a line and constructing a StatementParser from it gives the tree
    back, and displaying a parsed line, with the parentheses removed, gives
    the line back. */
module Roundtrip {
  import opened Tokens
  import opened Syntax
  import opened Parser
  import opened Statement
  import opened Render

  /** Every leaf is a token the classifier can produce from a piece
      without spaces. */
  predicate Spellable(e: Expr)
  {
    match e
    case Atom(t) => Canonical(t) && ' ' !in Spell(t)
    case Bin(l, _, r) => Spellable(l) && Spellable(r)
  }

  /** Every leaf is a literal (no TOKEN member in operand position). */
  predicate LiteralLeaves(e: Expr)
  {
    match e
    case Atom(t) => t.Lit?
    case Bin(l, _, r) => LiteralLeaves(l) && LiteralLeaves(r)
  }

  lemma {:induction false} SpellableTokens(e: Expr)
    requires Spellable(e)
    ensures forall i :: 0 <= i < |Flatten(e)| ==>
      Canonical(Flatten(e)[i]) && ' ' !in Spell(Flatten(e)[i])
  {
    if e.Bin? {
      var ls, rs := Flatten(e.left), Flatten(e.right);
      var ts := Flatten(e);
      SpellableTokens(e.left);
      SpellableTokens(e.right);
      forall i | 0 <= i < |ts|
        ensures Canonical(ts[i]) && ' ' !in Spell(ts[i])
      {
        if i > |ls| {
          assert ts[i] == rs[i - |ls| - 1];
        }
      }
    }
  }

  lemma {:induction false} LiteralOperands(e: Expr)
    requires LiteralLeaves(e)
    ensures forall i :: 0 <= i < |Flatten(e)| && i % 2 == 0 ==> Flatten(e)[i].Lit?
  {
    if e.Bin? {
      var ls, rs := Flatten(e.left), Flatten(e.right);
      var ts := Flatten(e);
      LiteralOperands(e.left);
      LiteralOperands(e.right);
      FlattenLength(e.left);
      forall i | 0 <= i < |ts| && i % 2 == 0
        ensures ts[i].Lit?
      {
        if i > |ls| {
          assert ts[i] == rs[i - |ls| - 1];
        }
      }
    }
  }

  /** When every operand slot holds a literal, the renderer shows each token
      exactly as it was spelled in the input. */
  lemma ShownIsSpelled(ts: seq<Tok>)
    requires forall i :: 0 <= i < |ts| && i % 2 == 0 ==> ts[i].Lit?
    ensures Shown(ts) == Spells(ts)
  {
  }

  /** A line that spells an ordered tree's in-order tokens parses back to
      that tree, with every token consumed. */
  lemma ParseSpelling(e: Expr, line: string)
    requires Ordered(e) && Spellable(e)
    requires line == Join(Spells(Flatten(e)))
    ensures NewStatementParser(line) == Ok(StatementParser(Flatten(e), |Flatten(e)|, e))
  {
    SpellableTokens(e);
    FlattenLength(e);
    TokenizeSpells(Flatten(e));
    ParseFlatten(e);
  }

  /** Displaying an ordered tree with literal leaves, deleting the
      parentheses and joining the rest with spaces gives a line that parses
      back to the same tree. */
  lemma DisplayReparses(e: Expr)
    requires Ordered(e) && Spellable(e) && LiteralLeaves(e)
    ensures NewStatementParser(Join(Words(Display(e))))
      == Ok(StatementParser(Flatten(e), |Flatten(e)|, e))
  {
    LiteralOperands(e);
    ShownIsSpelled(Flatten(e));
    ParseSpelling(e, Join(Spells(Flatten(e))));
  }

  /** A line of literals separated by single operators parses, and its
      display is balanced and, with the parentheses deleted and the words
      joined with spaces, is the line again. When the line has an operator,
      `print_statement` itself prints that display without failing. */
  lemma PrintedLine(line: string)
    requires |Split(line)| % 2 == 1
    requires forall i :: 0 <= i < |Split(line)| && i % 2 == 1 ==> Split(line)[i] in {"+", "-", "*"}
    requires forall i :: 0 <= i < |Split(line)| && i % 2 == 0 ==> Split(line)[i] !in {"+", "-", "*", "("}
    ensures NewStatementParser(line).Ok?
    ensures NewStatementParser(line).Ok? && Balanced(Display(NewStatementParser(line).value.ast))
    ensures NewStatementParser(line).Ok? && Join(Words(Display(NewStatementParser(line).value.ast))) == line
    ensures NewStatementParser(line).Ok? && (|Split(line)| >= 3 ==>
      PrintStatement(NewStatementParser(line).value.ast) == Printed(Display(NewStatementParser(line).value.ast), false))
  {
    var toks := Tokenize(line);
    var ast := NewStatementParser(line).value.ast;
    assert toks[..|toks|] == toks;
    assert Flatten(ast) == toks;
    FlattenLength(ast);
    ShownIsSpelled(toks);
  }
}
