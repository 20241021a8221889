/** `print_statement` / `print_ast_node`: a walk of the tree that emits
    `(`, the left side, the operator's symbol, the right side and `)` for
    every node, and a leaf's text for every leaf. The output is modelled as
    the sequence of emitted items rather than as text written to stdout. */
module Render {
  import opened Tokens
  import opened Syntax

  /** One `print` call of the renderer: a parenthesis it writes itself, or
      the text of a leaf or an operator. */
  datatype Piece = Open | Close | Word(text: string)

  /** The name of a TOKEN member. */
  function MemberName(o: Op): string
  {
    match o
    case Plus => "PLUS"
    case Minus => "MINUS"
    case Asterisk => "ASTERISK"
    case LParen => "LPAREN"
  }

  /** `print` of a leaf: a literal prints as its text; a TOKEN member left in
      operand position prints as `str()` of an Enum member, `TOKEN.PLUS`. */
  function LeafText(t: Tok): (s: string)
    ensures t.Lit? ==> s == Spell(t)
    ensures t.OpTok? ==> s != Spell(t) && |s| > |Spell(t)|
  {
    match t
    case Lit(s) => s
    case OpTok(o) => "TOKEN." + MemberName(o)
  }

  /** `print_ast_node(node)` for a node, and the `else` branch that prints
      a leaf child as it is. */
  function Render(e: Expr): seq<Piece>
  {
    match e
    case Atom(t) => [Word(LeafText(t))]
    case Bin(l, o, r) => [Open] + Render(l) + [Word(Symbol(o))] + Render(r) + [Close]
  }

  /** What `print_statement` emits: the root must be a node, since the
      renderer reads `node.left`; a bare leaf root prints `(` and then fails
      with AttributeError. */
  datatype Printed = Printed(pieces: seq<Piece>, crashed: bool)

  function PrintStatement(ast: Expr): (out: Printed)
    ensures out.crashed <==> ast.Atom?
    ensures out.crashed ==> out.pieces == [Open]
  {
    match ast
    case Atom(_) => Printed([Open], true)
    case Bin(_, _, _) => Printed(Render(ast), false)
  }

  /** The renderer as evidently intended: a leaf root prints as its text,
      the way a leaf child does, and a node root prints as before. */
  function Display(ast: Expr): (ps: seq<Piece>)
    ensures Balanced(ps) && Opens(ps) == OpCount(ast)
    ensures Words(ps) == Shown(Flatten(ast))
    ensures ast.Bin? ==> ps == PrintStatement(ast).pieces
  {
    RenderBalanced(ast);
    RenderWords(ast);
    Render(ast)
  }

  /** Number of opening minus closing parentheses. */
  function Excess(ps: seq<Piece>): int
  {
    if |ps| == 0 then 0
    else Excess(ps[..|ps| - 1]) + (match ps[|ps| - 1] case Open => 1 case Close => -1 case Word(_) => 0)
  }

  /** Every prefix opens at least as many parentheses as it closes, and
      the whole closes all it opens. */
  predicate Balanced(ps: seq<Piece>)
  {
    && Excess(ps) == 0
    && forall k :: 0 <= k <= |ps| ==> Excess(ps[..k]) >= 0
  }

  /** Number of opening parentheses. */
  function Opens(ps: seq<Piece>): nat
  {
    if |ps| == 0 then 0 else Opens(ps[..|ps| - 1]) + (if ps[|ps| - 1] == Open then 1 else 0)
  }

  lemma {:induction false} ExcessAppend(a: seq<Piece>, b: seq<Piece>)
    ensures Excess(a + b) == Excess(a) + Excess(b)
    ensures Opens(a + b) == Opens(a) + Opens(b)
    decreases |b|
  {
    if |b| == 0 {
      assert a + b == a;
    } else {
      var b' := b[..|b| - 1];
      assert (a + b)[..|a + b| - 1] == a + b';
      ExcessAppend(a, b');
    }
  }

  /** Wrapping two balanced sequences, with a word between them, in a pair
      of parentheses gives a balanced sequence. */
  lemma Wrap(a: seq<Piece>, w: string, b: seq<Piece>)
    requires Balanced(a) && Balanced(b)
    ensures Balanced([Open] + a + [Word(w)] + b + [Close])
  {
    var head := [Open] + a + [Word(w)];
    var ps := head + b + [Close];
    ExcessAppend([Open], a);
    ExcessAppend([Open] + a, [Word(w)]);
    ExcessAppend(head, b);
    ExcessAppend(head + b, [Close]);
    assert [Open][..0] == [];
    forall k | 0 <= k <= |ps|
      ensures Excess(ps[..k]) >= 0
    {
      if k == 0 {
        assert ps[..k] == [];
      } else if k <= 1 + |a| {
        assert ps[..k] == [Open] + a[..k - 1];
        ExcessAppend([Open], a[..k - 1]);
      } else if k <= |head| + |b| {
        assert ps[..k] == head + b[..k - |head|];
        ExcessAppend(head, b[..k - |head|]);
      } else {
        assert ps[..k] == ps;
      }
    }
  }

  /** The rendering of a tree is balanced and has one `(` per node. */
  lemma {:induction false} RenderBalanced(e: Expr)
    ensures Balanced(Render(e))
    ensures Opens(Render(e)) == OpCount(e)
  {
    match e
    case Atom(t) =>
      assert [Word(LeafText(t))][..0] == [];
    case Bin(l, o, r) =>
      RenderBalanced(l);
      RenderBalanced(r);
      Wrap(Render(l), Symbol(o), Render(r));
      var head := [Open] + Render(l) + [Word(Symbol(o))];
      ExcessAppend([Open], Render(l));
      ExcessAppend([Open] + Render(l), [Word(Symbol(o))]);
      ExcessAppend(head, Render(r));
      ExcessAppend(head + Render(r), [Close]);
      assert [Open][..0] == [];
      assert [Word(Symbol(o))][..0] == [];
      assert [Close][..0] == [];
  }

  /** The words of a piece sequence, with the parentheses deleted. */
  function Words(ps: seq<Piece>): seq<string>
  {
    if |ps| == 0 then []
    else (match ps[0] case Word(s) => [s] case _ => []) + Words(ps[1..])
  }

  lemma {:induction false} WordsAppend(a: seq<Piece>, b: seq<Piece>)
    ensures Words(a + b) == Words(a) + Words(b)
    decreases |a|
  {
    if |a| == 0 {
      assert a + b == b;
    } else {
      assert (a + b)[1..] == a[1..] + b;
      WordsAppend(a[1..], b);
    }
  }

  /** How a token of the in-order sequence is shown: an operand slot (even)
      as a leaf, an operator slot (odd) by its symbol. */
  function Shown(ts: seq<Tok>): (ws: seq<string>)
    ensures |ws| == |ts|
  {
    seq(|ts|, i requires 0 <= i < |ts| => if i % 2 == 0 then LeafText(ts[i]) else Spell(ts[i]))
  }

  /** Deleting the parentheses from a rendering leaves the leaves and
      operators in order: the in-order tokens, each shown as printed. */
  lemma {:induction false} RenderWords(e: Expr)
    ensures Words(Render(e)) == Shown(Flatten(e))
  {
    match e
    case Atom(t) =>
      assert Words(Render(e)) == [LeafText(t)] + Words([]);
    case Bin(l, o, r) =>
      RenderWords(l);
      RenderWords(r);
      WrapWords(Render(l), Symbol(o), Render(r));
      FlattenLength(l);
      ShownConcat(Flatten(l), OpTok(o), Flatten(r));
  }

  /** The words of a wrapped node are the words of its sides around the
      operator's word. */
  lemma WrapWords(a: seq<Piece>, w: string, b: seq<Piece>)
    ensures Words([Open] + a + [Word(w)] + b + [Close]) == Words(a) + [w] + Words(b)
  {
    WordsAppend([Open] + a + [Word(w)] + b, [Close]);
    WordsAppend([Open] + a + [Word(w)], b);
    WordsAppend([Open] + a, [Word(w)]);
    WordsAppend([Open], a);
    assert Words([Open]) == [] + Words([]);
    assert Words([Close]) == [] + Words([]);
    assert Words([Word(w)]) == [w] + Words([]);
  }

  lemma ShownConcat(a: seq<Tok>, x: Tok, b: seq<Tok>)
    requires |a| % 2 == 1
    ensures Shown(a + [x] + b) == Shown(a) + [Spell(x)] + Shown(b)
  {
    var lhs, rhs := Shown(a + [x] + b), Shown(a) + [Spell(x)] + Shown(b);
    forall i | 0 <= i < |lhs|
      ensures lhs[i] == rhs[i]
    {
      ShownAt(a, x, b, i);
    }
  }

  /** One slot of ShownConcat: the slots of `b` keep their parity after an
      odd-length prefix and one more token. */
  lemma ShownAt(a: seq<Tok>, x: Tok, b: seq<Tok>, i: nat)
    requires |a| % 2 == 1 && i < |a| + 1 + |b|
    ensures Shown(a + [x] + b)[i] == (Shown(a) + [Spell(x)] + Shown(b))[i]
  {
    var ts := a + [x] + b;
    if i < |a| {
      assert ts[i] == a[i];
    } else if i == |a| {
      assert ts[i] == x;
    } else {
      var j := i - |a| - 1;
      assert ts[i] == b[j];
      assert i % 2 == j % 2;
    }
  }
}
