/** The precedence-climbing parser: `parse_expression`, its `while` loop and
    `parse_infix_expression`, written as three mutually recursive functions
    over an immutable token sequence and an explicit cursor. The functions
    carry the cursor bounds and the stopping condition; the structural facts
    about the trees they build are proved by the lemmas that follow them. */
module Parser {
  import opened Tokens
  import opened Syntax

  /** The one failure the parser has: `PRECEDENCES[tokens[at]]` raising
      KeyError because the token in operator position is a literal or `(`.
      The Python exception carries only `key`; `at` records the slot. */
  datatype ParseError = KeyError(at: nat, key: Tok)

  datatype Result<T> = Ok(value: T) | Err(error: ParseError)

  /** A tree together with the cursor position after it. */
  datatype Parsed = Parsed(tree: Expr, end: nat)

  /** The `while` condition fails at `pos` for minimum precedence `p`
      without raising: no token follows the cursor, or the operator at the
      cursor binds no tighter than `p`. */
  predicate Halts(toks: seq<Tok>, pos: nat, p: Precedence)
  {
    pos >= |toks| - 1 || (IsBinaryOp(toks[pos]) && Strength(toks[pos]) <= Rank(p))
  }

  /** `parse_expression(min)` with the cursor at `pos`: take the token at
      the cursor as `left` (whatever it is), advance, then run the loop.
      Every call consumes at least the one token it reads. */
  function ParseExpression(toks: seq<Tok>, pos: nat, min: Precedence): (r: Result<Parsed>)
    requires pos < |toks|
    ensures r.Ok? ==> pos < r.value.end <= |toks|
    ensures r.Ok? ==> Halts(toks, r.value.end, min)
    decreases |toks| - pos, 2
  {
    ParseLoop(toks, Atom(toks[pos]), pos + 1, min)
  }

  /** The `while` loop of `parse_expression`: while a token follows the
      cursor and the operator there binds tighter than `min`, fold `left`
      into an infix node. A lookup of a literal or `(` raises KeyError. */
  function ParseLoop(toks: seq<Tok>, left: Expr, pos: nat, min: Precedence): (r: Result<Parsed>)
    requires pos <= |toks|
    ensures r.Ok? ==> pos <= r.value.end <= |toks|
    ensures r.Ok? ==> Halts(toks, r.value.end, min)
    ensures r.Ok? && r.value.end == pos ==> r.value.tree == left
    decreases |toks| - pos, 1
  {
    if pos < |toks| - 1 then
      match Lookup(toks[pos])
      case None => Err(KeyError(pos, toks[pos]))
      case Some(p) =>
        if Rank(p) > Rank(min) then
          match ParseInfix(toks, left, pos)
          case Err(e) => Err(e)
          case Ok(step) => ParseLoop(toks, step.tree, step.end, min)
        else Ok(Parsed(left, pos))
    else Ok(Parsed(left, pos))
  }

  /** `parse_infix_expression(left)`: the operator at the cursor becomes the
      node's operator, the cursor advances, and the right operand is parsed
      with that operator's precedence as the new minimum. */
  function ParseInfix(toks: seq<Tok>, left: Expr, pos: nat): (r: Result<Parsed>)
    requires pos < |toks| - 1
    ensures r.Ok? ==> pos + 1 < r.value.end <= |toks|
    ensures r.Ok? ==> r.value.tree.Bin? && r.value.tree.left == left && toks[pos] == OpTok(r.value.tree.op)
    ensures r.Ok? ==> Halts(toks, r.value.end, Binding(r.value.tree.op))
    decreases |toks| - pos, 0
  {
    match Lookup(toks[pos])
    case None => Err(KeyError(pos, toks[pos]))
    case Some(p) =>
      match ParseExpression(toks, pos + 1, p)
      case Err(e) => Err(e)
      case Ok(rhs) => Ok(Parsed(Bin(left, toks[pos].op, rhs.tree), rhs.end))
  }

  /** Every other slot of `toks[a..b)`, starting with `a`, holds an operator
      with a precedence-table entry. */
  predicate OperatorsFrom(toks: seq<Tok>, a: nat, b: nat)
    requires b <= |toks|
  {
    forall j :: a <= j < b && (j - a) % 2 == 0 ==> IsBinaryOp(toks[j])
  }

  /** `err` is the lookup failure at the first operator slot, counting
      from `a`, that holds no operator; only slots with a token after them
      are ever looked up. */
  predicate FirstBadSlot(toks: seq<Tok>, a: nat, err: ParseError)
  {
    && a <= err.at < |toks| - 1
    && (err.at - a) % 2 == 0
    && err.key == toks[err.at]
    && !IsBinaryOp(err.key)
    && OperatorsFrom(toks, a, err.at)
  }

  /** If the loop looks at an operator at `pos`, it binds no tighter than `p`. */
  predicate NextAtMost(toks: seq<Tok>, pos: nat, p: Precedence)
  {
    pos < |toks| - 1 && IsBinaryOp(toks[pos]) ==> Strength(toks[pos]) <= Rank(p)
  }

  /** What the loop keeps true of the tree it has folded so far. */
  predicate Pending(toks: seq<Tok>, left: Expr, pos: nat, min: Precedence)
  {
    && Ordered(left)
    && (left.Bin? ==>
         && Rank(Binding(left.op)) > Rank(min)
         && NextAtMost(toks, pos, Binding(left.op)))
  }

  /** The loop, run from `pos` with `left` folded so far, produced `r`:
      on success the tree reads as `left` followed by the tokens consumed,
      which alternate operator, operand; it is ordered when the fold
      invariant held at the start. On failure the error is at the first slot
      the loop looked up that holds no operator. */
  predicate LoopSound(toks: seq<Tok>, left: Expr, pos: nat, min: Precedence, r: Result<Parsed>)
  {
    && (r.Ok? ==>
         && pos <= r.value.end <= |toks|
         && Flatten(r.value.tree) == Flatten(left) + toks[pos..r.value.end]
         && (r.value.end - pos) % 2 == 0
         && OperatorsFrom(toks, pos, r.value.end)
         && (Pending(toks, left, pos, min) ==>
              && Ordered(r.value.tree)
              && (r.value.tree.Bin? ==> Rank(Binding(r.value.tree.op)) > Rank(min))))
    && (r.Err? ==> FirstBadSlot(toks, pos, r.error))
  }

  /** `parse_infix_expression` at `pos` produced `r`: on success a node
      whose right child reads as the tokens after the operator, is ordered,
      and binds tighter than the operator. */
  predicate InfixSound(toks: seq<Tok>, pos: nat, r: Result<Parsed>)
    requires pos < |toks| - 1
  {
    && (r.Ok? ==>
         && r.value.tree.Bin?
         && pos + 1 < r.value.end <= |toks|
         && Flatten(r.value.tree.right) == toks[pos + 1..r.value.end]
         && (r.value.end - pos) % 2 == 0
         && OperatorsFrom(toks, pos, r.value.end)
         && Ordered(r.value.tree.right)
         && (r.value.tree.right.Bin? ==>
              Rank(Binding(r.value.tree.right.op)) > Rank(Binding(r.value.tree.op))))
    && (r.Err? ==> FirstBadSlot(toks, pos, r.error))
  }

  /** `parse_expression(min)` at `pos` produced `r`: on success an ordered
      tree whose in-order tokens are exactly the consumed slice and whose
      root, if a node, binds tighter than `min`. */
  predicate ExpressionSound(toks: seq<Tok>, pos: nat, min: Precedence, r: Result<Parsed>)
    requires pos < |toks|
  {
    && (r.Ok? ==>
         && pos < r.value.end <= |toks|
         && Flatten(r.value.tree) == toks[pos..r.value.end]
         && (r.value.end - pos) % 2 == 1
         && OperatorsFrom(toks, pos + 1, r.value.end)
         && Ordered(r.value.tree)
         && (r.value.tree.Bin? ==> Rank(Binding(r.value.tree.op)) > Rank(min)))
    && (r.Err? ==> FirstBadSlot(toks, pos + 1, r.error))
  }

  lemma {:induction false} ExpressionFacts(toks: seq<Tok>, pos: nat, min: Precedence)
    requires pos < |toks|
    ensures ExpressionSound(toks, pos, min, ParseExpression(toks, pos, min))
    decreases |toks| - pos, 2
  {
    var r := ParseExpression(toks, pos, min);
    LoopFacts(toks, Atom(toks[pos]), pos + 1, min);
    if r.Ok? {
      assert [toks[pos]] + toks[pos + 1..r.value.end] == toks[pos..r.value.end];
    }
  }

  lemma {:induction false} LoopFacts(toks: seq<Tok>, left: Expr, pos: nat, min: Precedence)
    requires pos <= |toks|
    ensures LoopSound(toks, left, pos, min, ParseLoop(toks, left, pos, min))
    decreases |toks| - pos, 1
  {
    var r := ParseLoop(toks, left, pos, min);
    if pos < |toks| - 1 && IsBinaryOp(toks[pos]) && Strength(toks[pos]) > Rank(min) {
      InfixFacts(toks, left, pos);
      var step := ParseInfix(toks, left, pos);
      if step.Ok? {
        LoopFacts(toks, step.value.tree, step.value.end, min);
        assert r == ParseLoop(toks, step.value.tree, step.value.end, min);
        FoldStep(toks, left, pos, min, step.value, r);
      }
    } else if r.Ok? {
      assert toks[pos..pos] == [];
      assert Flatten(left) + [] == Flatten(left);
    }
  }

  /** One turn of the loop followed by the rest of the loop is sound when
      each part is. */
  lemma FoldStep(toks: seq<Tok>, left: Expr, pos: nat, min: Precedence, step: Parsed, r: Result<Parsed>)
    requires pos < |toks| - 1 && IsBinaryOp(toks[pos]) && Strength(toks[pos]) > Rank(min)
    requires step.tree.Bin? && step.tree.left == left && toks[pos] == OpTok(step.tree.op)
    requires step.end <= |toks| && Halts(toks, step.end, Binding(step.tree.op))
    requires InfixSound(toks, pos, Ok(step))
    requires LoopSound(toks, step.tree, step.end, min, r)
    ensures LoopSound(toks, left, pos, min, r)
  {
    var mid := step.end;
    if r.Ok? {
      assert Flatten(step.tree) == Flatten(left) + toks[pos..mid] by {
        assert toks[pos..mid] == [toks[pos]] + toks[pos + 1..mid];
      }
      FoldsCompose(toks, left, pos, step.tree, mid, r.value.tree, r.value.end);
      OperatorsFromJoin(toks, pos, mid, r.value.end);
      if Pending(toks, left, pos, min) {
        FoldKeepsPending(toks, left, pos, min, step.tree, mid);
      }
    } else {
      FirstBadSlotExtend(toks, pos, mid, r.error);
    }
  }

  lemma {:induction false} InfixFacts(toks: seq<Tok>, left: Expr, pos: nat)
    requires pos < |toks| - 1
    ensures InfixSound(toks, pos, ParseInfix(toks, left, pos))
    decreases |toks| - pos, 0
  {
    if IsBinaryOp(toks[pos]) {
      var rhs := ParseExpression(toks, pos + 1, Binding(toks[pos].op));
      ExpressionFacts(toks, pos + 1, Binding(toks[pos].op));
      if rhs.Ok? {
        OperatorsFromJoin(toks, pos, pos + 2, rhs.value.end);
      } else {
        FirstBadSlotExtend(toks, pos, pos + 2, rhs.error);
      }
    }
  }

  lemma OperatorsFromJoin(toks: seq<Tok>, a: nat, b: nat, c: nat)
    requires a <= b <= c <= |toks| && (b - a) % 2 == 0
    requires OperatorsFrom(toks, a, b) && OperatorsFrom(toks, b, c)
    ensures OperatorsFrom(toks, a, c)
    ensures (c - b) % 2 == 0 ==> (c - a) % 2 == 0
  {
    forall j | a <= j < c && (j - a) % 2 == 0
      ensures IsBinaryOp(toks[j])
    {
      if j >= b {
        assert (j - b) % 2 == 0;
      }
    }
  }

  lemma AppendSlices<T>(x: seq<T>, y: seq<T>, z: seq<T>, s: seq<T>, a: nat, b: nat, c: nat)
    requires a <= b <= c <= |s|
    requires y == x + s[a..b] && z == y + s[b..c]
    ensures z == x + s[a..c]
  {
    assert s[a..c] == s[a..b] + s[b..c];
  }

  /** Two successive stretches of the loop read as one. */
  lemma FoldsCompose(toks: seq<Tok>, left: Expr, pos: nat, tree: Expr, mid: nat, final: Expr, end: nat)
    requires pos <= mid <= end <= |toks|
    requires Flatten(tree) == Flatten(left) + toks[pos..mid]
    requires Flatten(final) == Flatten(tree) + toks[mid..end]
    ensures Flatten(final) == Flatten(left) + toks[pos..end]
  {
    AppendSlices(Flatten(left), Flatten(tree), Flatten(final), toks, pos, mid, end);
  }

  lemma FirstBadSlotExtend(toks: seq<Tok>, a: nat, b: nat, err: ParseError)
    requires a <= b <= |toks| && (b - a) % 2 == 0
    requires OperatorsFrom(toks, a, b) && FirstBadSlot(toks, b, err)
    ensures FirstBadSlot(toks, a, err)
  {
    OperatorsFromJoin(toks, a, b, err.at);
  }

  /** One fold of the loop keeps its invariant: the new node's operator
      binds tighter than `min`, its left child was folded at no weaker a
      binding, and its right child stopped at no stronger an operator. */
  lemma FoldKeepsPending(toks: seq<Tok>, left: Expr, pos: nat, min: Precedence, tree: Expr, end: nat)
    requires pos < |toks| - 1 && IsBinaryOp(toks[pos]) && Strength(toks[pos]) > Rank(min)
    requires Pending(toks, left, pos, min)
    requires tree.Bin? && tree.left == left && toks[pos] == OpTok(tree.op)
    requires Ordered(tree.right)
    requires tree.right.Bin? ==> Rank(Binding(tree.right.op)) > Rank(Binding(tree.op))
    requires end <= |toks| && Halts(toks, end, Binding(tree.op))
    ensures Pending(toks, tree, end, min)
  {
  }
}
