/** The parse tree (`Expression` and its leaves) and the two structural
    facts the parser establishes about it: its in-order token sequence, and
    the precedence ordering between a node and its children. */
module Syntax {
  import opened Tokens

  /** A leaf holds whatever token stood in operand position (a literal or,
      unguarded, an operator token); a node holds one operator that has a
      precedence-table entry. */
  datatype Expr = Atom(tok: Tok) | Bin(left: Expr, op: BinaryOp, right: Expr)

  function OpCount(e: Expr): nat
  {
    match e
    case Atom(_) => 0
    case Bin(l, _, r) => OpCount(l) + 1 + OpCount(r)
  }

  /** The tokens of a tree read in order: left, operator, right. */
  function Flatten(e: Expr): seq<Tok>
  {
    match e
    case Atom(t) => [t]
    case Bin(l, o, r) => Flatten(l) + [OpTok(o)] + Flatten(r)
  }

  /** Operands and operators alternate: a tree with n operators has 2n + 1
      in-order tokens. */
  lemma {:induction false} FlattenLength(e: Expr)
    ensures |Flatten(e)| == 2 * OpCount(e) + 1
  {
    if e.Bin? {
      FlattenLength(e.left);
      FlattenLength(e.right);
    }
  }

  /** Operands and operators alternate in the in-order tokens, so every odd
      slot holds an operator with a precedence-table entry. */
  lemma {:induction false} OperatorSlots(e: Expr)
    ensures forall i :: 0 <= i < |Flatten(e)| && i % 2 == 1 ==> IsBinaryOp(Flatten(e)[i])
  {
    if e.Bin? {
      var ls, rs := Flatten(e.left), Flatten(e.right);
      var ts := Flatten(e);
      OperatorSlots(e.left);
      OperatorSlots(e.right);
      FlattenLength(e.left);
      forall i | 0 <= i < |ts| && i % 2 == 1
        ensures IsBinaryOp(ts[i])
      {
        if i > |ls| {
          assert ts[i] == rs[i - |ls| - 1];
        }
      }
    }
  }

  /** The shape the strict `>` comparison gives a tree: a node's operator
      binds no tighter than a node in its left child and strictly less
      tightly than a node in its right child. */
  predicate Ordered(e: Expr)
  {
    match e
    case Atom(_) => true
    case Bin(l, o, r) =>
      && Ordered(l)
      && Ordered(r)
      && (l.Bin? ==> Rank(Binding(l.op)) >= Rank(Binding(o)))
      && (r.Bin? ==> Rank(Binding(r.op)) > Rank(Binding(o)))
  }

  /** In an ordered tree no operator anywhere binds more loosely than the root. */
  lemma {:induction false} RootIsWeakest(e: Expr)
    requires Ordered(e) && e.Bin?
    ensures forall i :: 0 <= i < |Flatten(e)| && i % 2 == 1 ==>
      Strength(Flatten(e)[i]) >= Rank(Binding(e.op))
  {
    var ls, rs := Flatten(e.left), Flatten(e.right);
    var ts := Flatten(e);
    assert ts == ls + [OpTok(e.op)] + rs;
    FlattenLength(e.left);
    if e.left.Bin? {
      RootIsWeakest(e.left);
    }
    if e.right.Bin? {
      RootIsWeakest(e.right);
    }
    forall i | 0 <= i < |ts| && i % 2 == 1
      ensures Strength(ts[i]) >= Rank(Binding(e.op))
    {
      if i > |ls| {
        assert ts[i] == rs[i - |ls| - 1];
      }
    }
  }

  /** In an ordered tree every operator right of the root binds strictly
      tighter than the root. */
  lemma RightIsStronger(e: Expr)
    requires Ordered(e) && e.Bin?
    ensures forall j :: 0 <= j < |Flatten(e.right)| && j % 2 == 1 ==>
      Strength(Flatten(e.right)[j]) > Rank(Binding(e.op))
  {
    if e.right.Bin? {
      RootIsWeakest(e.right);
    }
  }

  /** An operator right of the root of an ordered tree, at a given slot. */
  lemma RightOperatorStronger(e: Expr, i: nat)
    requires Ordered(e) && e.Bin?
    requires |Flatten(e.left)| < i < |Flatten(e)| && i % 2 == 1
    ensures Strength(Flatten(e)[i]) > Rank(Binding(e.op))
  {
    var ls, rs := Flatten(e.left), Flatten(e.right);
    var j := i - |ls| - 1;
    FlattenLength(e.left);
    assert j % 2 == 1;
    assert Flatten(e)[i] == rs[j];
    RightIsStronger(e);
  }

  /** Slot `m` holds the last operator of weakest binding in `ts`: no
      operator up to it binds more loosely and every later one binds more
      tightly. */
  predicate IsRootSlot(ts: seq<Tok>, m: nat)
  {
    && m < |ts|
    && m % 2 == 1
    && (forall i :: 0 <= i <= m && i % 2 == 1 ==> Strength(ts[i]) >= Strength(ts[m]))
    && (forall i :: m < i < |ts| && i % 2 == 1 ==> Strength(ts[i]) > Strength(ts[m]))
  }

  /** A token sequence has at most one root slot. */
  lemma RootSlotUnique(ts: seq<Tok>, m1: nat, m2: nat)
    requires IsRootSlot(ts, m1) && IsRootSlot(ts, m2)
    ensures m1 == m2
  {
    if m1 <= m2 {
      RootSlotStrengths(ts, m1, m2);
    } else {
      RootSlotStrengths(ts, m2, m1);
    }
  }

  /** Of two root slots, the later one binds no tighter than the earlier,
      and strictly tighter if it really is later. */
  lemma RootSlotStrengths(ts: seq<Tok>, m1: nat, m2: nat)
    requires IsRootSlot(ts, m1) && IsRootSlot(ts, m2) && m1 <= m2
    ensures Strength(ts[m1]) >= Strength(ts[m2])
    ensures m1 < m2 ==> Strength(ts[m2]) > Strength(ts[m1])
  {
  }

  /** The root of an ordered tree sits at the root slot of its in-order tokens. */
  lemma OrderedRootSlot(e: Expr)
    requires Ordered(e) && e.Bin?
    ensures IsRootSlot(Flatten(e), |Flatten(e.left)|)
  {
    var ts, m := Flatten(e), |Flatten(e.left)|;
    FlattenLength(e.left);
    assert ts[m] == OpTok(e.op);
    RootIsWeakest(e);
    forall i | m < i < |ts| && i % 2 == 1
      ensures Strength(ts[i]) > Strength(ts[m])
    {
      RightOperatorStronger(e, i);
    }
  }

  /** An ordered tree is determined by its in-order tokens: the root is the
      last operator of weakest binding, and the rest follows by induction. */
  lemma {:induction false} OrderedUnique(e1: Expr, e2: Expr)
    requires Ordered(e1) && Ordered(e2)
    requires Flatten(e1) == Flatten(e2)
    ensures e1 == e2
  {
    if e1.Bin? && e2.Bin? {
      OrderedRootSlot(e1);
      OrderedRootSlot(e2);
      RootSlotUnique(Flatten(e1), |Flatten(e1.left)|, |Flatten(e2.left)|);
      var ts := Flatten(e1);
      var m := |Flatten(e1.left)|;
      assert ts == Flatten(e1.left) + [OpTok(e1.op)] + Flatten(e1.right);
      assert ts == Flatten(e2.left) + [OpTok(e2.op)] + Flatten(e2.right);
      assert Flatten(e1.left) == ts[..m] == Flatten(e2.left);
      assert Flatten(e1.right) == ts[m + 1..] == Flatten(e2.right);
      OrderedUnique(e1.left, e2.left);
      OrderedUnique(e1.right, e2.right);
    }
  }
}
