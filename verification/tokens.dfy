/** Lexical layer of the Pratt parser visualiser: the TOKEN enumeration, the
    string-to-token table, the precedence table, and the single-space split
    that turns an input line into classified tokens. */
module Tokens {

  datatype Option<T> = None | Some(value: T)

  /** The members of the TOKEN enumeration. */
  datatype Op = Plus | Minus | Asterisk | LParen

  /** The operators that have an entry in the precedence table; `(` has none. */
  type BinaryOp = o: Op | o != LParen witness Plus

  /** A classified piece of input: a TOKEN member, or any other piece kept as text. */
  datatype Tok = OpTok(op: Op) | Lit(text: string)

  /** The PRECEDENCE enumeration, in declaration order. */
  datatype Precedence = Lowest | Equals | LessGreater | Sum | Product | Prefix | Call

  /** The value `auto()` gives each PRECEDENCE member: 1, 2, 3, ... in order. */
  function Rank(p: Precedence): (r: nat)
    ensures 1 <= r <= 7
  {
    match p
    case Lowest => 1
    case Equals => 2
    case LessGreater => 3
    case Sum => 4
    case Product => 5
    case Prefix => 6
    case Call => 7
  }

  /** The value of a TOKEN member: the symbol it is spelled with. */
  function Symbol(o: Op): (s: string)
    ensures |s| == 1 && s[0] != ' '
  {
    match o
    case Plus => "+"
    case Minus => "-"
    case Asterisk => "*"
    case LParen => "("
  }

  /** `auto()` gives distinct members distinct values, increasing in
      declaration order. */
  lemma RankDistinct(p: Precedence, q: Precedence)
    ensures Rank(p) == Rank(q) <==> p == q
    ensures Rank(Lowest) < Rank(Sum) < Rank(Product)
  {
  }

  /** Distinct TOKEN members have distinct values. */
  lemma SymbolDistinct(o: Op, q: Op)
    ensures Symbol(o) == Symbol(q) <==> o == q
  {
  }

  predicate IsBinaryOp(t: Tok)
  {
    t.OpTok? && t.op != LParen
  }

  /** The entry of the precedence table for an operator that has one. */
  function Binding(o: BinaryOp): (p: Precedence)
    ensures p == Sum <==> o != Asterisk
    ensures p == Product <==> o == Asterisk
    ensures Rank(Lowest) < Rank(p)
  {
    match o
    case Plus => Sum
    case Minus => Sum
    case Asterisk => Product
  }

  /** `PRECEDENCES[t]`: the table lookup, None where Python raises KeyError. */
  function Lookup(t: Tok): (r: Option<Precedence>)
    ensures r.Some? <==> IsBinaryOp(t)
    ensures r.Some? ==> IsBinaryOp(t) && r.value == Binding(t.op)
  {
    match t
    case Lit(_) => None
    case OpTok(o) => if o == LParen then None else Some(Binding(o))
  }

  /** Binding strength of a token in operator position (0 when it has none). */
  function Strength(t: Tok): nat
  {
    if IsBinaryOp(t) then Rank(Binding(t.op)) else 0
  }

  /** `STR_TO_TOK.get(piece, piece)`: a piece spelled like a TOKEN value
      becomes that member, anything else stays the unchanged text. */
  function Classify(piece: string): (t: Tok)
    ensures t.OpTok? <==> piece in {"+", "-", "*", "("}
    ensures t.OpTok? ==> Symbol(t.op) == piece
    ensures t.Lit? ==> t.text == piece
  {
    if piece == "+" then OpTok(Plus)
    else if piece == "-" then OpTok(Minus)
    else if piece == "*" then OpTok(Asterisk)
    else if piece == "(" then OpTok(LParen)
    else Lit(piece)
  }

  /** The input text a token was classified from. */
  function Spell(t: Tok): string
  {
    match t
    case OpTok(o) => Symbol(o)
    case Lit(s) => s
  }

  /** A token the classifier can produce: a literal is never spelled like an operator. */
  predicate Canonical(t: Tok)
  {
    t.Lit? ==> t.text !in {"+", "-", "*", "("}
  }

  lemma SpellClassify(piece: string)
    ensures Spell(Classify(piece)) == piece
    ensures Canonical(Classify(piece))
  {
  }

  lemma ClassifySpell(t: Tok)
    requires Canonical(t)
    ensures Classify(Spell(t)) == t
  {
  }

  /** `" ".join(pieces)`. */
  function Join(pieces: seq<string>): string
  {
    if |pieces| == 0 then ""
    else if |pieces| == 1 then pieces[0]
    else pieces[0] + " " + Join(pieces[1..])
  }

  /** `line.split(" ")`: cut at every single space, keeping empty pieces. */
  function Split(line: string): (pieces: seq<string>)
    ensures |pieces| >= 1
    ensures forall i :: 0 <= i < |pieces| ==> ' ' !in pieces[i]
    ensures Join(pieces) == line
    decreases |line|
  {
    if |line| == 0 then [""]
    else
      var rest := Split(line[1..]);
      if line[0] == ' ' then [""] + rest
      else [[line[0]] + rest[0]] + rest[1..]
  }

  lemma {:induction false} SplitPrefix(word: string, tail: string)
    requires ' ' !in word
    ensures Split(word + tail) == [word + Split(tail)[0]] + Split(tail)[1..]
    decreases |word|
  {
    if |word| > 0 {
      SplitPrefix(word[1..], tail);
      assert (word + tail)[1..] == word[1..] + tail;
      assert [word[0]] + (word[1..] + Split(tail)[0]) == word + Split(tail)[0];
    } else {
      assert word + tail == tail;
      var pieces := Split(tail);
      assert word + pieces[0] == pieces[0];
      assert pieces == [pieces[0]] + pieces[1..];
    }
  }

  /** Splitting undoes joining, for pieces without spaces. */
  lemma {:induction false} SplitJoin(pieces: seq<string>)
    requires |pieces| >= 1
    requires forall i :: 0 <= i < |pieces| ==> ' ' !in pieces[i]
    ensures Split(Join(pieces)) == pieces
    decreases |pieces|
  {
    if |pieces| == 1 {
      SplitPrefix(pieces[0], "");
      assert pieces[0] + "" == pieces[0];
    } else {
      var tail := Join(pieces[1..]);
      SplitJoin(pieces[1..]);
      SplitPrefix(pieces[0], " " + tail);
      assert (" " + tail)[1..] == tail;
      assert Split(" " + tail) == [""] + pieces[1..];
      assert pieces[0] + "" == pieces[0];
    }
  }

  /** The classified tokens of an input line, one per space-separated piece. */
  function Tokenize(line: string): (toks: seq<Tok>)
    ensures |toks| == |Split(line)| >= 1
    ensures forall i :: 0 <= i < |toks| ==> toks[i] == Classify(Split(line)[i])
    ensures forall i :: 0 <= i < |toks| ==> Canonical(toks[i]) && ' ' !in Spell(toks[i])
    ensures Join(Spells(toks)) == line
  {
    var pieces := Split(line);
    var toks := seq(|pieces|, i requires 0 <= i < |pieces| => Classify(pieces[i]));
    assert Spells(toks) == pieces;
    toks
  }

  /** The spellings of a token sequence, in order. */
  function Spells(toks: seq<Tok>): (words: seq<string>)
    ensures |words| == |toks|
    ensures forall i :: 0 <= i < |toks| ==> words[i] == Spell(toks[i])
  {
    seq(|toks|, i requires 0 <= i < |toks| => Spell(toks[i]))
  }

  /** Tokenizing the spelling of canonical, space-free tokens gives them back. */
  lemma TokenizeSpells(toks: seq<Tok>)
    requires |toks| >= 1
    requires forall i :: 0 <= i < |toks| ==> Canonical(toks[i]) && ' ' !in Spell(toks[i])
    ensures Tokenize(Join(Spells(toks))) == toks
  {
    var words := Spells(toks);
    SplitJoin(words);
    var r := Tokenize(Join(words));
    forall i | 0 <= i < |toks|
      ensures r[i] == toks[i]
    {
      ClassifySpell(toks[i]);
    }
  }
}
