# Pratt parser visualiser, modelled in Dafny

`visualiser.py` reads a line of space-separated pieces and builds a binary
expression tree with precedence climbing (a Pratt parser). It then prints the
tree fully parenthesised. This project models the three stages as pure Dafny
functions and proves what each stage guarantees.

- **Tokens** (`tokens.dfy`)
  - The `TOKEN` enumeration and `STR_TO_TOK`. A piece spelled `+`, `-`, `*` or `(` becomes that member; any other piece stays text.
  - The `PRECEDENCE` enumeration, with the values `auto()` gives it (1 to 7).
  - The `PRECEDENCES` table. A failed lookup is `None` where Python raises KeyError.
  - `str.split(" ")` and `" ".join`.
- **Syntax** (`syntax.dfy`)
  - The `Expression` dataclass as `Expr`. A leaf holds whatever token stood in operand position. A node holds `+`, `-` or `*`.
  - In-order flattening, and the precedence ordering between a node and its children (`Ordered`).
  - An ordered tree is determined by its in-order tokens.
- **Parser** (`parser.dfy`)
  - `parse_expression`, its `while` loop and `parse_infix_expression`, as three mutually recursive functions over an immutable token sequence and an explicit cursor.
  - The lemmas `ExpressionFacts`, `LoopFacts` and `InfixFacts` prove, by the same recursion, what trees the functions build and which error they report.
- **Statement** (`statement.dfy`): `StatementParser.__init__` as `NewStatementParser`. It tokenises the line and parses once from `PRECEDENCE.LOWEST` at cursor 0.
- **Render** (`render.dfy`): `print_statement`/`print_ast_node` as a producer of the sequence of printed items (`(`, `)`, leaf and operator text).
- **Roundtrip** (`roundtrip.dfy`): parsing the spelling of an ordered tree gives the tree back. Some parsed lines display, with parentheses deleted, as the line itself. These are lines with an odd number of pieces, where literals other than `(` alternate with `+`, `-` or `*`. Other lines do not: `1 2` displays as `1`, `+ 1` as `TOKEN.PLUS`, and `1 + 2 +` loses its trailing `+`.
- **Examples** (`examples.dfy`): concrete lines and their results.

The model follows the code:
- An empty line is not an error. `"".split(" ")` is `[""]`, so it parses to the single operand `""`.
- An operator in operand position is not rejected. `+ 1` parses to the leaf `+`.
- Within Python's recursion limit, the only failure of `StatementParser(line)` is the KeyError of a `PRECEDENCES` lookup. It happens when a literal or `(` sits in an operator slot that has a token after it. The recursion limit is not modelled; see "Left out".
- `print_statement` also fails, with AttributeError, on a leaf root; see "Findings".

## Model

| member | source | states |
|---|---|---|
| Tokens.Symbol | visualiser.py:9-13 | each TOKEN member's value is a single non-space character |
| Tokens.SymbolDistinct | visualiser.py:9-13 | distinct TOKEN members have distinct values, so `STR_TO_TOK` is a well-defined inverse |
| Tokens.Rank | visualiser.py:20-27 | each PRECEDENCE member's `auto()` value lies between 1 and 7 |
| Tokens.RankDistinct | visualiser.py:20-27 | distinct PRECEDENCE members have distinct values, and LOWEST < SUM < PRODUCT as the loop's `.value` comparison sees them |
| Tokens.Binding | visualiser.py:29-33 | `+` and `-` have precedence SUM, `*` has PRODUCT, and every entry ranks above LOWEST |
| Tokens.Lookup | visualiser.py:62 | the precedence lookup succeeds exactly for `+ - *` and then yields the table's entry; `(` and literals raise KeyError |
| Tokens.Classify | visualiser.py:18 | a piece becomes a TOKEN member exactly when it is spelled `+ - * (`, and that member's value is the piece; otherwise it stays the unchanged text |
| Tokens.SpellClassify | visualiser.py:18 | classifying then spelling a piece gives the piece back, and the classifier only produces canonical tokens |
| Tokens.ClassifySpell | visualiser.py:18 | spelling then classifying a canonical token gives the token back |
| Tokens.Split | visualiser.py:52 | splitting on single spaces yields at least one piece, no piece contains a space, and joining with spaces restores the line |
| Tokens.SplitJoin | visualiser.py:52 | splitting a space-joined list of space-free pieces gives the list back |
| Tokens.Tokenize | visualiser.py:52 | one classified token per piece (so never empty), each canonical and space-free, whose spellings joined with spaces are the line |
| Tokens.TokenizeSpells | visualiser.py:52 | tokenising the spelled line of canonical space-free tokens gives the tokens back |
| Syntax.FlattenLength | visualiser.py:61-64 | a tree with n operators reads in order as 2n + 1 tokens |
| Syntax.OperatorSlots | visualiser.py:61 | in the in-order tokens every odd slot holds `+`, `-` or `*` |
| Syntax.RootIsWeakest | visualiser.py:72-73 | in an ordered tree no operator binds more loosely than the root |
| Syntax.RightIsStronger | visualiser.py:62-64 | in an ordered tree every operator in the right subtree binds strictly tighter than the root |
| Syntax.RootSlotUnique | visualiser.py:72 | a token sequence has at most one slot holding the last weakest-binding operator |
| Syntax.OrderedRootSlot | visualiser.py:72-73 | the root of an ordered tree sits at the last weakest-binding operator of its in-order tokens |
| Syntax.OrderedUnique | visualiser.py:68-74 | two ordered trees with the same in-order tokens are equal |
| Parser.ParseExpression | visualiser.py:68-74 | on success the call consumes at least one token, the cursor stays within the tokens, and the loop stopped legitimately (no token follows, or the next operator binds no tighter than the minimum) |
| Parser.ParseLoop | visualiser.py:72-73 | the cursor never decreases nor passes the end; it stops only where the `while` condition fails; a loop that takes no operator returns `left` unchanged |
| Parser.ParseInfix | visualiser.py:59-66 | an operator is taken only when a token follows it; the node keeps `left`, holds the operator at the cursor, and its right operand is parsed up to where that operator's precedence stops it |
| Parser.ExpressionFacts | visualiser.py:68-74 | on success the tree reads in order as exactly the consumed slice, of odd length with operators at its odd slots, and is ordered with its root binding tighter than the minimum; on failure the KeyError is at the first looked-up slot holding no operator |
| Parser.LoopFacts | visualiser.py:72-73 | each turn of the loop extends the tree's in-order tokens by the tokens consumed and keeps the precedence ordering; a failure names the first bad operator slot |
| Parser.InfixFacts | visualiser.py:61-64 | the node's right child reads as the tokens after the operator, is ordered, and binds strictly tighter than the operator |
| Statement.ParseTokens | visualiser.py:53-54 | the parse fails exactly when some odd slot with a token after it holds no operator, naming the leftmost such slot; otherwise it consumes everything but an unpaired last token, and the tree reads in order as the consumed tokens and is ordered |
| Statement.NewStatementParser | visualiser.py:50-54 | construction succeeds exactly when every odd piece with a piece after it is spelled `+ - *`; the tokens spell the line; the cursor stops after the last piece or before an unpaired last one |
| Statement.BinaryOpSpelling | visualiser.py:29-33 | a piece's token has a precedence entry exactly when the piece is spelled `+`, `-` or `*` |
| Statement.ParseIsTheOrderedTree | visualiser.py:54 | the tree the constructor builds is the only ordered tree that reads as the consumed tokens |
| Statement.ParseFlatten | visualiser.py:50-54 | parsing the in-order tokens of an ordered tree gives that tree back, consuming every token |
| Render.PrintStatement | visualiser.py:80-96 | the print fails exactly when the root is a leaf, after printing only `(` |
| Render.Render | visualiser.py:80-94 | `print_ast_node`; its contract is stated by `Render.RenderBalanced` and `Render.RenderWords` (next rows) |
| Render.LeafText | visualiser.py:86 | a literal leaf prints exactly as it was spelled; a TOKEN leaf prints as something longer than and different from its symbol (`TOKEN.PLUS`, not `+`) |
| Render.RenderBalanced | visualiser.py:80-94 | the rendering is balanced: every prefix opens at least as many parentheses as it closes, the whole closes all, and there is one `(` per node |
| Render.RenderWords | visualiser.py:83-93 | deleting the parentheses leaves the in-order tokens, leaves shown as printed and operators by their symbols |
| Render.Display | visualiser.py:80-96 | the corrected renderer is balanced with one `(` per node, shows the in-order tokens once the parentheses are deleted, and agrees with `print_statement` on every node root |
| Roundtrip.ParseSpelling | visualiser.py:50-54 | a line that spells an ordered tree's in-order tokens constructs a parser holding that tree with every token consumed |
| Roundtrip.DisplayReparses | visualiser.py:50-96 | the displayed tree, with parentheses deleted and words joined by spaces, parses back to the same tree |
| Roundtrip.PrintedLine | visualiser.py:50-96 | a line of literals alternating with `+ - *` parses; its display is balanced and reads as the line again; with an operator present `print_statement` prints that display without failing |
| Examples.SumsGroupLeft | visualiser.py:72 | `1 + 2 + 3` parses as `((1 + 2) + 3)` |
| Examples.DifferencesGroupLeft | visualiser.py:72 | `1 - 2 - 3` parses as `((1 - 2) - 3)` |
| Examples.ProductOnRight | visualiser.py:62-64 | `1 + 2 * 3` parses as `(1 + (2 * 3))` |
| Examples.ProductOnLeft | visualiser.py:72-73 | `1 * 2 + 3` parses as `((1 * 2) + 3)` |
| Examples.TrailingOperator | visualiser.py:72 | `1 + 2 +` parses as `(1 + 2)` with the trailing `+` unread (cursor 3) |
| Examples.OperandAfterOperand | visualiser.py:72 | `1 2` parses as the leaf `1` with the cursor at 1 |
| Examples.OperatorAsOperand | visualiser.py:70 | `+ 1` parses as the leaf `+` |
| Examples.EmptyLine | visualiser.py:52-54 | the empty line parses as the single empty operand |
| Examples.LookupFailures | visualiser.py:72 | `1 ( 2` raises KeyError on `(` and `1 2 3` raises KeyError on `2`, both at slot 1 |
| Examples.SingleOperandCrashes | visualiser.py:80-86 | `7` parses to a leaf on which `print_statement` prints `(` and fails, while the display prints `7` |
| Examples.Printing | visualiser.py:80-96 | the printed items for `1 + (2 * 3)`, and the failure on the leaf root of `1 2` |

## Left out

- The debug `print` calls in the parser (visualiser.py:60, 65, 69) are console output. Their text is not modelled. Their one side effect on the result is covered by the next item.
- Python's recursion limit is not modelled. The model's functions recurse without bound, so the model never fails this way. In Python, deep trees raise RecursionError in two places:
  - inside the constructor, when the debug prints at visualiser.py:60 and 65 format an `Expression` through the dataclass `__repr__`, which recurses into `left`. A left-folded line such as `1 + 1 + ... + 1` with several hundred operators triggers this.
  - in `print_ast_node` (visualiser.py:84, 91), which recurses once per level.
- The interactive `input()` loop (visualiser.py:99-107) is I/O. It stops on an empty line, so from there the constructor never sees `""`. The model still covers that input.
- Writing to stdout is not modelled. That covers the `end=" "` spacing of `print_statement` and the unused `indent` parameter. The renderer is the sequence of printed items: `(`, `)` and the words in between.
- `next_token` (visualiser.py:56-57) is not a separate member. The cursor is an argument, and each advance is `pos + 1` in `Parser.ParseExpression` and `Parser.ParseInfix`.
- The `__repr__` of TOKEN (visualiser.py:15-16) is used only by the debug prints, so it is not modelled. A TOKEN leaf prints through the Enum's default `str`, for example `TOKEN.PLUS`; `Render.LeafText` models that.
- The commented-out `PrefixExpression` (visualiser.py:42-45) is not modelled, because the code has no parsing rule for it. `(` gets no special treatment either.
- `Parser.ParseError` adds the failing slot `at` to the KeyError, which in Python carries only the key. It is extra information and changes nothing else.
- The dataclass defaults of `Expression` (visualiser.py:35-39) are not modelled. Every node the parser builds has all three fields set.

## Findings

| source | as written | input that shows it | evidently intended | confidence | as-written member | corrected member |
|---|---|---|---|---|---|---|
| visualiser.py:80-96 | `print_statement` hands the root to `print_ast_node`, which prints `(` and then reads `node.left`; a leaf root (a bare operand) has no `left`, so the call fails with AttributeError | `7` (also `1 2`, whose parse stops after `1`) | a leaf root prints as its text, the way a leaf child does | medium, not executed | Examples.SingleOperandCrashes | Render.Display |
