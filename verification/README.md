# rust-rvcc: a verified model

rust-rvcc compiles one arithmetic expression, given on the command line,
into a RISC-V assembly file. In this version the pipeline is:

- **`tokenize`** splits the text into runs of digits (`Num`) and runs of
  punctuation (`Punck`). Every other character is dropped.
- **`expr` / `mul` / `primary`** form a recursive-descent parser for
  `expr = mul ("+" mul | "-" mul)*` and `mul = primary ("*" primary | "/" primary)*`.
  A `primary` is a single number. Each parser builds an owned binary tree
  (`binary_tree.rs`).
- **`get_expr`** walks the tree and emits stack-machine code, using `push`
  and `pop`.
- **`main_body`** wraps that code between `.global main` / `main:` and
  `ret`.

This project models each of these as pure Dafny functions over immutable
data and proves what the code promises.

Modules and files:

| module | file | contents |
|---|---|---|
| `Wrappers` | `wrappers.dfy` | `Option`; a panic in the source is `None` in the model |
| `BinaryTree` | `binary_tree.dfy` | the tree, its getters and setters, `new_binary_without_right` |
| `Numbers` | `numbers.dfy` | decimal literals, how the assembler reads an `li` immediate, and RISC-V `div` (rounds toward zero, and division by zero gives -1) |
| `Lexer` | `lexer.dfy` | the scanner loop of `tokenize`, step by step, and a reference definition `Runs` of maximal same-class runs |
| `Ast` | `ast.dfy` | node kinds, complete trees, the value of a tree |
| `Parser` | `parser.dfy` | `primary`, `mul` and `expr` over an index into the token list, plus the tree shapes they build and their in-order reading `Unparse` |
| `Asm` | `asm.dfy` | the emitted instructions, their text, a decoder for that text, and a machine that runs them |
| `Codegen` | `codegen.dfy` | `push`, `pop` and `get_expr`, plus a reference code function `Code`, stack balance, and the meaning of the code |
| `Compiler` | `compiler.dfy` | `main_body`, and the end-to-end theorem |
| `Scenarios` | `scenarios.dfy` | the repository's test inputs and a few more, each worked out to its result |

Main results:

- **Tokenizer.** `tokenize` is exactly the maximal runs of the input, with
  two exceptions. A trailing run of punctuation is never flushed. Neither
  is a trailing run of digits when the input has a non-ASCII character,
  because the loop compares a character index with a byte count.
- **Parser.** The parser returns no tree only when its first `primary`
  fails. A later `primary` that fails leaves its operator node without a
  right child (`Parser.MulLoopStep`, `Parser.ExprLoopStep`). The complete
  trees it returns are exactly the in-order spellings of left-leaning
  `+`/`-` chains over left-leaning `*`/`/` chains. This gives both
  precedence and left associativity.
- **Code generator.** `get_expr` succeeds exactly on complete trees.
  - Its code keeps the stack depth at or above the depth it started from,
    and ends at that depth.
  - Run on the machine, the code leaves the tree's value in `a0`. Here a
    literal is read as the assembler reads it: with a leading `0` it is
    octal, so `010` loads 8 and `08` is rejected.
  - It restores `sp`, and leaves every word at or above `sp` as it was.
- **End to end.** Whenever `main_body` writes a file, the file reads back
  as that code. The program it holds runs exactly when the assembler
  accepts every literal, and then returns the value of the parsed
  expression. When no literal has a superfluous leading zero, that is the
  expression's decimal value.

## Model

| member | source | states |
|---|---|---|
| BinaryTree.New | src/binary_tree.rs:16-22 | a new tree holds the key and has no left or right child |
| BinaryTree.SetRight | src/binary_tree.rs:35-37 | the right link becomes the given link; the key and the left link are unchanged |
| BinaryTree.SetLeft | src/binary_tree.rs:40-42 | the left link becomes the given link; the key and the right link are unchanged |
| BinaryTree.NewBinaryWithoutRight | src/main.rs:15-22 | the new node holds `root`, has the old tree as its left child, and has no right child |
| Scenarios.TreeLinks | src/main.rs:369-392 | in the tree test, the adopted node and its own left child `0` are reached again through `get_left` twice, and the new node has no right child |
| Numbers.TruncDivSpec | src/main.rs:322 | `div` rounds toward zero: the remainder is smaller than the divisor in magnitude and has the dividend's sign, the quotient times the divisor does not exceed the dividend in magnitude, and division by zero gives -1 |
| Lexer.Utf8Len | src/main.rs:80 | the length `count` is measured in bytes: at least the number of characters, and equal to it exactly when every character is ASCII |
| Lexer.TokenizeIsRuns | src/main.rs:79-137 | `Lexer.Tokenize` models `tokenize`. Its tokens are the maximal runs of digits and of punctuation, in order, with blanks and other characters dropped. A final punctuation run is left out, and so is a final digit run when the input is not pure ASCII |
| Lexer.TokenizeWellFormed | src/main.rs:88-124 | every token is non-empty; a `Num` token is all ASCII digits; a `Punck` token is all of `+ - * / ( )` |
| Lexer.TokenizeTrailingDigits | src/main.rs:126-132 | for an ASCII input ending in a digit, the last token is a `Num` holding exactly the final digit run |
| Lexer.TokenizeTrailingPunct | src/main.rs:108-132 | for an input ending in punctuation, adding back the dropped final punctuation run gives the full list of runs |
| Lexer.FinalRun | src/main.rs:108-119 | the last run of an input is the longest suffix of one character class |
| Parser.ParsePrimary | src/main.rs:258-289 | `primary` consumes one token if there is one. It returns a number leaf exactly when that token is a `Num`, and fails on punctuation and at the end of input |
| Parser.ParseMul | src/main.rs:201-256 | `Parser.ParseMul` models `mul`. It fails exactly when its first `primary` fails, and always consumes a token when one is left |
| Parser.ParseExpr | src/main.rs:142-199 | `Parser.ParseExpr` models `expr`. It fails exactly when its first `primary` fails, and it never reads past the end |
| Parser.MulLoopStep | src/main.rs:215-250 | one turn of the `mul` loop (`Parser.MulLoop`) at `*` or `/`: the operator becomes a node over the product so far. Its right child is the next `primary`, missing exactly when no number token follows. The loop resumes after the token `primary` consumed |
| Parser.ExprLoopStep | src/main.rs:156-193 | one turn of the `expr` loop (`Parser.ExprLoop`) at `+` or `-`: the operator becomes a node over the sum so far. Its right child is the next `mul`, missing exactly when no number token follows. The loop resumes where `mul` stopped |
| Parser.MulLoopShape | src/main.rs:207-255 | the `mul` loop (`Parser.MulLoop`) builds a left-leaning chain of `*` and `/` nodes, each right child a number or missing, and stops only at the end or before a token other than `*` and `/` |
| Parser.ExprLoopShape | src/main.rs:148-198 | the `expr` loop (`Parser.ExprLoop`) builds a left-leaning chain of `+` and `-` nodes over products, and stops only at the end or before a token other than `+` and `-` |
| Parser.ParseExprShape | src/main.rs:142-256 | every tree `expr` returns is a sum of products, with `*` and `/` binding tighter and all operators grouping to the left. It stops only at the end or before a non-additive token, and its leaves are literals when the number tokens are |
| Parser.ParseExprSound | src/main.rs:142-256 | a complete tree returned by `expr` spells exactly the tokens it consumed, and parsing stopped at a token that cannot continue an expression |
| Parser.ParseExprUnparse | src/main.rs:142-256 | conversely, the spelling of any complete sum of products, followed by a stopping point, is parsed back into that very tree. So `a - b - c` is `(a - b) - c` and `a + b * c` is `a + (b * c)` |
| Parser.WellFormedTokens | src/main.rs:88-124 | scanner tokens satisfy what the parser lemmas assume: operator tokens are punctuation and number tokens are literals |
| Codegen.GetExprCode | src/main.rs:303-327 | `Codegen.GetExpr` models `get_expr`, with `Codegen.Push` and `Codegen.Pop` for `push` and `pop`. It returns without panicking exactly when it is given a tree with every operator node having both children. It then appends the reference code of the tree and leaves the depth as it found it |
| Codegen.CodeBalanced | src/main.rs:291-327 | the net effect of the code on the depth is zero, and no prefix of the code takes the depth below where it started |
| Codegen.RunPush | src/main.rs:291-295 | `push` moves `sp` down one slot and stores `a0` there |
| Codegen.RunPopAlu | src/main.rs:297-326 | `pop` into `a1`, followed by the operator, loads the saved right operand, frees its slot, and combines `a0` with it |
| Codegen.RunAlu | src/main.rs:318-326 | each of the four operator lines computes its operation on `a0` and `a1` into `a0` |
| Codegen.CodeComputes | src/main.rs:303-327 | running the code of a complete tree whose literals the assembler accepts leaves the tree's value in `a0`, with each literal read as the assembler reads it (`Codegen.AsmEval`). It also restores `sp` and leaves the stack at and above `sp` unchanged |
| Codegen.CodeRunsIff | src/main.rs:303-308 | the code of a complete tree runs to the end exactly when the assembler accepts every literal of the tree: digits, with no `8` or `9` after a leading `0` |
| Numbers.AsmLiteralValue | src/main.rs:307 | the literal written after `li a0,` is read as its decimal value when it has no superfluous leading zero. A longer literal starting with `0` is read in base 8 from its remaining digits |
| Codegen.AsmEvalPlain | src/main.rs:303-327 | for a tree whose literals have no superfluous leading zero, the assembler accepts every literal, and the value of the code is the decimal value `Ast.Eval` of the tree |
| Asm.DecodeRender | src/main.rs:291-326 | each line `push`, `pop` and `get_expr` write reads back as the instruction it encodes |
| Asm.DecodeRenderText | src/main.rs:303-327 | the code text, one line per instruction, reads back as the instruction sequence |
| Asm.DecodeAssemblyRender | src/main.rs:329-344 | the whole file, header and code and `ret`, reads back as the code |
| Compiler.MainBodyWrites | src/main.rs:329-349 | `Compiler.MainBody` models `main_body`, which writes a file exactly when the input is non-empty and `expr` returns a complete tree; the file is then the header, the tree's code and `ret` |
| Compiler.CompiledProgramComputes | src/main.rs:329-349 | the written program, read back and run from any state, runs to the end exactly when the assembler accepts every literal. It then returns the value of the parsed expression in `a0`, with literals read as the assembler reads them, and leaves the caller's stack intact. Without superfluous leading zeros that value is the decimal value of the expression |
| Scenarios.CompileOne | src/main.rs:421-426 | `1` compiles to a program returning 1 |
| Scenarios.CompileOneTwoThree | src/main.rs:428-433 | `123` compiles to a program returning 123 |
| Scenarios.CompilePlusMinus | src/main.rs:435-441 | `1-2+3` parses as `(1-2)+3` and returns 2 |
| Scenarios.CompilePlusMinusWide | src/main.rs:443-449 | `112-22+33` parses as `(112-22)+33` and returns 123 |
| Scenarios.CompileSpaces | src/main.rs:451-457 | ` 12 + 34 - 5 ` has its blanks dropped and returns 41 |
| Scenarios.CompileMulBindsTighter | src/main.rs:201-256 | `2+3*4` parses as `2+(3*4)` and returns 14 |
| Scenarios.CompileMulFirst | src/main.rs:142-199 | `2*3+4` parses as `(2*3)+4` and returns 10 |
| Scenarios.CompileDivLeft | src/main.rs:231-251 | `8/2/2` groups to the left and returns 2 |
| Scenarios.CompileDivTruncates | src/main.rs:322 | `7/2` returns 3 |
| Scenarios.CompileDivByZero | src/main.rs:322 | `1/0` returns -1, the RISC-V result of division by zero |
| Scenarios.CompileQuirk | src/main.rs:469-477 | `1++1` makes `++` a single token, which is no operator, so the parse stops after `1` and the program returns 1 |
| Scenarios.CompileTrailingPlus | src/main.rs:126-132 | the final `+` of `1+` is never flushed, so it compiles as `1` |
| Scenarios.CompileInvalidChar | src/main.rs:459-467 | in `1+s` the letter is dropped, the sum lacks its right operand, `get_expr` panics, and no file is written |
| Scenarios.CompileLeadingZero | src/main.rs:307 | `010` is written as `li a0, 010`, which the assembler reads in base 8: the program returns 8, while the expression's decimal value is 10 |
| Scenarios.CompileBadOctal | src/main.rs:307 | `08` writes a file, but the assembler rejects its `li a0, 08`, so the program never runs |
| Scenarios.CompileEmpty | src/main.rs:80 | the empty expression writes no file: the byte count underflows |
| Scenarios.TokensSpaces | src/main.rs:79-137 | ` 12 + 34 - 5 ` tokenizes to `12`, `+`, `34`, `-`, `5` |

## Left out

- Command-line parsing, logging and the `main` entry point are left out: the model starts from the expression string.
- Writing the file is left out: `MainBody` returns the text `main_body` would write.
  - The `Ok(0)` it returns is not modelled.
  - The `.s` file name is not modelled.
- The test helper runs the script `test.sh`, which is not part of this model, on the assembly file and compares the first line of its output; presumably the script prints the program's exit status there. The helper is replaced by `Asm.Run` on the decoded code.
  - So the truncation of the exit status to 8 bits is not modelled.
  - The `a0` value is the full integer.
- Integer width: registers are unbounded integers, so the 64-bit wrap-around of `add`, `sub` and `mul` is not modelled. The tests' values are all small.
  - `Numbers.AsmLiteral` reads a literal of any length; an assembler would reject a literal that does not fit in 64 bits.
- `Numbers.AsmLiteral` models the assembler's reading of integer literals after the C convention that GNU as and LLVM's assembler follow: a leading `0` means octal. Only the forms the scanner can produce, runs of decimal digits, are modelled; hexadecimal and binary literals never occur.
- Tests `004_0` and `004_1` expect the error messages `invalid token` and `expect a number`, but `main_body` never returns an error. The model follows the code:
  - `1+s` panics in `get_expr`, which is `None` (`Scenarios.CompileInvalidChar`).
  - `1++1` compiles and returns 1 (`Scenarios.CompileQuirk`).
- Parentheses are tokenized but not parsed. `primary` treats `(` like any other punctuation and fails, because its branch for `(` is commented out in the source.
- Tokens after the parsed expression are ignored by `main_body`. `Parser.ParseExprSound` and `Parser.ParseExprShape` state where the parse stops; nothing states a property of what follows.
- `Lexer.Tokenize` requires a non-empty input, because `strings.len() - 1` underflows on the empty string and panics. `Compiler.MainBody` returns `None` there.
- `BinaryTree.GetLeft` and `BinaryTree.GetRight` have no contract of their own. They are plain field reads (src/binary_tree.rs:25-32), and their behaviour is stated through the setters and `BinaryTree.New`.
- `BinaryTree.GetRoot` stands for the `get_root` that src/main.rs:305 calls. That method is not defined in the tree module shown, so the model assumes it returns the node's `key`.
- `mem::take` is not modelled: it leaves a default tree behind in the moved-from variable. The model's trees are values, and no moved-from tree is read again.
- The output buffer is modelled as a sequence of instructions rather than a `String`. `Asm.RenderText` and `Asm.DecodeText` connect the two, and `Asm.DecodeAssemblyRender` proves the text reads back.
- `Codegen.GetExpr`'s fall-through arm for an operator kind (`_ => {}`) is unreachable. Only `Num` reaches it, and `Num` returns earlier.
  - `Codegen.Alu` therefore emits nothing for `Num`, which is what the source would do.
