# gobfk execution engine in Dafny

A model of the core of gobfk, a Brainfuck interpreter written in Go. The model covers the program record `BrainfuckProgram`, the constructor `CreateBrainfuckProgram`, the tokenizer `tokenize`, and the single-step evaluator `Evaluate` with its two bracket scans `openLoop` and `closeLoop`.

- `tokenizer.dfy` (module `Tokenizer`): the nine token values. `TokenOf` maps one character to its token. `Tokens` is the per-character specification of the tokenizer, and `Symbol` is the inverse of `TokenOf` on the eight meaningful characters.
- `brackets.dfy` (module `Brackets`): `Net(s, lo, hi)` is the number of `[` minus the number of `]` in `s[lo..hi)`. This is the running balance both scans keep. `ForwardMatch(s, i, j)` and `BackwardMatch(s, i, k)` say declaratively where `openLoop` and `closeLoop` stop. These predicates carry no contract of their own; what they mean is stated by the lemmas below and by the contracts of `OpenLoop`, `CloseLoop` and `Evaluate`, which use them. `Balanced` describes well-nested sources. The lemmas show the following:
  - each scan stops at exactly one place;
  - `openLoop` stops on a `]` and `closeLoop` on a `[`;
  - the two scans pair the same brackets;
  - in a well-nested source neither scan leaves the instructions.
- `program.dfy` (module `Gobfk`): the class `BrainfuckProgram`. Its fields are `Instructions`, `Tape` (an array of 64000 cells), `DP`, `PC` and `Finished`, plus `Output`, the bytes written so far. It has the constructor and the methods `Tokenize`, `Evaluate`, `OpenLoop` and `CloseLoop`. The loops in `Tokenize`, `OpenLoop` and `CloseLoop` are the source's loops, with invariants over the balance counter. Cells are bytes. The wrap-around of `++` and `--` on a Go `byte` is written out in `Increment` and `Decrement`.
- `scenarios.dfy` (module `Scenarios`): `CreateTwice` creates two programs from the same text and compares them. The other four are complete runs of small programs: each creates a program and steps it until it is finished, as the front end's loop does.

I/O is made explicit. `Evaluate(input)` receives the character a `,` would read. At end of input the caller passes `'\0'`, because Go's `ReadRune` returns rune 0 on error. A `.` appends the current cell to `Output`.

The source leaves three conditions unchecked, and each one panics in Go. The model states them as preconditions of `Evaluate`:
- the program counter is inside the instructions;
- the data pointer is inside the tape for `+ - . , [`;
- a jumping bracket has a match, meaning its scan stops inside the instructions.

`ForwardMatchExists` and `BackwardMatchExists` show that well-nested brackets provide the third condition.

Three details of the code are easy to misread:
- `closeLoop` adds 1 for `[` and subtracts 1 for `]` (gobfk.go:160-163). It ends one instruction *before* the matching `[`. The shared `PC++` then puts the counter back on the `[`, which re-tests the cell. `PC` can therefore be -1 for a moment, so it is an `int`.
- `openLoop` leaves `PC` on the matching `]`, and the shared increment steps past it.
- `CreateBrainfuckProgram("")` gives `Finished == false` with no instructions. `Evaluate` ensures `Finished` holds exactly when `PC >= |Instructions|`. This is not an object invariant, because a program created from the empty text is not finished and has no instructions. `Valid()` only keeps the direction `Finished ==> PC >= |Instructions|`.

Running the empty text crashes the Go program. In file mode, gobfk.go:54-56 calls `Evaluate` on `CreateBrainfuckProgram("")` because `Finished` is false, and gobfk.go:116 then indexes `Instructions[0]` and panics. The interactive mode does the same at end of input, where `ReadString` returns "" (gobfk.go:64-67). In the model, `Evaluate` requires `PC < |Instructions|`, so this call is excluded.

## Model

| member | source | states |
|---|---|---|
| Tokenizer.TokenOf | gobfk.go:89-108 | a character gets a non-comment token exactly when it is one of `> < + - . , [ ]`, and that token is written as the character itself |
| Tokenizer.Symbol | gobfk.go:90-105 | each of the eight meaningful tokens is written as one of the eight symbol characters |
| Tokenizer.SymbolRoundTrip | gobfk.go:90-105 | tokenizing the symbol of a meaningful token gives the token back |
| Tokenizer.Tokens | gobfk.go:87-110 | the token sequence has one token per input character, in order, and each token is `TokenOf` of its own character |
| Tokenizer.TokensAppend | gobfk.go:88-109 | the tokenizer keeps no state between characters: tokenizing `a + b` is tokenizing `a` and then `b` |
| Brackets.Net | gobfk.go:144-152 | the balance over a range moves by at most one per token, so it lies between minus and plus the range's length |
| Brackets.Delta | gobfk.go:160-163 | a token adds +1 to the balance exactly when it is LOOPL, -1 exactly when it is LOOPR, and 0 otherwise |
| Brackets.NetCons | gobfk.go:159-165 | the balance over a range is the first token's share plus the balance of the rest, which is the order the backward scan adds tokens in |
| Brackets.NetSplit | gobfk.go:146-153 | the balances of adjacent ranges add up |
| Brackets.ForwardMatchUnique | gobfk.go:146-153 | the forward scan from a given `[` has at most one stopping point |
| Brackets.BackwardMatchUnique | gobfk.go:159-169 | the backward scan from a given `]` has at most one stopping point |
| Brackets.ForwardPrefixNonNegative | gobfk.go:146-153 | while the forward scan runs, the balance after the `[` never drops below 0, so its counter stays at least 1 |
| Brackets.BackwardSuffixNegative | gobfk.go:159-169 | while the backward scan from a `]` runs, its counter stays below 0 |
| Brackets.ForwardMatchIsClose | gobfk.go:146-153 | openLoop's scan stops on a LOOPR |
| Brackets.BackwardMatchIsOpen | gobfk.go:159-169 | closeLoop's scan from a LOOPR stops on a LOOPL strictly before it |
| Brackets.MatchesAgree | gobfk.go:143-170 | for a `[` at i and a `]` at j, openLoop from i stops at j if and only if closeLoop from j stops at i |
| Brackets.ForwardMatchExists | gobfk.go:146-153 | in a well-nested source the forward scan from any `[` finds its stopping point inside the instructions |
| Brackets.BackwardMatchExists | gobfk.go:159-169 | in a well-nested source the backward scan from any `]` finds its stopping point inside the instructions |
| Gobfk.Increment | gobfk.go:121-122 | `Tape[DP]++` on a byte is +1 modulo 256 (255 becomes 0) |
| Gobfk.Decrement | gobfk.go:123-124 | `Tape[DP]--` on a byte is -1 modulo 256 (0 becomes 255) |
| Gobfk.IncrementDecrement | gobfk.go:121-124 | incrementing and decrementing a cell undo each other |
| Gobfk.LowByte | gobfk.go:127-130 | the byte stored for a read character is congruent to its code point modulo 256 and equals it below 256 |
| Gobfk.BrainfuckProgram.FinishedCannotStep | gobfk.go:138-140 | a finished program's counter is past the end, so it cannot meet `Evaluate`'s precondition and `Finished` is never cleared |
| Gobfk.BrainfuckProgram.constructor | gobfk.go:74-83 | a new program has the tokens of its source, 64000 zero cells, `DP == 0`, `PC == 0`, is not finished and has written nothing |
| Gobfk.BrainfuckProgram.Tokenize | gobfk.go:86-111 | the instructions become the per-character tokens of the input, and no other field changes |
| Gobfk.BrainfuckProgram.Evaluate | gobfk.go:115-141 | one step: `>`/`<` move DP by ±1; `+`/`-`/`,` write only the current cell; `.` appends the current cell to the output; every non-bracket moves PC by exactly 1; `[` on 0 lands just past its matching `]`; `]` lands on its matching `[`; afterwards `Finished` holds exactly when PC has run off the end |
| Gobfk.BrainfuckProgram.OpenLoop | gobfk.go:143-155 | on a zero cell PC moves to the first index where the forward balance reaches -1; on a non-zero cell PC is unchanged; only PC changes |
| Gobfk.BrainfuckProgram.CloseLoop | gobfk.go:157-170 | PC ends one before the greatest index whose backward balance up to the starting `]` is 0; only PC changes |
| Scenarios.CreateTwice | gobfk.go:74-83 | creating a program is deterministic in its source text |
| Scenarios.IncIncPrint | gobfk.go:54-57 | running `++.` writes the single byte 2 and finishes |
| Scenarios.ReadPrint | gobfk.go:54-57 | running `,.` with input 'A' writes 65 and finishes |
| Scenarios.Wrapping | gobfk.go:54-57 | `-.,.` writes 255, then reading U+0141 stores and writes 0x41, and the run finishes |
| Scenarios.ClearLoop | gobfk.go:54-57 | running `+[-]` executes the loop body once and finishes after the `[` re-test, with a zero cell and no output |

## Left out

- `main` (gobfk.go:42-71) is not modelled: argument checking, reading the file, the interactive prompt and `os.Exit`. The scenarios repeat its `for !Finished { Evaluate() }` loop on concrete programs only. Brainfuck programs need not terminate, so there is no general run-to-completion function.
- Real standard input and output are left out. `Evaluate` takes the read character as a parameter, and output is the `Output` sequence. Two Go behaviours are not modelled: the fresh `bufio.Reader` built for each `,` can lose buffered input, and `%c` UTF-8-encodes bytes of 128 and above.
- Go's `range` over a string decodes UTF-8, turning invalid bytes into U+FFFD. Here the source is already a sequence of characters.
- `debugTokens` (gobfk.go:172-195) is an unused naming helper with no effect on execution.
- Token's underlying byte codes 0-8 (gobfk.go:29-40) are represented by a datatype. The model relies only on the codes being distinct.
- Go's runtime panics are not modelled. An out-of-range `Instructions[PC]` or `Tape[DP]`, or a bracket scan that runs off the instructions, is a precondition of `Evaluate` instead. The model says nothing about what happens when a precondition fails.
