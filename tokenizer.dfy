/** The instruction set of the interpreter and the tokenizer that turns source
    text into it: one token per character, nothing dropped. */
module Tokenizer {

  /** The nine token values. `Comment` stands for every character that is not
      one of the eight Brainfuck symbols. No token carries data. */
  datatype Token = Comment | Right | Left | Inc | Dec | Print | Read | LoopL | LoopR

  /** The eight characters that mean something to the interpreter. */
  const Symbols: string := "><+-.,[]"

  /** The source character a meaningful token is written as. */
  function Symbol(t: Token): (c: char)
    requires t != Comment
    ensures c in Symbols
  {
    match t
    case Right => '>'
    case Left => '<'
    case Inc => '+'
    case Dec => '-'
    case Print => '.'
    case Read => ','
    case LoopL => '['
    case LoopR => ']'
  }

  /** The token of one source character. Exactly the eight symbols get a
      meaningful token, and that token is written as the character itself. */
  function TokenOf(c: char): (t: Token)
    ensures t == Comment <==> c !in Symbols
    ensures t != Comment ==> Symbol(t) == c
  {
    match c
    case '>' => Right
    case '<' => Left
    case '+' => Inc
    case '-' => Dec
    case '.' => Print
    case ',' => Read
    case '[' => LoopL
    case ']' => LoopR
    case _ => Comment
  }

  /** Writing a meaningful token and tokenizing it again gives the token back. */
  lemma SymbolRoundTrip(t: Token)
    requires t != Comment
    ensures TokenOf(Symbol(t)) == t
  {
  }

  /** The token sequence of a source text: one token per character, in order,
      each depending on its own character only. */
  function Tokens(input: string): (r: seq<Token>)
    ensures |r| == |input|
    ensures forall i :: 0 <= i < |input| ==> r[i] == TokenOf(input[i])
  {
    if input == [] then [] else [TokenOf(input[0])] + Tokens(input[1..])
  }

  /** Tokenizing two texts one after the other is tokenizing their
      concatenation: the tokenizer keeps no state between characters. */
  lemma TokensAppend(a: string, b: string)
    ensures Tokens(a + b) == Tokens(a) + Tokens(b)
  {
  }
}
