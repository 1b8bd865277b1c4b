/** The execution engine: a program record holding the instructions, a fixed
    tape of byte cells and the two cursors, advanced one instruction per call
    to Evaluate. Input arrives as a parameter of each step and output is
    collected in a sequence, so the engine itself does no I/O. */
module Gobfk {
  import opened Tokenizer
  import opened Brackets

  /** Number of cells on the tape. */
  const TapeSize: nat := 64000

  /** An unsigned 8-bit tape cell. */
  newtype byte = x: int | 0 <= x < 256

  /** A cell incremented in place: 255 wraps round to 0. */
  function Increment(b: byte): (r: byte)
    ensures r as int == (b as int + 1) % 256
  {
    if b == 255 then 0 else b + 1
  }

  /** A cell decremented in place: 0 wraps round to 255. */
  function Decrement(b: byte): (r: byte)
    ensures r as int == (b as int - 1) % 256
  {
    if b == 0 then 255 else b - 1
  }

  /** Incrementing and decrementing a cell undo each other. */
  lemma IncrementDecrement(b: byte)
    ensures Decrement(Increment(b)) == b && Increment(Decrement(b)) == b
  {
  }

  /** The cell value stored for an input character: its code point truncated
      to the low eight bits, i.e. the one byte congruent to it modulo 256,
      which is the code point itself for characters below 256. */
  function LowByte(c: char): (b: byte)
    ensures (c as int - b as int) % 256 == 0
    ensures c as int < 256 ==> b as int == c as int
  {
    (c as int % 256) as byte
  }

  /** Whether executing t reads or writes the cell under the data pointer. */
  predicate UsesCell(t: Token)
  {
    t == Inc || t == Dec || t == Print || t == Read || t == LoopL
  }

  class BrainfuckProgram {
    var Instructions: seq<Token>
    const Tape: array<byte>
    var DP: int
    var PC: int
    var Finished: bool
    /** Every byte PRINT has written so far, oldest first. */
    var Output: seq<byte>

    /** What holds between steps: the tape keeps its size, the program counter
        stays within the instructions or just past them, and the program is
        only marked finished once the counter has run off the end. */
    ghost predicate Valid()
      reads this
    {
      Tape.Length == TapeSize &&
      0 <= PC <= |Instructions| &&
      (Finished ==> PC >= |Instructions|)
    }

    /** Once a program is finished it cannot be stepped again: Evaluate needs
        the program counter inside the instructions, and a finished program's
        counter has run off the end. So `Finished` is never cleared. */
    lemma FinishedCannotStep()
      requires Valid() && Finished
      ensures !(PC < |Instructions|)
    {
    }

    /** A program for the source text input: its tokens, a zeroed tape,
        both cursors at 0, not finished, nothing written. */
    constructor (input: string)
      ensures Valid() && fresh(Tape)
      ensures Instructions == Tokens(input)
      ensures forall k :: 0 <= k < Tape.Length ==> Tape[k] == 0
      ensures DP == 0 && PC == 0 && !Finished && Output == []
    {
      Tape := new byte[TapeSize](_ => 0);
      DP, PC, Finished := 0, 0, false;
      Output := [];
      new;
      Tokenize(input);
    }

    /** Replaces the instructions with the tokens of input, one per character. */
    method Tokenize(input: string)
      modifies this`Instructions
      ensures Instructions == Tokens(input)
    {
      var tokenized: seq<Token> := [];
      for i := 0 to |input|
        invariant |tokenized| == i
        invariant forall k :: 0 <= k < i ==> tokenized[k] == TokenOf(input[k])
      {
        tokenized := tokenized + [TokenOf(input[i])];
      }
      Instructions := tokenized;
    }

    /** Executes the instruction under the program counter, then moves the
        counter on by one and marks the program finished once it has run off
        the end. `input` is the character a READ receives. */
    method Evaluate(input: char)
      requires Valid() && PC < |Instructions|
      requires UsesCell(Instructions[PC]) ==> 0 <= DP < Tape.Length
      requires Instructions[PC] == LoopL && 0 <= DP < Tape.Length && Tape[DP] == 0 ==>
                 exists j :: ForwardMatch(Instructions, PC, j)
      requires Instructions[PC] == LoopR ==> exists k :: BackwardMatch(Instructions, PC, k)
      modifies this`DP, this`PC, this`Finished, this`Output, Tape
      ensures Valid()
      ensures Instructions == old(Instructions)
      ensures Finished <==> PC >= |Instructions|
      // the data pointer moves on RIGHT and LEFT only
      ensures DP == old(DP) + (if old(Instructions[PC]) == Right then 1
                               else if old(Instructions[PC]) == Left then -1 else 0)
      // INC, DEC and READ write the current cell and no other
      ensures old(Instructions[PC]) == Inc ==> Tape[DP] == Increment(old(Tape[DP]))
      ensures old(Instructions[PC]) == Dec ==> Tape[DP] == Decrement(old(Tape[DP]))
      ensures old(Instructions[PC]) == Read ==> Tape[DP] == LowByte(input)
      ensures old(Instructions[PC]) in {Inc, Dec, Read} ==>
                forall k :: 0 <= k < Tape.Length && k != DP ==> Tape[k] == old(Tape[k])
      ensures old(Instructions[PC]) !in {Inc, Dec, Read} ==> Tape[..] == old(Tape[..])
      // PRINT writes the current cell and nothing else does
      ensures Output == old(Output) + (if old(Instructions[PC]) == Print then [Tape[DP]] else [])
      // every instruction but the brackets just moves on to the next one
      ensures old(Instructions[PC]) !in {LoopL, LoopR} ==> PC == old(PC) + 1
      // `[` on a non-zero cell enters the loop, on a zero cell it moves past its `]`
      ensures old(Instructions[PC]) == LoopL && Tape[DP] != 0 ==> PC == old(PC) + 1
      ensures old(Instructions[PC]) == LoopL && Tape[DP] == 0 ==>
                ForwardMatch(Instructions, old(PC), PC - 1) && Instructions[PC - 1] == LoopR
      // `]` goes back onto its `[`, so the loop condition is tested again
      ensures old(Instructions[PC]) == LoopR ==>
                BackwardMatch(Instructions, old(PC), PC) && PC < old(PC) && Instructions[PC] == LoopL
    {
      match Instructions[PC] {
        case Right => DP := DP + 1;
        case Left => DP := DP - 1;
        case Inc => Tape[DP] := Increment(Tape[DP]);
        case Dec => Tape[DP] := Decrement(Tape[DP]);
        case Print => Output := Output + [Tape[DP]];
        case Read => Tape[DP] := LowByte(input);
        case LoopL =>
          OpenLoop();
          if Tape[DP] == 0 {
            ForwardMatchIsClose(Instructions, old(PC), PC);
          }
        case LoopR =>
          CloseLoop();
          BackwardMatchIsOpen(Instructions, old(PC), PC + 1);
        case Comment =>
      }
      PC := PC + 1;
      if PC >= |Instructions| {
        Finished := true;
      }
    }

    /** On a zero cell, moves the program counter forward from a `[` onto the
        instruction where the bracket count first closes the loop, that is its
        matching `]`; on a non-zero cell, leaves it where it is. */
    method OpenLoop()
      requires 0 <= PC < |Instructions| && 0 <= DP < Tape.Length
      requires Tape[DP] == 0 ==> exists j :: ForwardMatch(Instructions, PC, j)
      modifies this`PC
      ensures Tape[DP] != 0 ==> PC == old(PC)
      ensures Tape[DP] == 0 ==> ForwardMatch(Instructions, old(PC), PC)
    {
      var balance := 1;
      if Tape[DP] == 0 {
        ghost var i := PC;
        ghost var j :| ForwardMatch(Instructions, i, j);
        while balance != 0
          invariant i <= PC <= j
          invariant balance == 1 + Net(Instructions, i + 1, PC + 1)
          decreases j - PC
        {
          PC := PC + 1;
          if Instructions[PC] == LoopL {
            balance := balance + 1;
          } else if Instructions[PC] == LoopR {
            balance := balance - 1;
          }
        }
      }
    }

    /** Moves the program counter backward from a `]` until the bracket count
        over the instructions passed returns to 0, which happens on its
        matching `[`, and stops one instruction before it. */
    method CloseLoop()
      requires 0 <= PC < |Instructions|
      requires exists k :: BackwardMatch(Instructions, PC, k)
      modifies this`PC
      ensures BackwardMatch(Instructions, old(PC), PC + 1)
    {
      ghost var i := PC;
      ghost var k :| BackwardMatch(Instructions, i, k);
      var balance := 0;
      while true
        invariant k <= PC <= i
        invariant balance == Net(Instructions, PC + 1, i + 1)
        decreases PC
      {
        NetCons(Instructions, PC, i + 1);
        if Instructions[PC] == LoopL {
          balance := balance + 1;
        } else if Instructions[PC] == LoopR {
          balance := balance - 1;
        }
        PC := PC - 1;
        if balance == 0 {
          break;
        }
      }
    }
  }
}
