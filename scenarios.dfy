/** Program creation, and whole runs of small programs driven the way the
    command-line front end drives the engine: create the program, then step
    until it is finished. */
module Scenarios {
  import opened Tokenizer
  import opened Brackets
  import opened Gobfk

  /** Creating two programs from the same text gives the same instructions,
      the same zeroed tape and the same cursors. */
  method CreateTwice(input: string) returns (same: bool)
    ensures same
  {
    var a := new BrainfuckProgram(input);
    var b := new BrainfuckProgram(input);
    same := a.Instructions == b.Instructions && a.Tape[..] == b.Tape[..] &&
            a.DP == b.DP && a.PC == b.PC && a.Finished == b.Finished;
  }

  /** "++." writes one byte, 2. */
  method IncIncPrint() returns (output: seq<byte>, finished: bool)
    ensures output == [2] && finished
  {
    var bf := new BrainfuckProgram("++.");
    assert bf.Instructions == [Inc, Inc, Print];
    bf.Evaluate('\0');
    bf.Evaluate('\0');
    bf.Evaluate('\0');
    output, finished := bf.Output, bf.Finished;
  }

  /** ",." echoes its input character: 'A' comes back as 65. */
  method ReadPrint() returns (output: seq<byte>, finished: bool)
    ensures output == [65] && finished
  {
    var bf := new BrainfuckProgram(",.");
    assert bf.Instructions == [Read, Print];
    bf.Evaluate('A');
    bf.Evaluate('\0');
    output, finished := bf.Output, bf.Finished;
  }

  /** "-." on a fresh cell wraps round to 255; a character above 255 is read
      as its low eight bits. */
  method Wrapping() returns (output: seq<byte>, finished: bool)
    ensures output == [255, 0x41] && finished
  {
    var bf := new BrainfuckProgram("-.,.");
    assert bf.Instructions == [Dec, Print, Read, Print];
    bf.Evaluate('\0');
    bf.Evaluate('\0');
    bf.Evaluate('Ł');
    bf.Evaluate('\0');
    output, finished := bf.Output, bf.Finished;
  }

  /** "+[-]" runs its loop body once: `+`, `[` entered, `-`, `]` back onto the
      `[`, which now sees 0 and jumps past the `]`. The program ends finished,
      with the cell back at 0 and nothing written. */
  method ClearLoop() returns (output: seq<byte>, cell: byte, finished: bool)
    ensures output == [] && cell == 0 && finished
  {
    var bf := new BrainfuckProgram("+[-]");
    var s := bf.Instructions;
    assert s == [Inc, LoopL, Dec, LoopR];
    assert Net(s, 2, 3) == 0 && Net(s, 3, 4) == -1 && Net(s, 2, 4) == -1;
    assert BackwardMatch(s, 3, 1);
    assert ForwardMatch(s, 1, 3);
    bf.Evaluate('\0');
    bf.Evaluate('\0');
    bf.Evaluate('\0');
    assert !bf.Finished && bf.PC == 3 && bf.Tape[0] == 0;
    bf.Evaluate('\0');
    BackwardMatchUnique(s, 3, 1, bf.PC);
    assert !bf.Finished && bf.PC == 1 && bf.Tape[0] == 0;
    bf.Evaluate('\0');
    ForwardMatchUnique(s, 1, 3, bf.PC - 1);
    output, cell, finished := bf.Output, bf.Tape[0], bf.Finished;
  }
}
