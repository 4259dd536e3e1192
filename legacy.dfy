/** The first, single-file version of the program (monkey.c at the top of the
    repository): fixed file names and size bound, a seed taken from the clock alone,
    any byte that is printable accepted, and success decided by the compiler's exit
    status only. It is a separate program; nothing of the current version calls it. */
module LegacyMonkey {
  import LibC
  import Sampling
  import Monkey

  const DEFAULT_READ_MAX: nat := 1024
  const DEFAULT_SOURCE_FILE: string := "_test.c"
  const DEFAULT_OUTPUT_FILE: string := "_a.out"

  const MAX_COMMAND_SIZE: nat := 128

  /** `COMPILE_COMMAND_FORMAT` with the output file and the source file substituted. */
  function FormatCommand(outputFile: string, sourceFile: string): string {
    "gcc -o \"" + outputFile + "\" \"" + sourceFile + "\" > /dev/null"
  }

  /** The command as `main` builds it: `snprintf` into a buffer of `MAX_COMMAND_SIZE`
      characters, refused when the length it reports is negative or does not fit. */
  datatype Command = Command(ok: bool, text: string)

  function BuildCommand(outputFile: string, sourceFile: string): (cmd: Command)
    ensures cmd.ok <==> |outputFile| + |sourceFile| + 24 < MAX_COMMAND_SIZE
    ensures cmd.ok ==> cmd.text == FormatCommand(outputFile, sourceFile)
    ensures !cmd.ok ==> |cmd.text| == MAX_COMMAND_SIZE - 1 && cmd.text < FormatCommand(outputFile, sourceFile)
  {
    var formatted := FormatCommand(outputFile, sourceFile);
    var length := |formatted|;
    Command(!(length < 0 || length >= MAX_COMMAND_SIZE), LibC.SnprintfStored(formatted, MAX_COMMAND_SIZE))
  }

  /** The default file names make a command that fits, so `main` as written never takes
      its error exit. */
  lemma DefaultsFit()
    ensures BuildCommand(DEFAULT_OUTPUT_FILE, DEFAULT_SOURCE_FILE).ok
    ensures BuildCommand(DEFAULT_OUTPUT_FILE, DEFAULT_SOURCE_FILE).text
            == "gcc -o \"_a.out\" \"_test.c\" > /dev/null"
  {
  }

  /** `char c = rand()`: only the low byte of the output survives. Bytes from 0x80 up are
      negative `char` values, which `isprint` rejects in the C locale, so the byte is kept
      here as a code from 0 to 255. */
  function CharOfRand(r: nat): (c: char)
    ensures c as int < 256
    ensures (r - c as int) % 256 == 0
  {
    (r % 256) as char
  }

  const PrintableByte: Sampling.Sampler := Sampling.Sampler(CharOfRand, LibC.IsPrint)

  /** `getPrintableCharacters(size)`: a buffer of `size + 1` cells whose first `size`
      cells are printable bytes drawn by rejection sampling from output number `pos` on,
      and whose last cell is the terminator. */
  method GetPrintableCharacters(size: nat, rand: Sampling.Rand, pos: nat) returns (text: array<char>, next: nat)
    requires Sampling.Recurrent(PrintableByte, rand)
    ensures text.Length == size + 1 && text[size] == '\0'
    ensures forall i :: 0 <= i < size ==> LibC.IsPrint(text[i])
    ensures text[..size] == Sampling.Fill(PrintableByte, rand, pos, size).text
    ensures next == Sampling.Fill(PrintableByte, rand, pos, size).next
  {
    text := new char[size + 1];
    next := Sampling.FillCells(PrintableByte, text, size, rand, pos);
    ghost var filled := text[..size];
    text[size] := '\0';
    assert text[..size] == filled;
  }

  /** The size `rand() % read_max`, on unsigned operands. */
  function CandidateSize(r: nat, readMax: nat): (size: nat)
    requires readMax > 0
    ensures size < readMax
    ensures r < readMax ==> size == r
  {
    r % readMax
  }

  /** `tryNextRandomProgram`: draw the size from output number `pos`, write that many
      printable bytes from the next output on to the source file, run the compiler whose
      status is `ret`, and report success exactly when the status is 0. */
  method TryNextRandomProgram(readMax: nat, rand: Sampling.Rand, pos: nat, ret: int)
    returns (success: bool, written: string, next: nat)
    requires readMax > 0
    requires Sampling.Recurrent(PrintableByte, rand)
    ensures success <==> ret == 0
    ensures |written| == CandidateSize(rand(pos), readMax)
    ensures Sampling.Fills(PrintableByte, rand, pos + 1, written, next)
    ensures forall i :: 0 <= i < |written| ==> LibC.IsPrint(written[i])
  {
    var size := CandidateSize(rand(pos), readMax);
    var text;
    text, next := GetPrintableCharacters(size, rand, pos + 1);
    LibC.CStringOfTerminated(text[..], size);
    written := LibC.CString(text[..]);
    success := ret == 0;
  }

  /** The legacy success test only reads the exit status, so it accepts every attempt the
      current version accepts, and more: a zero status without an output file, and it never
      gives up on a status of -1 but tries again. */
  lemma SuccessTestsCompared(o: Monkey.Observation)
    ensures Monkey.Judge(o) == Monkey.Success ==> o.ret == 0
    ensures o.ret == 0 && !o.outputExists ==> Monkey.Judge(o) == Monkey.Failure
    ensures o.ret == -1 ==> Monkey.Judge(o) == Monkey.Fatal
  {
  }

  /** How `main` ended. */
  datatype Outcome =
    | BadCommand                                // the command did not fit: status 1
    | Succeeded(attempt: nat, program: string)  // attempt `attempt` compiled: status 0

  /** The status `main` returns; after the loop it falls off its end, which is 0. */
  function Status(o: Outcome): (status: int)
    ensures status == 0 <==> o.Succeeded?
    ensures status == 0 || status == 1
  {
    if o.BadCommand? then 1 else 0
  }

  /** Attempts `1..n` all had a non-zero status. */
  ghost predicate RejectedBefore(oracle: nat -> int, n: nat) {
    forall k :: 0 <= k < n ==> oracle(k) != 0
  }

  /** The `while (1)` loop of `main`: attempt after attempt until one compiles. `oracle(k)`
      is the status attempt `k + 1` observes; some attempt must compile, since nothing
      else ends this loop. */
  method Attempts(readMax: nat, rand: Sampling.Rand, oracle: nat -> int) returns (attempt: nat, program: string)
    requires readMax > 0
    requires Sampling.Recurrent(PrintableByte, rand)
    requires exists n :: oracle(n) == 0
    ensures attempt >= 1 && oracle(attempt - 1) == 0 && RejectedBefore(oracle, attempt - 1)
    ensures |program| < readMax && forall i :: 0 <= i < |program| ==> LibC.IsPrint(program[i])
  {
    ghost var n: nat :| oracle(n) == 0;
    var pos := 0;
    attempt := 1;
    while true
      invariant 1 <= attempt <= n + 1
      invariant RejectedBefore(oracle, attempt - 1)
      decreases n + 1 - attempt
    {
      var success;
      success, program, pos := TryNextRandomProgram(readMax, rand, pos, oracle(attempt - 1));
      if success {
        return;
      }
      attempt := attempt + 1;
    }
  }

  /** `main`, with the file names and the size bound (constants in the source) as
      parameters: seed the generator with the clock reading `now` converted to `unsigned`,
      refuse a command that does not fit, otherwise run the attempts. */
  method LegacyMain(outputFile: string, sourceFile: string, readMax: nat, prng: LibC.Prng,
                    now: int, rand: Sampling.Rand, oracle: nat -> int)
    returns (outcome: Outcome)
    requires readMax > 0
    requires Sampling.Recurrent(PrintableByte, rand)
    requires exists n :: oracle(n) == 0
    modifies prng
    ensures prng.seed == LibC.Low32(LibC.ToULong(now))
    ensures outcome == BadCommand <==> !BuildCommand(outputFile, sourceFile).ok
    ensures outcome.Succeeded? ==>
      && outcome.attempt >= 1
      && oracle(outcome.attempt - 1) == 0
      && RejectedBefore(oracle, outcome.attempt - 1)
      && |outcome.program| < readMax
      && (forall i :: 0 <= i < |outcome.program| ==> LibC.IsPrint(outcome.program[i]))
  {
    prng.Srand(LibC.Low32(LibC.ToULong(now)));
    var command := BuildCommand(outputFile, sourceFile);
    if !command.ok {
      return BadCommand;
    }
    var attempt, program := Attempts(readMax, rand, oracle);
    return Succeeded(attempt, program);
  }
}
