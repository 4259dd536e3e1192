/** The generate-and-compile loop of src/monkey.c: build the compiler command,
    seed the generator, then until a candidate compiles or the flag drops, draw a
    size, write that many random text characters to the source file, run the
    compiler and judge the result. The compiler runs are an abstract oracle: one
    observation (exit status, whether the output file exists) per attempt. */
module Monkey {
  import LibC
  import Seed
  import Sampling
  import Interrupt
  import opened Wrappers

  const MAX_COMMAND_LENGTH: nat := 256

  /** `COMPILE_COMMAND_FORMAT` with the output file and the source file substituted. */
  function FormatCommand(outputFile: string, sourceFile: string): string {
    "/usr/bin/gcc -Wfatal-errors -o \"" + outputFile + "\" \"" + sourceFile + "\""
  }

  /** `COMPILE_COMMAND_ERROR_REDIRECT`, appended unless verbose. */
  const ERROR_REDIRECT: string := " > /dev/null 2>&1"

  /** The command `buildCommand` means to build, and its verdict on it. */
  datatype Command = Command(ok: bool, text: string)

  /** `buildCommand`: the length it checks is the full formatted length (what `snprintf`
      returns, not what fits), plus the redirect's length when not verbose; it accepts
      when that length is positive and below `maxLength`. */
  function BuildCommand(maxLength: nat, verbose: bool, sourceFile: string, outputFile: string): (cmd: Command)
    ensures cmd.text == FormatCommand(outputFile, sourceFile) + (if verbose then "" else ERROR_REDIRECT)
    ensures cmd.ok <==> |outputFile| + |sourceFile| + (if verbose then 36 else 53) < maxLength
    ensures cmd.ok ==> |cmd.text| < maxLength
  {
    var formatted := FormatCommand(outputFile, sourceFile);
    var length := |formatted| + (if verbose then 0 else |ERROR_REDIRECT|);
    Command(length > 0 && length < maxLength, formatted + (if verbose then "" else ERROR_REDIRECT))
  }

  /** `getRandomCharacter`: the low seven bits of a `rand()` output (`& 0x7F` on a
      non-negative value), so always an ASCII code. */
  function GetRandomCharacter(r: nat): (c: char)
    ensures c as int <= 127
    ensures (r - c as int) % 128 == 0
  {
    (r % 128) as char
  }

  /** The characters the generator keeps: printable, or newline. */
  predicate IsTextual(c: char) {
    LibC.IsPrint(c) || c == '\n'
  }

  const Textual: Sampling.Sampler := Sampling.Sampler(GetRandomCharacter, IsTextual)

  /** `getPrintableCharacters(size)`: a buffer of `size + 1` cells whose first `size`
      cells are drawn by rejection sampling starting at output number `pos`, and whose
      last cell is the terminator. `next` is the number of the first output not used. */
  method GetPrintableCharacters(size: nat, rand: Sampling.Rand, pos: nat) returns (text: array<char>, next: nat)
    requires Sampling.Recurrent(Textual, rand)
    ensures text.Length == size + 1 && text[size] == '\0'
    ensures forall i :: 0 <= i < size ==> IsTextual(text[i])
    ensures text[..size] == Sampling.Fill(Textual, rand, pos, size).text
    ensures next == Sampling.Fill(Textual, rand, pos, size).next
  {
    text := new char[size + 1];
    next := Sampling.FillCells(Textual, text, size, rand, pos);
    ghost var filled := text[..size];
    text[size] := '\0';
    assert text[..size] == filled;
  }

  /** One compiler run as the program sees it: the exit status `system` returned
      (`-1` when no process could be started) and whether the output file exists after it. */
  datatype Observation = Observation(ret: int, outputExists: bool)

  /** The verdict on one attempt. `Fatal` is the `exit(1)` that ends the process. */
  datatype Verdict = Success | Failure | Fatal

  /** The verdict rule of `tryNextRandomProgram`. */
  function Judge(o: Observation): (v: Verdict)
    ensures v == Fatal <==> o.ret == -1
    ensures v == Success <==> o.ret == 0 && o.outputExists
  {
    if o.ret == -1 then Fatal
    else if o.ret == 0 && o.outputExists then Success
    else Failure
  }

  /** `tryNextRandomProgram`: generate `size` characters, write them to the source file
      (`fputs` writes the buffer up to its terminator), run the compiler and judge. */
  method TryNextRandomProgram(size: nat, rand: Sampling.Rand, pos: nat, observed: Observation)
    returns (verdict: Verdict, written: string, next: nat)
    requires Sampling.Recurrent(Textual, rand)
    ensures verdict == Judge(observed)
    ensures written == Sampling.Fill(Textual, rand, pos, size).text
    ensures |written| == size && forall i :: 0 <= i < size ==> IsTextual(written[i])
    ensures next == Sampling.Fill(Textual, rand, pos, size).next
  {
    var text;
    text, next := GetPrintableCharacters(size, rand, pos);
    LibC.CStringOfTerminated(text[..], size);
    written := LibC.CString(text[..]);
    verdict := Judge(observed);
  }

  /** The candidate size `rand() % (read_max + 1)`, with C's truncating `%`. */
  function CandidateSize(r: nat, readMax: int): (size: nat)
    requires readMax != -1
    ensures readMax >= 0 ==> size <= readMax
    ensures readMax < -1 ==> size < -(readMax + 1)
  {
    LibC.CRem(r, readMax + 1)
  }

  /** One pass through the body of the loop of `monkey`: the candidate size from output
      number `pos`, then a candidate of that size from the next output on, and its verdict. */
  method NextAttempt(readMax: int, rand: Sampling.Rand, pos: nat, observed: Observation)
    returns (verdict: Verdict, written: string, next: nat)
    requires readMax != -1
    requires Sampling.Recurrent(Textual, rand)
    ensures verdict == Judge(observed)
    ensures |written| == CandidateSize(rand(pos), readMax)
    ensures Sampling.Fills(Textual, rand, pos + 1, written, next)
    ensures forall i :: 0 <= i < |written| ==> IsTextual(written[i])
    ensures pos < next
  {
    var size := CandidateSize(rand(pos), readMax);
    verdict, written, next := TryNextRandomProgram(size, rand, pos + 1, observed);
  }

  /** How `monkey` ended. The attempt numbers count from 1. */
  datatype Outcome =
    | BadCommand                                // the command did not fit; no attempt made
    | Succeeded(attempt: nat, program: string)  // attempt `attempt` compiled; `program` is in the source file
    | Cancelled(attempt: nat)                   // the flag was down when attempt `attempt` was due
    | Exited(attempt: nat)                      // attempt `attempt` could not start the compiler: exit(1)

  /** The value `monkey` returns, or the process status after `exit(1)`. */
  function Status(o: Outcome): (status: int)
    ensures status == 0 <==> o.Succeeded? || o.Cancelled?
    ensures status == 0 || status == 1
  {
    match o
    case BadCommand => 1
    case Succeeded(_, _) => 0
    case Cancelled(_) => 0
    case Exited(_) => 1
  }

  /** The flag as seen at check number `i` (from 0) of the loop condition: `keep0`
      initially, and down from the check at which the first interrupt has arrived. Later
      interrupts write the same value again, so only the first one matters. */
  predicate FlagUp(keep0: bool, interruptAt: Option<nat>, i: nat) {
    keep0 && (interruptAt.None? || i < interruptAt.value)
  }

  /** Attempts `1..n` were all rejected. */
  ghost predicate RejectedBefore(oracle: nat -> Observation, n: nat) {
    forall k :: 0 <= k < n ==> Judge(oracle(k)) == Failure
  }

  /** What an outcome other than `BadCommand` says about the run that produced it, given
      the flag's initial value `keep0`: every attempt before the last was rejected and saw
      the flag up; a success saw the flag up, compiled on its attempt and left a program of
      textual characters no longer than `readMax` (for a negative `readMax` below -1, shorter
      than `-(readMax + 1)`, what C's `%` allows); a cancellation found the flag down at its
      check, having found it up at the check before; an exit saw the compiler fail to start. */
  ghost predicate Explains(outcome: Outcome, keep0: bool, interruptAt: Option<nat>,
                           oracle: nat -> Observation, readMax: int)
  {
    match outcome
    case BadCommand => false
    case Succeeded(attempt, program) =>
      && attempt >= 1
      && FlagUp(keep0, interruptAt, attempt - 1)
      && RejectedBefore(oracle, attempt - 1)
      && Judge(oracle(attempt - 1)) == Success
      && (forall i :: 0 <= i < |program| ==> IsTextual(program[i]))
      && (readMax >= 0 ==> |program| <= readMax)
      && (readMax < -1 ==> |program| < -(readMax + 1))
    case Cancelled(attempt) =>
      && attempt >= 1
      && !FlagUp(keep0, interruptAt, attempt - 1)
      && (attempt > 1 ==> FlagUp(keep0, interruptAt, attempt - 2))
      && RejectedBefore(oracle, attempt - 1)
    case Exited(attempt) =>
      && attempt >= 1
      && FlagUp(keep0, interruptAt, attempt - 1)
      && RejectedBefore(oracle, attempt - 1)
      && Judge(oracle(attempt - 1)) == Fatal
  }

  /** The `while (KEEP_MONKEYING)` loop of `monkey`, from attempt 1 and `rand()` output
      number 0. The environment is given as `rand` (the `rand()` outputs after seeding),
      `oracle(k)` (what attempt `k + 1` observes) and `interruptAt` (the first signal, if
      any, arrives just before check number `interruptAt` of the loop condition). Something
      must end the loop: an interrupt, or an attempt whose verdict is not a rejection. */
  method Attempts(readMax: int, flag: Interrupt.Flag, rand: Sampling.Rand,
                  oracle: nat -> Observation, interruptAt: Option<nat>)
    returns (outcome: Outcome)
    requires LibC.INT_MIN <= readMax < LibC.INT_MAX && readMax != -1
    requires Sampling.Recurrent(Textual, rand)
    requires interruptAt.Some? || exists n :: Judge(oracle(n)) != Failure
    modifies flag
    ensures Explains(outcome, old(flag.keepMonkeying), interruptAt, oracle, readMax)
    ensures flag.keepMonkeying ==> old(flag.keepMonkeying)
  {
    ghost var keep0 := flag.keepMonkeying;
    ghost var n: nat :| interruptAt == Some(n) || Judge(oracle(n)) != Failure;
    var pos := 0;
    var attempt := 1;
    if interruptAt == Some(0) {
      Interrupt.InterruptHandler(flag);
    }
    while flag.keepMonkeying
      invariant attempt >= 1 && attempt - 1 <= n
      invariant flag.keepMonkeying == FlagUp(keep0, interruptAt, attempt - 1)
      invariant attempt > 1 ==> FlagUp(keep0, interruptAt, attempt - 2)
      invariant RejectedBefore(oracle, attempt - 1)
      invariant attempt - 1 == n ==> !flag.keepMonkeying || Judge(oracle(n)) != Failure
      decreases n - (attempt - 1)
    {
      var verdict, written;
      verdict, written, pos := NextAttempt(readMax, rand, pos, oracle(attempt - 1));
      if verdict == Fatal {
        return Exited(attempt);
      }
      if verdict == Success {
        return Succeeded(attempt, written);
      }
      attempt := attempt + 1;
      if interruptAt == Some(attempt - 1) {
        Interrupt.InterruptHandler(flag);
      }
    }
    return Cancelled(attempt);
  }

  /** `monkey`: refuse a command that does not fit, otherwise seed the generator and run
      the attempts. */
  method Monkey(sourceFile: string, outputFile: string, readMax: int, verbose: bool, silent: bool,
                flag: Interrupt.Flag, prng: LibC.Prng, clock: int, now: int, pid: int,
                rand: Sampling.Rand, oracle: nat -> Observation, interruptAt: Option<nat>)
    returns (outcome: Outcome)
    requires LibC.INT_MIN <= readMax <= LibC.INT_MAX
    requires BuildCommand(MAX_COMMAND_LENGTH, verbose, sourceFile, outputFile).ok ==>
      && readMax != -1 && readMax < LibC.INT_MAX
      && Sampling.Recurrent(Textual, rand)
      && (interruptAt.Some? || exists n :: Judge(oracle(n)) != Failure)
    modifies flag, prng
    ensures outcome == BadCommand <==> !BuildCommand(MAX_COMMAND_LENGTH, verbose, sourceFile, outputFile).ok
    ensures outcome == BadCommand ==> unchanged(flag, prng)
    ensures outcome != BadCommand ==>
      && prng.seed == LibC.Low32(Seed.Mixed(Seed.Words(LibC.ToULong(clock), LibC.ToULong(now), LibC.ToULong(pid))).c)
      && Explains(outcome, old(flag.keepMonkeying), interruptAt, oracle, readMax)
    ensures flag.keepMonkeying ==> old(flag.keepMonkeying)
  {
    var command := BuildCommand(MAX_COMMAND_LENGTH, verbose, sourceFile, outputFile);
    if !command.ok {
      return BadCommand;
    }
    Seed.SeedRandom(prng, clock, now, pid);
    outcome := Attempts(readMax, flag, rand, oracle, interruptAt);
  }
}
