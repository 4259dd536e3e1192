# monkeys-with-keyboards, modelled in Dafny

The program is a "monkey testing" harness written in C. It writes a file of random
characters, asks the C compiler to build it, and repeats until a build succeeds or
the user interrupts it. This project models the program's core in Dafny and proves
properties of that model. The core is:

- the seed mixer (`src/seed.c`);
- the generate-and-compile loop (`src/monkey.c`);
- the command line front end (`src/main.c`);
- the first, single-file version of the program (`monkey.c`), modelled beside the
  current one so that the two can be compared.

Modules, one per source file plus two shared ones:

| module | file | models |
|---|---|---|
| `LibC` | libc.dfy | The C library behaviours the program relies on: `isprint` in the C locale, truncating `/` and `%`, the conversion to `unsigned long` and from it to `unsigned int`, what `snprintf` stores, what `fputs` writes from a terminated buffer, and the `srand` state. |
| `Seed` | seed.dfy | `mix` as nine round functions on three 64-bit words (bit-vector arithmetic, so subtraction wraps and `<<` drops high bits), and `seed_random`. |
| `Sampling` | sampling.dfy | The rejection sampling both generators use, over an abstract stream of `rand()` outputs: the resampling loop, the buffer-filling loop, and their reference definitions. |
| `Interrupt` | interrupt.dfy | The `KEEP_MONKEYING` flag and `interruptHandler`. |
| `Monkey` | monkey.dfy | `src/monkey.c`: `buildCommand`, `getRandomCharacter`, `getPrintableCharacters`, `tryNextRandomProgram` and `monkey`. |
| `LegacyMonkey` | legacy.dfy | `monkey.c`: the command-length check, the printable-only generator, `tryNextRandomProgram` and the `main` loop. |
| `Cli` | cli.dfy | `src/main.c`: the option loop, `atoi` on the `-n` argument, the two path joins, and the sequence of `main`. |

The environment is passed in as parameters:

- `rand`: the outputs of `rand()`, numbered from 0.
- `oracle(k)`: what compiler run `k + 1` observes. This is the status `system` returns, plus whether the output file exists.
- `interruptAt`: the loop check at which the first signal has already arrived.
- `clock`, `now`, `pid`: the readings `seed_random` mixes.

A loop that the source runs until something external happens needs that event to
exist. So `Recurrent` requires that acceptable characters keep coming in the
stream. The attempt loops require a run that is not a rejection, or an interrupt.

The current program and the legacy program differ in these ways, and the model
states each one:

- The current program keeps printable characters and newline, from 7-bit draws. The legacy program keeps printable characters only, from the low byte of each draw.
- The current program's size is `rand() % (read_max + 1)`. The legacy size is `rand() % read_max`.
- The current program accepts a run that returns 0 and leaves an output file, and gives up when `system` returns -1. The legacy program accepts any run that returns 0, and retries on -1. `LegacyMonkey.SuccessTestsCompared` states this.
- The current program can be cancelled. The legacy loop ends only on a success.

## Model

| member | source | states |
|---|---|---|
| LibC.IsPrint | src/monkey.c:87 | `isprint` in the C locale accepts space to tilde. It never accepts the terminator or a newline, and only 7-bit codes. |
| LibC.CQuot | src/monkey.c:28 | C's `/` truncates toward zero: the quotient is non-negative when the operands have the same sign and non-positive otherwise. |
| LibC.CRem | src/monkey.c:28 | C's `%`: quotient times divisor plus remainder gives back the dividend. The remainder has the sign of the dividend and a magnitude below the divisor's. |
| LibC.ULongValue | src/seed.c:12 | Converting a signed reading to `unsigned long` gives a value in `[0, 2^64)`. A value in range keeps its value; a negative value above `-2^64` gains 2^64. |
| LibC.Low32 | src/seed.c:13 | Passing an `unsigned long` to `srand`'s `unsigned` parameter keeps its low 32 bits. The legacy program's direct conversion of the clock to `unsigned` is the same reduction. |
| LibC.SnprintfStored | src/main.c:89-90 | `snprintf` stores a prefix of the formatted text. When the text fits, it stores the whole text. Otherwise it stores exactly `cap - 1` characters. |
| LibC.CString | src/monkey.c:63-64 | `fputs` writes a prefix of the buffer that holds no NUL. The prefix stops at the first NUL, when the buffer has one. |
| LibC.CStringOfTerminated | src/monkey.c:64 | A buffer with its terminator at `n` and no NUL before it is written as exactly its first `n` characters. |
| LibC.Prng.Srand | src/seed.c:13 | `srand(s)` makes `s` the generator's seed. |
| Seed.MixA | src/seed.c:18 | An a-round changes only `a`. |
| Seed.MixB | src/seed.c:19 | A b-round changes only `b`. |
| Seed.MixC | src/seed.c:20 | A c-round changes only `c`. |
| Seed.RoundsInvertible | src/seed.c:18-26 | Each round's update can be undone, and undoing can be redone. Add back the two subtracted words and xor the same shifted word in again; this gives back the original word, for each of the three round shapes and every shift below 64. |
| Seed.Mix | src/seed.c:16-28 | Nine whole-word round updates, a, b, c in turn with shifts 13, 8, 13, 12, 16, 5, 3, 10, 15, return the final `c` of `Mixed`, the same composition written as one function. Every step is total. |
| Seed.SeedRandom | src/seed.c:11-14 | The seed becomes the low 32 bits of `mix(clock, now, pid)`, in that order, each converted to `unsigned long`. |
| Sampling.FirstAcceptedExists | src/monkey.c:86-90 | If some output in `[i, j]` is acceptable, a first acceptable one exists. |
| Sampling.FirstAccepted | src/monkey.c:86-90 | The first acceptable output at or after `i`. Every output between `i` and it is rejected. |
| Sampling.FirstAcceptedUnique | src/monkey.c:86-90 | An acceptable output preceded only by rejections is the first acceptable one. |
| Sampling.Fill | src/monkey.c:84-91 | Filling `n` cells gives `n` characters. It never reads before `pos`. It consumes no output exactly when `n == 0`. |
| Sampling.FillStep | src/monkey.c:84-91 | A fill of `n + 1` cells is the fill of `n` cells plus the first acceptable draw after it. |
| Sampling.Draw | src/monkey.c:86-90 | The resampling loop returns an acceptable character: the draw of the first acceptable output from `pos` on. `next` is the output just after it, so every rejected output is consumed. |
| Sampling.FillCells | src/monkey.c:84-91 | The `for` loop writes exactly the fill's characters into cells `0..size-1`. It leaves the other cells unchanged and returns the fill's next output number. |
| Sampling.FillAccepts | src/monkey.c:84-91 | Every character of a fill is acceptable. |
| Sampling.AcceptedDrawsSkipsRejected | src/monkey.c:87-89 | Rejected outputs contribute nothing to the accepted characters. |
| Sampling.FillKeepsAcceptedDraws | src/monkey.c:84-91 | Against an independent definition: a fill's text is exactly the acceptable draws, in order, among the outputs it consumed, and the last output it consumed was acceptable. |
| Interrupt.Flag.constructor | src/monkey.c:9 | The flag starts up. |
| Interrupt.InterruptHandler | src/main.c:13-15 | The handler clears the flag, whatever it was. |
| Monkey.BuildCommand | src/monkey.c:51-58 | The command is the formatted `gcc` command, plus the redirect when not verbose. It is accepted iff the full length (names + 36, or + 53 with the redirect) is below `maxLength`. An accepted command fits its buffer. |
| Monkey.GetRandomCharacter | src/monkey.c:78-80 | The character is in `[0, 127]` and agrees with the output modulo 128. |
| Monkey.GetPrintableCharacters | src/monkey.c:82-94 | The buffer has `size + 1` cells and ends with the terminator. Every earlier cell is printable or newline. The first `size` cells are the fill from `pos`, and `next` is that fill's next output. |
| Monkey.Judge | src/monkey.c:67-75 | Fatal iff `system` returned -1. Success iff it returned 0 and the output file exists. Failure otherwise. |
| Monkey.TryNextRandomProgram | src/monkey.c:60-76 | The verdict judges the observation. The file receives exactly the `size` generated characters, all textual. |
| Monkey.CandidateSize | src/monkey.c:28 | For `read_max >= 0` the size lies in `[0, read_max]`. For `read_max < -1` it is below `-(read_max + 1)`. |
| Monkey.NextAttempt | src/monkey.c:28-32 | One loop pass: the size is drawn from output `pos`. The candidate is exactly the fill of that many textual characters from output `pos + 1`, and `next` is that fill's next output. The verdict judges the observation. |
| Monkey.Status | src/monkey.c:16-47 | `monkey` ends with 0 exactly on a success or a cancellation, and with 1 on a refused command or an `exit(1)`. |
| Monkey.Attempts | src/monkey.c:26-44 | The loop ends only as a success, a cancellation or an exit (`Explains`). Attempt `k` is preceded by `k - 1` rejections with the flag up. A success compiled, on attempt 1 + the number of failures, leaving a textual program within the size bound. A cancellation found the flag down, having seen it up at the previous check. An exit met a -1 status. The flag never goes back up. |
| Monkey.Monkey | src/monkey.c:16-47 | A command that does not fit gives `BadCommand`, with nothing else changed. Otherwise the generator is seeded as `seed_random` does and the attempt loop's guarantees hold. The demands on `read_max` and on the environment apply only when the command fits, since only then is the loop reached. |
| LegacyMonkey.BuildCommand | monkey.c:30-35 | The command is refused iff the names + 24 reach 128 characters. An accepted command is the full formatted text. A refused one is its 127-character prefix. |
| LegacyMonkey.DefaultsFit | monkey.c:10-35 | With the default names the command fits and reads `gcc -o "_a.out" "_test.c" > /dev/null`. |
| LegacyMonkey.CharOfRand | monkey.c:70 | `char c = rand()` keeps the low byte of the output. |
| LegacyMonkey.GetPrintableCharacters | monkey.c:67-78 | The buffer has `size + 1` cells and ends with the terminator. Every earlier cell passes `isprint`, so never a newline. The cells are the fill of printable bytes. |
| LegacyMonkey.CandidateSize | monkey.c:54 | `rand() % read_max` lies in `[0, read_max - 1]`. It is the output itself when that is smaller. |
| LegacyMonkey.TryNextRandomProgram | monkey.c:53-65 | Success iff the status is 0. The size is `rand() % read_max`. The file receives that many printable characters, the fill from the next output. |
| LegacyMonkey.SuccessTestsCompared | monkey.c:63-64 | Every run the current version accepts, the legacy version accepts. A zero status without an output file is a legacy success but a current failure. A -1 status is fatal for the current version only. |
| LegacyMonkey.Attempts | monkey.c:37-50 | The loop ends only on a success. The reported attempt is the first one with status 0, after only non-zero ones. Its program is printable and shorter than `read_max`. |
| LegacyMonkey.Status | monkey.c:30-51 | The legacy `main` returns 1 exactly for a refused command; after a success it falls off its end, which gives 0. |
| LegacyMonkey.LegacyMain | monkey.c:19-51 | The seed is the clock converted to `unsigned` (its low 32 bits); seeding happens before the command check. A command that does not fit gives status 1. Otherwise the run ends only in the first success. |
| Cli.DigitPrefix | src/main.c:51 | `atoi` reads the longest run of digits: a prefix made of digits, followed by a non-digit or the end. |
| Cli.Atoi | src/main.c:51 | `atoi` gives 0 for a string without digits, and never a negative value for a string without a minus sign. |
| Cli.AtoiOfDecimal | src/main.c:51 | `atoi` gives back every decimal numeral: unsigned, with `+`, or with `-`. |
| Cli.ApplyOption | src/main.c:35-76 | One option leaves `main` exactly when it is not `-i`, `-n`, `-o`, `-s` or `-v`: with 0 for `-h`, with 1 otherwise. An option that continues changes only its own setting; `-s` and `-v` change only the two mode flags. |
| Cli.FoldOptions | src/main.c:34-77 | The option loop leaves `main` exactly when some option is not `-i`, `-n`, `-o`, `-s` or `-v`, and then with status 0 or 1. |
| Cli.ParseOptions | src/main.c:25-77 | The option loop returns what the fold of the options from the defaults returns. |
| Cli.ModesExclusive | src/main.c:56-63 | From a state where verbose and silent are not both set, no sequence of options sets both. |
| Cli.FoldSnoc | src/main.c:34-77 | Processing one more option applies the `switch` to the state reached so far. |
| Cli.ExpectedSnoc | src/main.c:47-63 | The last-wins description follows the `switch` option by option. |
| Cli.FoldIsLastWins | src/main.c:47-63 | If no option exits, the last `-s`/`-v` decides the mode, and with none the initial mode stays. The last `-i`, `-n` and `-o` each decide only their own setting, and with none the value stays. |
| Cli.NoOptionsKeepDefaults | src/main.c:17-29 | With no options: not verbose, not silent, `read_max` 1024, source `_test.c`, output `_a.out`. |
| Cli.ExitAtFirstStop | src/main.c:36-75 | The first option other than `-i -n -o -s -v` ends the loop, whatever follows. With `-h` the status is 0; with `?` or anything else it is 1. |
| Cli.JoinPathAsWritten | src/main.c:89-94 | The path check as written accepts iff `dir/name` is at most 255 characters. The buffer stores the whole path when it is shorter than 255 characters, and otherwise exactly its first 254. |
| Cli.PathOf255Truncated | src/main.c:89-94 | A 251-character name in `tmp` passes that check, yet the stored path is the 255-character `tmp/` + name without its last character. |
| Cli.JoinPath | src/main.c:89-100 | The corrected join accepts iff `dir/name` fits the 255-character buffer whole, and then yields exactly `dir + "/" + name`. |
| Cli.JoinPathAgrees | src/main.c:89-100 | Whatever the corrected join accepts, the check as written accepts and stores whole. The two differ only at length 255. |
| Cli.RunMain | src/main.c:24-104 | `-h` or a bad option returns its status before anything else happens. A failed directory reset returns 1. A path the check as written refuses returns 1. Otherwise `monkey` runs on the two stored paths, and its status is returned; it refuses its command exactly when the command built from those stored paths does not fit, and otherwise its attempt loop's guarantees hold. |

## Left out

- `system`, `fopen`/`fputs`/`fclose` and `access`: a per-attempt observation stands in for them, and `LibC.CString` models what `fputs` writes.
- `createOrEmptyTmpDirectory`: a shell command. Only its status (`dirStatus`) is modelled.
- Signal registration and asynchronous delivery: one parameter says where the first interrupt lands relative to the loop checks. An interrupt during option parsing is not modelled.
- `rand`/`srand` internals: the outputs are an arbitrary stream. No distribution claim is made: not uniform sizes, not uniform characters.
- `printf`/`fprintf` progress and diagnostics. `silent` only affects printing, so `Monkey.Monkey` takes it and ignores it.
- `malloc` and the buffers that are never freed.
- `Seed.Mixed`: that the whole nine-round transformation is a bijection of the three words is not proved. Only the per-round formulas are proved invertible (`Seed.RoundsInvertible`). The solver cannot close the word-level statement, which involves 64-bit arithmetic through the round functions, within the resource limit.
- `Monkey.BuildCommand`: models the returned verdict and the logical command. It does not model the `strncat` over-write or the `size_t` underflow of `max_command_length - command_length` when the formatted command already exceeds the buffer.
- `Monkey.Monkey`: requires `read_max != -1` and `read_max < INT_MAX` when the command fits, since only then is `rand() % (read_max + 1)` evaluated. Otherwise it divides by zero or overflows, which is undefined behaviour with no defined result to model. `Cli.RunMain` passes this requirement on to the `-n` value, only when `monkey` gets as far as its loop.
- `Seed.Mix`: its contract names the composition of the nine whole-word rounds. The macro's 27 single-word assignments are grouped three to a round; a version with 27 separate assignments on three variables is not proved equal, because the solver exceeds the resource limit on it.
- A Dafny `char` stands for one C byte. The lengths checked in `Monkey.BuildCommand`, `LegacyMonkey.BuildCommand`, `Cli.JoinPathAsWritten` and `Cli.JoinPath` count characters, where `snprintf` counts bytes; file names with multi-byte UTF-8 characters are not modelled.
- `Cli.Atoi`: models `atoi` for values that fit an `int`. Overflow is undefined behaviour in C.
- `read_max` travels as `size_t` in `main` and as `int` in `monkey`. The two conversions cancel, so it is modelled as one integer.
- `LegacyMonkey.LegacyMain`: takes the file names and `read_max` as parameters, where the source has constants. `LegacyMonkey.DefaultsFit` shows the constants pass the check.
- The legacy attempt counter is `unsigned int` and only printed; its wrap-around after 2^32 attempts is not modelled.
- The `char` conversion of the legacy generator: bytes 0x80-0xFF are negative `char` values. With glibc in the C locale `isprint` rejects them, which is what `LibC.IsPrint` does with codes 128-255.
- Concurrent workers, per-worker file prefixes and cancellation of the other workers on a fatal error appear in descriptions of the project but not in these source files. The code exits the process on a -1 status and runs one loop. The model follows the code.
- The generated sequence is sometimes described as not null-terminated. The code writes a terminator at index `size` and hands the buffer to `fputs`, and the model follows the code.
- The seed is sometimes described as 64 bits wide. The code passes it to `srand`, which keeps 32 bits (`LibC.Low32`).
- `src/monkey.h` holds declarations and the `extern` flag only; it is not part of this model.

## Findings

| source | as written | input that shows it | evidently intended | confidence | as-written member | corrected member |
|---|---|---|---|---|---|---|
| src/main.c:89-100 | the `snprintf` into a 255-character buffer is accepted unless its length is `> 255` | a 251-character `-o` or `-i` name: `tmp/` + name is 255 characters, the buffer keeps 254, and the check passes | refuse any path that does not fit the 255-character buffer with its terminator (`length >= 255`) | medium; not executed | Cli.PathOf255Truncated | Cli.JoinPath |

`Cli.RunMain` models `main` as written, with `Cli.JoinPathAsWritten`, so a path of exactly
255 characters reaches `monkey` truncated. `Cli.JoinPath` is the corrected join, and
`Cli.JoinPathAgrees` proves it agrees with the join as written on every other path.
