# Chunked file producer

A model of the file-producing core of `producer.cpp`, the data producer of an
I/O pattern benchmark suite. The program resolves four settings (output name
pattern, window size, file size, file count) from defaults and command-line
flags. It rejects a run whose file size is smaller than its window. Otherwise
it fills one window-sized buffer with random bytes, once, and writes each
output file in turn: the whole buffer `file_size / window_size` times, then the
first `file_size % window_size` bytes of it when that remainder is not zero.

The model has three modules, one per concern of that procedure, and a
fourth, `Wrappers` (`wrappers.dfy`), that holds the `Option` type used for
absent flags and for names the model cannot format:

- `Chunking` (`chunking.dfy`): the write of one file. `WriteFile` is the loop of
  full-window writes plus the extra write. Each file is an in-memory byte
  sequence that every write appends to. It is proved against `FileImage`
  (buffer repeated, then a prefix of it) and `WritePlan` (the lengths of the
  write calls). Lemmas then show the file is exactly `file_size` bytes long,
  byte `k` is buffer byte `k % window`, and the writes add up to the file size.
- `Naming` (`naming.dfy`): the file name of index `i`, the pattern with `i`
  printed in decimal in place of its `%d`. The printed numeral has no
  leading zero and reads back to `i`.
- `Producer` (`producer.cpp` as a whole, `producer.dfy`): flag resolution,
  the size check, and `Produce`, the loop over file indices. `Produce` allocates
  the buffer once as an array and only reads it. It is proved against
  `Expected`, the outcome of a run. Each produced file records its bytes and
  the lengths of the write calls that wrote it, and lemmas state what a run
  produces.

The size check at line 75 compares only file size with window size, so it lets
a window of zero or less through. A window of zero allocates an empty buffer
at line 80, which is valid, and a negative window makes that allocation throw.
The division at line 94, done once per file, is what is undefined for a zero
window. `Produce` therefore requires, of a configuration that passes the check,
a positive window (`RunnableWith`). `SizeCheckAdmitsNonPositiveWindow`
exhibits configurations the check admits that fall outside this requirement. The random source is a parameter: `random` is the bytes
it yields, and on the accepted path it must supply exactly one window of them.

## Model

| member | source | states |
|---|---|---|
| `Producer.ResolveConfig` | producer.cpp:50-64 | each setting is its flag's value when the flag is given and its default (`file_%d.dat`, 1024, 1073741824, 1) otherwise |
| `Producer.PassesSizeCheck` | producer.cpp:75-78 | the only check before any allocation or write; with a positive window, a file that passes it gets at least one full-window write |
| `Producer.Expected` | producer.cpp:75-110 | the outcome of a run: rejected exactly when `file_size < window_size`, otherwise `file_count` files (none for a count of zero or less), file `k` named from the pattern and holding `FileImage` written by `WritePlan` |
| `Producer.Produce` | producer.cpp:75-110 | the run is rejected when the file is smaller than the window; otherwise the buffer is filled once and the files are produced in index order as `Expected` describes |
| `Producer.ExpectedRun` | producer.cpp:75-110 | rejected exactly when `file_size < window_size`; otherwise `file_count` files (none for a count of zero or less), file `k` has index `k`, is `file_size` bytes long, holds buffer byte `j % window_size` at offset `j`, and its write calls add up to `file_size` |
| `Producer.FilesIdentical` | producer.cpp:80-110 | every file of one run holds the same bytes, written by the same write calls, since the buffer is filled once and never changed |
| `Producer.NamesDistinct` | producer.cpp:85-88 | with a pattern containing `%d`, two different files of a run never get the same name |
| `Producer.DefaultRun` | producer.cpp:12-15 | with the default settings, the run produces one file `file_0.dat` of 1073741824 bytes, written by 1048576 write calls of 1024 bytes and no extra write |
| `Producer.RemainderRun` | producer.cpp:94-102 | size 1000 with window 300 produces a file of 1000 bytes written by calls of 300, 300, 300 and 100 bytes |
| `Producer.BoundaryRun` | producer.cpp:94-102 | size 100 with window 100 produces a file written by exactly one full write and no extra write, so it is the buffer itself |
| `Producer.RejectedRun` | producer.cpp:75-78 | size 50 with window 100 is rejected and no file is produced |
| `Producer.ThreeFileNames` | producer.cpp:85-88 | pattern `file_%d.dat` with count 3 produces `file_0.dat`, `file_1.dat`, `file_2.dat`, in that order |
| `Producer.SizeCheckAdmitsNonPositiveWindow` | producer.cpp:75 | the size check passes a window of 0 and a window of -1, so it does not by itself make the buffer size and the division valid |
| `Chunking.WriteFile` | producer.cpp:94-102 | the file holds the buffer repeated `file_size / window` times and then its first `file_size % window` bytes; the write calls are those of `WritePlan`; the buffer is not modified |
| `Chunking.FileImage` | producer.cpp:94-102 | the bytes of one file: the buffer repeated `file_size / window` times, then its first `file_size % window` bytes; exactly `file_size` bytes long, and starting with the whole buffer when at least one window long |
| `Chunking.WritePlan` | producer.cpp:94-102 | the lengths of one file's write calls: each is at least one byte and at most a window, so every write reads within the buffer |
| `Chunking.Repeat` | producer.cpp:96-98 | `n` full-window writes append `n * window` bytes |
| `Chunking.RepeatAt` | producer.cpp:96-98 | after `n` full-window writes, byte `k` is the buffer byte at offset `k % window` |
| `Chunking.FileImageCyclic` | producer.cpp:94-102 | byte `k` of a produced file is buffer byte `k % window` for every `k < file_size` |
| `Chunking.WritePlanShape` | producer.cpp:94-102 | exactly `file_size / window` writes of a full window, then one extra write if and only if the remainder is not zero, that write exactly the remainder long and shorter than the buffer |
| `Chunking.WritePlanTotal` | producer.cpp:94-102 | the lengths of the writes issued for one file add up to `file_size` |
| `Naming.Decimal` | producer.cpp:88 | the numeral `%d` prints for an index is non-empty, made of decimal digits, and starts with `0` only for index 0 |
| `Naming.DecimalRoundTrip` | producer.cpp:88 | reading the printed numeral back gives the index |
| `Naming.DecimalInjective` | producer.cpp:88 | two indices with the same numeral are equal |
| `Naming.FormatName` | producer.cpp:88 | the name of a file; a produced name contains no `%`, as the placeholder has been replaced |
| `Naming.FormatNameDefined` | producer.cpp:88 | a name is produced exactly for a pattern with no `%` or with a single `%d` and no other `%` |
| `Naming.FormatNameSubstitutes` | producer.cpp:88 | a pattern `before%dafter` with no other `%` names file `i` `before`, then `i` in decimal, then `after` |
| `Naming.FormatNameWithoutPlaceholder` | producer.cpp:88 | a pattern without `%` names every file with the pattern itself |
| `Naming.FormatNameDistinct` | producer.cpp:88 | a formattable pattern containing `%` gives different indices different names |
| `Naming.DefaultPatternNames` | producer.cpp:12 | the default pattern names files 0, 1 and 2 `file_0.dat`, `file_1.dat`, `file_2.dat` |

## Left out

- Producer.Produce: requires a positive window for every configuration that passes the size check, although only the division at line 94 needs it and that runs only when there is a file to write. A run with window 0, size 0 or more and count 0 or less, which the program finishes normally with no files, is excluded. A negative window, for which the allocation at line 80 throws, is excluded as well.
- Argument parsing through `args.hxx` (lines 17-48), including the help flag, which prints usage and exits with failure: a foreign library. The model starts from the optional flag values (`Flags`).
- Reading `/dev/urandom` (lines 81-83): operating-system I/O. The bytes it yields are the parameter `random`. A short read, which would leave the tail of the buffer unspecified, is not modelled.
- `sprintf` beyond one `%d` (line 88): a pattern with any other `%` (a second `%d`, `%%`, `%s`, ...) gives the name `None`. Overflow of the `PATH_MAX` name buffer is not modelled.
- Opening, writing and closing the output files (lines 92, 97, 101, 104): their failures go unchecked in the program. Each file is its in-memory byte sequence, and a later file with the same name is a separate entry rather than an overwrite.
- Timing with `std::chrono` and all console output (lines 10, 66-73, 89, 91, 105-109, 114-119): wall-clock and output with nothing to verify.
- 32-bit `int` arithmetic: the settings are unbounded integers. The defaults fit in an `int` and the loop counters never exceed the settings, so nothing wraps.
- The help text calls window and file size "Kilobytes", but the arithmetic treats them as bytes. The model follows the arithmetic.
