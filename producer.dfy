/** The producer's main procedure (producer.cpp, lines 12-15 and 50-110):
    resolve the four settings, reject a file smaller than the window, fill
    one window-sized buffer once, then write each output file in turn by
    chunked writes of that buffer. */
module Producer {

  import opened Wrappers
  import opened Chunking
  import opened Naming

  const DefaultOutputFormat: string := "file_%d.dat"
  const DefaultWindowSize: int := 1024
  const DefaultFileSize: int := 1024 * 1024 * 1024
  const DefaultFileCount: int := 1

  /** The values the command line supplied, `None` for an absent flag
      (`-w/--window`, `-o/--output`, `-c/--count`, `-s/--size`). */
  datatype Flags = Flags(
    window: Option<int>,
    output: Option<string>,
    count: Option<int>,
    size: Option<int>)

  /** The resolved settings of one run; the source keeps them in `int`
      locals, so they may be zero or negative. */
  datatype Config = Config(
    outputFormat: string,
    windowSize: int,
    fileSize: int,
    fileCount: int)

  /** The one failure the procedure checks for itself. */
  datatype Error = FileSmallerThanWindow

  /** A produced file: its zero-based index, the name formatted from the
      pattern, the bytes it holds once closed and the lengths of the write
      calls that put them there, in order. */
  datatype OutputFile = OutputFile(
    index: nat,
    name: Option<string>,
    data: seq<Byte>,
    writeCalls: seq<nat>)

  datatype RunOutcome = Rejected(error: Error) | Completed(files: seq<OutputFile>)

  /** Starts every setting from its default and overrides each one whose
      flag was given. */
  method ResolveConfig(flags: Flags) returns (config: Config)
    ensures flags.output.Some? ==> config.outputFormat == flags.output.value
    ensures flags.output.None? ==> config.outputFormat == DefaultOutputFormat
    ensures flags.window.Some? ==> config.windowSize == flags.window.value
    ensures flags.window.None? ==> config.windowSize == DefaultWindowSize
    ensures flags.size.Some? ==> config.fileSize == flags.size.value
    ensures flags.size.None? ==> config.fileSize == DefaultFileSize
    ensures flags.count.Some? ==> config.fileCount == flags.count.value
    ensures flags.count.None? ==> config.fileCount == DefaultFileCount
  {
    var outputFormat := DefaultOutputFormat;
    var windowSize := DefaultWindowSize;
    var fileSize := DefaultFileSize;
    var fileCount := DefaultFileCount;
    if flags.window.Some? {
      windowSize := flags.window.value;
    }
    if flags.output.Some? {
      outputFormat := flags.output.value;
    }
    if flags.count.Some? {
      fileCount := flags.count.value;
    }
    if flags.size.Some? {
      fileSize := flags.size.value;
    }
    config := Config(outputFormat, windowSize, fileSize, fileCount);
  }

  /** The only check the procedure makes before producing files. It does
      not exclude a window of zero or less. With a positive window, a file
      that passes it gets at least one full-window write. */
  function PassesSizeCheck(config: Config): (ok: bool)
    ensures ok && config.windowSize > 0 ==> config.fileSize / config.windowSize >= 1
  {
    !(config.fileSize < config.windowSize)
  }

  /** What the caller must guarantee: past the size check the window is
      positive and the random source yields a full window of bytes. The
      division by the window, done for each file, is what needs the
      positive window; a zero window with no file to write would finish
      normally, and is excluded all the same. */
  predicate RunnableWith(config: Config, random: seq<Byte>)
  {
    PassesSizeCheck(config) ==> config.windowSize > 0 && |random| == config.windowSize
  }

  /** How many files a run produces: none for a count of zero or less. */
  function ProducedCount(config: Config): nat
  {
    if config.fileCount > 0 then config.fileCount else 0
  }

  /** The outcome of a run: the rejection, or every file in order of
      index, each holding the image of the same buffer. */
  function Expected(config: Config, random: seq<Byte>): (r: RunOutcome)
    requires RunnableWith(config, random)
    ensures r.Rejected? <==> config.fileSize < config.windowSize
    ensures r.Completed? ==> |r.files| == ProducedCount(config)
  {
    if !PassesSizeCheck(config) then Rejected(FileSmallerThanWindow)
    else Completed(seq(ProducedCount(config), k requires 0 <= k =>
      ExpectedFile(config, random, k)))
  }

  /** File `k` of an accepted run. */
  function ExpectedFile(config: Config, random: seq<Byte>, k: nat): OutputFile
    requires config.windowSize > 0 && |random| == config.windowSize && config.fileSize >= 0
  {
    OutputFile(k, FormatName(config.outputFormat, k),
      FileImage(random, config.fileSize), WritePlan(config.fileSize, config.windowSize))
  }

  /** The run: the size check, then the buffer allocated and filled once
      from `random` (the bytes the random source yields), then one chunked
      write per file index, each file finished before the next starts. */
  method Produce(config: Config, random: seq<Byte>) returns (outcome: RunOutcome)
    requires RunnableWith(config, random)
    ensures outcome == Expected(config, random)
  {
    if config.fileSize < config.windowSize {
      return Rejected(FileSmallerThanWindow);
    }
    var buffer := new Byte[config.windowSize](k requires 0 <= k < |random| => random[k]);
    var files: seq<OutputFile> := [];
    var i := 0;
    while i < config.fileCount
      invariant 0 <= i && i <= ProducedCount(config)
      invariant buffer[..] == random
      invariant |files| == i
      invariant forall k :: 0 <= k < i ==> files[k] == ExpectedFile(config, random, k)
    {
      var name := FormatName(config.outputFormat, i);
      var data, writes := WriteFile(buffer, config.fileSize);
      files := files + [OutputFile(i, name, data, writes)];
      i := i + 1;
    }
    outcome := Completed(files);
  }

  /** A run is rejected exactly when the file is smaller than the window;
      otherwise it produces `ProducedCount` files, file `k` has index `k`,
      every file is `fileSize` bytes of the buffer repeated cyclically, and
      its write calls add up to `fileSize`. */
  lemma ExpectedRun(config: Config, random: seq<Byte>)
    requires RunnableWith(config, random)
    ensures Expected(config, random).Rejected? <==> config.fileSize < config.windowSize
    ensures Expected(config, random).Completed? ==>
      var files := Expected(config, random).files;
      && |files| == ProducedCount(config)
      && forall k :: 0 <= k < |files| ==>
           && files[k].index == k
           && |files[k].data| == config.fileSize
           && (forall j :: 0 <= j < config.fileSize ==> files[k].data[j] == random[j % config.windowSize])
           && Sum(files[k].writeCalls) == config.fileSize
  {
    if PassesSizeCheck(config) {
      FileImageCyclic(random, config.fileSize);
      WritePlanTotal(config.fileSize, config.windowSize);
    }
  }

  /** The buffer is filled once and only read, so every file of a run holds
      the same bytes, written by the same sequence of write calls. */
  lemma FilesIdentical(config: Config, random: seq<Byte>, j: nat, k: nat)
    requires RunnableWith(config, random) && PassesSizeCheck(config)
    requires j < ProducedCount(config) && k < ProducedCount(config)
    ensures Expected(config, random).files[j].data == Expected(config, random).files[k].data
    ensures Expected(config, random).files[j].writeCalls == Expected(config, random).files[k].writeCalls
  {
  }

  /** With a pattern that holds a `%d`, no two files of a run share a name. */
  lemma NamesDistinct(config: Config, random: seq<Byte>, j: nat, k: nat)
    requires RunnableWith(config, random) && PassesSizeCheck(config)
    requires '%' in config.outputFormat
    requires j < ProducedCount(config) && k < ProducedCount(config) && j != k
    requires Expected(config, random).files[j].name.Some?
    ensures Expected(config, random).files[j].name != Expected(config, random).files[k].name
  {
    var files := Expected(config, random).files;
    if files[j].name == files[k].name {
      FormatNameDistinct(config.outputFormat, j, k);
    }
  }

  /** Default run: one file named `file_0.dat` of 1073741824 bytes, written
      as 1048576 full windows of 1024 bytes and no extra write. */
  lemma DefaultRun(random: seq<Byte>)
    requires |random| == DefaultWindowSize
    ensures var config := Config(DefaultOutputFormat, DefaultWindowSize, DefaultFileSize, DefaultFileCount);
      && Expected(config, random).Completed?
      && |Expected(config, random).files| == 1
      && Expected(config, random).files[0].name == Some("file_0.dat")
      && |Expected(config, random).files[0].data| == 1073741824
      && Expected(config, random).files[0].writeCalls == seq(1048576, _ => 1024)
  {
    var config := Config(DefaultOutputFormat, DefaultWindowSize, DefaultFileSize, DefaultFileCount);
    DefaultPatternNames();
    assert Expected(config, random).files[0] == ExpectedFile(config, random, 0);
  }

  /** Size 1000 with window 300: each file is written by three full writes
      and one of 100 bytes, 1000 bytes in all. */
  lemma RemainderRun(outputFormat: string, random: seq<Byte>)
    requires |random| == 300
    ensures var files := Expected(Config(outputFormat, 300, 1000, 1), random).files;
      && |files| == 1
      && files[0].writeCalls == [300, 300, 300, 100]
      && |files[0].data| == 1000
  {
    var config := Config(outputFormat, 300, 1000, 1);
    assert Expected(config, random).files[0] == ExpectedFile(config, random, 0);
    assert seq(3, _ => 300) == [300, 300, 300];
  }

  /** Size equal to window: exactly one full write and no extra write, so
      the file is the buffer itself. */
  lemma BoundaryRun(outputFormat: string, random: seq<Byte>)
    requires |random| == 100
    ensures var files := Expected(Config(outputFormat, 100, 100, 1), random).files;
      && |files| == 1
      && files[0].writeCalls == [100]
      && files[0].data == random
  {
    var config := Config(outputFormat, 100, 100, 1);
    assert Expected(config, random).files[0] == ExpectedFile(config, random, 0);
    assert seq(1, _ => 100) == [100];
  }

  /** Size 50 with window 100 is rejected, so no file is produced. */
  lemma RejectedRun(outputFormat: string, fileCount: int, random: seq<Byte>)
    ensures Expected(Config(outputFormat, 100, 50, fileCount), random) == Rejected(FileSmallerThanWindow)
  {
  }

  /** Pattern `file_%d.dat` with count 3 names the files `file_0.dat`,
      `file_1.dat` and `file_2.dat`, in that order. */
  lemma ThreeFileNames(windowSize: int, fileSize: int, random: seq<Byte>)
    requires 0 < windowSize <= fileSize && |random| == windowSize
    ensures var files := Expected(Config("file_%d.dat", windowSize, fileSize, 3), random).files;
      && |files| == 3
      && files[0].name == Some("file_0.dat")
      && files[1].name == Some("file_1.dat")
      && files[2].name == Some("file_2.dat")
  {
    DefaultPatternNames();
  }

  /** The size check lets a zero window through (size 0, window 0), and
      a negative window with a non-negative size: the guard alone does not
      make the division by the window defined. */
  lemma SizeCheckAdmitsNonPositiveWindow()
    ensures PassesSizeCheck(Config(DefaultOutputFormat, 0, 0, 1))
    ensures PassesSizeCheck(Config(DefaultOutputFormat, -1, 0, 1))
    ensures !RunnableWith(Config(DefaultOutputFormat, 0, 0, 1), [])
  {
  }
}
