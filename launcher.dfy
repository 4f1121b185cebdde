/** `main.py`: the file name and header rules of `process_file` and the
    decision `main` takes on the command-line arguments. The file system is
    given as the set of existing directories and the set of existing files
    (directory, name); `os.path.split` is a parameter. */
module Launcher {
  import opened Text

  /** `filename.split('.')[-1]`: the text after the last dot, or the whole
      name when it has no dot. */
  function LastSegment(s: string): (r: string)
    ensures '.' !in r
    ensures |r| <= |s| && r == s[|s| - |r|..]
    ensures |r| < |s| ==> s[|s| - |r| - 1] == '.'
  {
    if s == [] then []
    else if s[|s| - 1] == '.' then []
    else LastSegment(s[..|s| - 1]) + [s[|s| - 1]]
  }

  /** A name ending in a dot and dot-free text has that text as its last
      segment. */
  lemma {:induction false} LastSegmentOfExtension(a: string, ext: string)
    requires |ext| >= 1 && ext[0] == '.' && '.' !in ext[1..]
    ensures LastSegment(a + ext) == ext[1..]
  {
    var s := a + ext;
    if |ext| > 1 {
      var front := ext[..|ext| - 1];
      assert front[1..] == ext[1..|ext| - 1];
      assert s[..|s| - 1] == a + front;
      assert s[|s| - 1] == ext[|ext| - 1];
      LastSegmentOfExtension(a, front);
      assert front[1..] + [ext[|ext| - 1]] == ext[1..];
    }
  }

  /** Appending `.csv` makes `csv` the last segment. */
  lemma CsvLastSegment(a: string)
    ensures LastSegment(a + ".csv") == "csv"
  {
    LastSegmentOfExtension(a, ".csv");
  }

  /** The extension rule of `process_file`: `.csv` is appended unless the
      last segment already is `csv`; afterwards it is. */
  function WithCsvExtension(filename: string): (r: string)
    ensures LastSegment(r) == "csv"
    ensures r == filename <==> LastSegment(filename) == "csv"
    ensures r != filename ==> r == filename + ".csv"
  {
    if LastSegment(filename) == "csv" then filename
    else
      CsvLastSegment(filename);
      filename + ".csv"
  }

  /** Applying the rule twice is applying it once. */
  lemma WithCsvExtensionIdempotent(filename: string)
    ensures WithCsvExtension(WithCsvExtension(filename)) == WithCsvExtension(filename)
  {
  }

  /** A name without a dot is its own last segment. */
  lemma LastSegmentWithoutDot(s: string)
    requires '.' !in s
    ensures LastSegment(s) == s
  {
  }

  /** A bare `csv` is taken as already carrying the extension. */
  lemma BareCsvKept(name: string)
    requires name == "csv"
    ensures WithCsvExtension(name) == name
  {
    LastSegmentWithoutDot(name);
  }

  /** A name with another extension keeps it and gets `.csv` after it. */
  lemma OtherExtensionExtended(stem: string, ext: string)
    requires |ext| >= 1 && ext[0] == '.' && '.' !in ext[1..] && ext[1..] != "csv"
    ensures WithCsvExtension(stem + ext) == stem + ext + ".csv"
  {
    LastSegmentOfExtension(stem, ext);
  }

  /** `sep.join(parts)`. */
  function Join(parts: seq<string>, sep: char): string {
    if |parts| == 0 then []
    else if |parts| == 1 then parts[0]
    else parts[0] + [sep] + Join(parts[1..], sep)
  }

  /** The join starts with the first part, followed by the separator when
      more parts follow. */
  lemma JoinStartsWithFirst(parts: seq<string>, sep: char)
    requires |parts| > 0
    ensures StartsWith(Join(parts, sep), parts[0])
    ensures |parts| > 1 ==> |parts[0]| < |Join(parts, sep)| && Join(parts, sep)[|parts[0]|] == sep
  {
    if |parts| > 1 {
      assert Join(parts, sep) == parts[0] + [sep] + Join(parts[1..], sep);
    }
  }

  /** `s.split(sep)`: the pieces between separators; an empty `s` gives one
      empty piece. */
  function Split(s: string, sep: char): (r: seq<string>)
    ensures |r| >= 1
  {
    if s == [] then [[]]
    else
      var rest := Split(s[1..], sep);
      if s[0] == sep then [[]] + rest
      else [[s[0]] + rest[0]] + rest[1..]
  }

  lemma {:induction false} SplitWithoutSeparator(s: string, sep: char)
    requires sep !in s
    ensures Split(s, sep) == [s]
  {
    if s != [] {
      SplitWithoutSeparator(s[1..], sep);
      assert [s[0]] + s[1..] == s;
    }
  }

  lemma {:induction false} SplitAfterFirstPiece(a: string, b: string, sep: char)
    requires sep !in a
    ensures Split(a + [sep] + b, sep) == [a] + Split(b, sep)
  {
    var s := a + [sep] + b;
    if a == [] {
      assert s[1..] == b;
    } else {
      assert s[1..] == a[1..] + [sep] + b;
      SplitAfterFirstPiece(a[1..], b, sep);
      assert [a[0]] + a[1..] == a;
    }
  }

  /** Splitting a join on its separator gives back the parts, as long as no
      part holds the separator: the header reads back as the columns. */
  lemma {:induction false} SplitJoin(parts: seq<string>, sep: char)
    requires |parts| >= 1
    requires forall i :: 0 <= i < |parts| ==> sep !in parts[i]
    ensures Split(Join(parts, sep), sep) == parts
  {
    if |parts| == 1 {
      SplitWithoutSeparator(parts[0], sep);
    } else {
      SplitJoin(parts[1..], sep);
      SplitAfterFirstPiece(parts[0], Join(parts[1..], sep), sep);
    }
  }

  /** The number of occurrences of `c` in `s`. */
  function Count(s: string, c: char): nat {
    if s == [] then 0 else (if s[0] == c then 1 else 0) + Count(s[1..], c)
  }

  lemma {:induction false} CountAppend(a: string, b: string, c: char)
    ensures Count(a + b, c) == Count(a, c) + Count(b, c)
  {
    if a != [] {
      assert (a + b)[1..] == a[1..] + b;
      CountAppend(a[1..], b, c);
    } else {
      assert a + b == b;
    }
  }

  lemma {:induction false} CountAbsent(s: string, c: char)
    requires c !in s
    ensures Count(s, c) == 0
  {
    if s != [] {
      CountAbsent(s[1..], c);
    }
  }

  /** A join of parts that do not hold the separator has one separator fewer
      than there are parts. */
  lemma {:induction false} JoinSeparatorCount(parts: seq<string>, sep: char)
    requires |parts| >= 1
    requires forall i :: 0 <= i < |parts| ==> sep !in parts[i]
    ensures Count(Join(parts, sep), sep) == |parts| - 1
  {
    CountAbsent(parts[0], sep);
    if |parts| > 1 {
      JoinSeparatorCount(parts[1..], sep);
      CountAppend(parts[0], [sep], sep);
      CountAppend(parts[0] + [sep], Join(parts[1..], sep), sep);
    }
  }

  /** No part holds the separator. */
  predicate SeparatorFree(parts: seq<string>, sep: char) {
    forall i :: 0 <= i < |parts| ==> sep !in parts[i]
  }

  /** The first line written to a new file: the columns joined by `;` and one
      line break. Without `;` in the column names it holds `len(columns) - 1`
      separators, and its text before the final line break splits back into
      the columns. */
  function Header(columns: seq<string>): (r: string)
    ensures |r| >= 1 && r[|r| - 1] == '\n' && r[..|r| - 1] == Join(columns, ';')
    ensures |columns| >= 1 && SeparatorFree(columns, ';') ==>
      Count(r, ';') == |columns| - 1 && Split(r[..|r| - 1], ';') == columns
  {
    var line := Join(columns, ';');
    if |columns| >= 1 && SeparatorFree(columns, ';') then
      JoinSeparatorCount(columns, ';');
      CountAppend(line, "\n", ';');
      SplitJoin(columns, ';');
      assert (line + "\n")[..|line|] == line;
      line + "\n"
    else
      line + "\n"
  }

  /** The existing directories and files (directory, name). */
  datatype FileSystem = FileSystem(dirs: set<string>, files: set<(string, string)>)

  /** What `process_file` returns: the sentinel `'dir_not_found'`, or the path
      `os.path.join(folder, name)` together with the header written when the
      file had to be created. */
  datatype FileResult = DirNotFound | Opened(folder: string, name: string, created: Option<string>)

  /** `process_file`: a missing directory is reported before the name is
      looked at; otherwise the name gets its `.csv` and a missing file is
      created holding only the header. */
  function ProcessFile(columns: seq<string>, dataFolder: string, filename: string,
                       fs: FileSystem): (r: FileResult)
    ensures r.DirNotFound? <==> dataFolder !in fs.dirs
    ensures r.Opened? ==> r.folder == dataFolder && r.name == WithCsvExtension(filename)
    ensures r.Opened? ==> (r.created.Some? <==> (dataFolder, r.name) !in fs.files)
    ensures r.Opened? && r.created.Some? ==> r.created.value == Header(columns)
  {
    if dataFolder !in fs.dirs then DirNotFound
    else
      var name := WithCsvExtension(filename);
      Opened(dataFolder, name, if (dataFolder, name) in fs.files then None else Some(Header(columns)))
  }

  /** The fixed columns of the phonebook. The `й` of the two number columns
      is written as `и` followed by U+0306 COMBINING BREVE, two code points,
      as in the program's own literals. */
  const Columns: seq<string> :=
    ["ИД", "Имя", "Фамилия", "Отчество", "Компания", "Рабочии\U{0306} номер", "Личныи\U{0306} номер"]

  const DefaultFolder: string := "data"
  const DefaultFilename: string := "phonebook_data.csv"

  /** The options `main` knows: `['--help', '-h', '--file', '-f']`. */
  predicate IsHelpOption(arg: string) { arg == "--help" || arg == "-h" }
  predicate IsFileOption(arg: string) { arg == "--file" || arg == "-f" }
  predicate IsKnownOption(arg: string) { IsHelpOption(arg) || IsFileOption(arg) }

  /** `any(arg in [...] for arg in args)` for each of the option lists. */
  predicate AnyHelp(args: seq<string>) { exists i :: 0 <= i < |args| && IsHelpOption(args[i]) }
  predicate AnyFile(args: seq<string>) { exists i :: 0 <= i < |args| && IsFileOption(args[i]) }
  predicate AnyKnown(args: seq<string>) { exists i :: 0 <= i < |args| && IsKnownOption(args[i]) }

  /** `args.index(x)`: the first position of `x`. */
  function IndexOf(args: seq<string>, x: string): (r: nat)
    requires x in args
    ensures r < |args| && args[r] == x
    ensures forall j :: 0 <= j < r ==> args[j] != x
  {
    if args[0] == x then 0 else IndexOf(args[1..], x) + 1
  }

  /** The position of the file option: the first `--file` if there is one,
      otherwise the first `-f`. */
  function FileOptionIndex(args: seq<string>): (r: nat)
    requires AnyFile(args)
    ensures r < |args| && IsFileOption(args[r])
    ensures "--file" in args ==> args[r] == "--file" && forall j :: 0 <= j < r ==> args[j] != "--file"
    ensures "--file" !in args ==> args[r] == "-f" && forall j :: 0 <= j < r ==> args[j] != "-f"
  {
    if "--file" in args then IndexOf(args, "--file") else IndexOf(args, "-f")
  }

  /** What `main` goes on to do. */
  datatype Decision = UnknownCommand | ShowHelp | MissingFileName | ReportDirNotFound | Run(file: FileResult)

  /** The argument after the file option, split into directory and name. */
  function FilePath(args: seq<string>, split: string -> (string, string)): (string, string)
    requires AnyFile(args) && FileOptionIndex(args) + 1 < |args|
  {
    split(args[FileOptionIndex(args) + 1])
  }

  /** The `--file`/`-f` branch of `main` for the header `columns`: the
      argument after the option is split into directory and name and
      processed; a missing argument and a missing directory are reported. */
  function FileOptionDecision(columns: seq<string>, args: seq<string>, fs: FileSystem,
                              split: string -> (string, string)): (r: Decision)
    requires AnyFile(args)
    ensures r.Run? || r.MissingFileName? || r.ReportDirNotFound?
    ensures r.MissingFileName? <==> FileOptionIndex(args) == |args| - 1
    ensures !r.MissingFileName? ==> (r.ReportDirNotFound? <==> FilePath(args, split).0 !in fs.dirs)
    ensures r.Run? ==>
      r.file.Opened? && r.file == ProcessFile(columns, FilePath(args, split).0, FilePath(args, split).1, fs)
  {
    if FileOptionIndex(args) + 1 >= |args| then MissingFileName
    else
      var path := FilePath(args, split);
      var chosen := ProcessFile(columns, path.0, path.1, fs);
      if chosen.DirNotFound? then ReportDirNotFound else Run(chosen)
  }

  /** `main` as written: the default file is processed first, the arguments
      are then checked in order, and without a file option the phonebook runs
      on the default file, whatever `process_file` returned for it. */
  function DecideAsWritten(args: seq<string>, fs: FileSystem, split: string -> (string, string)): (r: Decision)
    ensures r.UnknownCommand? <==> |args| > 0 && !AnyKnown(args)
    ensures r.ShowHelp? <==> AnyHelp(args)
    ensures !AnyHelp(args) && AnyFile(args) ==> r == FileOptionDecision(Columns, args, fs, split)
    ensures !AnyFile(args) ==> r.UnknownCommand? || r.ShowHelp? || r.Run?
    ensures r.Run? && !AnyFile(args) ==>
      args == [] && r.file == ProcessFile(Columns, DefaultFolder, DefaultFilename, fs)
  {
    var file := ProcessFile(Columns, DefaultFolder, DefaultFilename, fs);
    if |args| > 0 && !AnyKnown(args) then UnknownCommand
    else if AnyHelp(args) then ShowHelp
    else if AnyFile(args) then FileOptionDecision(Columns, args, fs, split)
    else Run(file)
  }

  /** Without arguments and without the `data` directory, `main` as written
      starts the phonebook on the sentinel `'dir_not_found'` as its file name. */
  lemma DefaultRunsOnSentinel(fs: FileSystem, split: string -> (string, string))
    requires DefaultFolder !in fs.dirs
    ensures DecideAsWritten([], fs, split) == Run(DirNotFound)
  {
  }

  /** `main` with the missing default directory reported as it is for the
      file option: the phonebook only ever runs on an opened file. */
  function Decide(args: seq<string>, fs: FileSystem, split: string -> (string, string)): (r: Decision)
    ensures r.Run? ==> r.file.Opened?
    ensures r == ReportDirNotFound <==>
      DecideAsWritten(args, fs, split) in {ReportDirNotFound, Run(DirNotFound)}
    ensures r != ReportDirNotFound ==> r == DecideAsWritten(args, fs, split)
  {
    var d := DecideAsWritten(args, fs, split);
    if d == Run(DirNotFound) then ReportDirNotFound else d
  }

  /** Help wins over the file option, and one known option lets any other
      argument through. */
  lemma DecisionExamples(fs: FileSystem, split: string -> (string, string))
    ensures Decide(["--file", "book.csv", "-h"], fs, split) == ShowHelp
    ensures Decide(["--verbose"], fs, split) == UnknownCommand
    ensures Decide(["-f"], fs, split) == MissingFileName
  {
    assert IsHelpOption(["--file", "book.csv", "-h"][2]);
    assert IsFileOption(["-f"][0]);
  }
}
