/**
 * The `DistinctIntegerHandler` pipeline: every line of an input file is split
 * into tokens, the tokens that are integers in [-1023, 1023] are collected
 * into one set, the set is sorted with the hand-written merge sort and the
 * result is written one decimal number per line to `<output>_results.txt`.
 * A directory run does this for every listed name that ends in `.txt`.
 *
 * The file system is not modelled: a file's contents are its sequence of
 * lines (`None` when the file does not exist), a directory is its listing,
 * and what a run writes is returned as a value.
 */
module DistinctIntegerHandler {
  import opened Tokens
  import opened Sorting

  datatype Option<T> = None | Some(value: T)

  /** The range of values `handle_line` keeps. */
  const Limit := 1023

  predicate InRange(n: int) {
    -Limit <= n <= Limit
  }

  predicate AllInRange(s: seq<int>) {
    forall i :: 0 <= i < |s| ==> InRange(s[i])
  }

  /** Strictly ascending: sorted, with no value twice. */
  predicate StrictlyIncreasing(s: seq<int>) {
    forall i, j :: 0 <= i < j < |s| ==> s[i] < s[j]
  }

  // ---------------------------------------------------------------------
  // handle_line
  // ---------------------------------------------------------------------

  /** What one token contributes: its value if it is an integer in range. */
  function Keep(token: string): seq<int> {
    if IsInteger(token) && InRange(ParseInt(token)) then [ParseInt(token)] else []
  }

  /** The approved numbers of a token sequence, in token order. */
  function Accepted(tokens: seq<string>): seq<int> {
    if tokens == [] then []
    else Accepted(tokens[..|tokens| - 1]) + Keep(tokens[|tokens| - 1])
  }

  /** Every approved number lies in [-1023, 1023]. */
  lemma {:induction false} AcceptedInRange(tokens: seq<string>)
    ensures AllInRange(Accepted(tokens))
  {
    if tokens != [] {
      AcceptedInRange(tokens[..|tokens| - 1]);
    }
  }

  /**
   * A number is approved exactly when some token is an integer that denotes
   * it and it is in range; every other token is dropped.
   */
  lemma {:induction false} AcceptedMember(tokens: seq<string>, x: int)
    ensures x in Accepted(tokens) <==>
      exists j :: 0 <= j < |tokens| && IsInteger(tokens[j]) && ParseInt(tokens[j]) == x && InRange(x)
  {
    if tokens != [] {
      var n := |tokens| - 1;
      var init := tokens[..n];
      AcceptedMember(init, x);
      if x in Accepted(tokens) && x !in Accepted(init) {
        assert x in Keep(tokens[n]);
      }
      if exists j :: 0 <= j < |tokens| && IsInteger(tokens[j]) && ParseInt(tokens[j]) == x && InRange(x) {
        var j :| 0 <= j < |tokens| && IsInteger(tokens[j]) && ParseInt(tokens[j]) == x && InRange(x);
        if j < n {
          assert init[j] == tokens[j];
        }
      }
    }
  }

  /** Tokens are handled left to right: the approved numbers of a line keep token order. */
  lemma {:induction false} AcceptedAppend(a: seq<string>, b: seq<string>)
    ensures Accepted(a + b) == Accepted(a) + Accepted(b)
    decreases |b|
  {
    if b == [] {
      assert a + b == a;
    } else {
      var n := |b| - 1;
      assert (a + b)[..|a + b| - 1] == a + b[..n];
      AcceptedAppend(a, b[..n]);
    }
  }

  /**
   * `handle_line`: split the line on whitespace and append, in order, every
   * token that is an integer in [-1023, 1023].
   */
  method HandleLine(lineContent: string) returns (approvedNumbers: seq<int>)
    ensures approvedNumbers == LineNumbers(lineContent)
    ensures AllInRange(approvedNumbers)
  {
    var candidateNumbers := Words(lineContent);
    approvedNumbers := [];
    for i := 0 to |candidateNumbers|
      invariant approvedNumbers == Accepted(candidateNumbers[..i])
    {
      var entry := candidateNumbers[i];
      assert candidateNumbers[..i + 1][..i] == candidateNumbers[..i];
      if IsInteger(entry) {
        var number := ParseInt(entry);
        if InRange(number) {
          approvedNumbers := approvedNumbers + [number];
        }
      }
    }
    assert candidateNumbers[..|candidateNumbers|] == candidateNumbers;
    AcceptedInRange(candidateNumbers);
  }

  // ---------------------------------------------------------------------
  // handle_file
  // ---------------------------------------------------------------------

  /** The numbers `handle_line` approves on one line. */
  function LineNumbers(line: string): seq<int> {
    Accepted(Words(line))
  }

  /** `set(s)`: the values of a list. */
  function Elements(s: seq<int>): set<int> {
    set x | x in s
  }

  /** The set `handle_file` accumulates: every number approved on any line. */
  function Found(lines: seq<string>): (found: set<int>)
    ensures forall x :: x in found ==> InRange(x)
  {
    if lines == [] then {}
    else
      var last := LineNumbers(lines[|lines| - 1]);
      AcceptedInRange(Words(lines[|lines| - 1]));
      Found(lines[..|lines| - 1]) + Elements(last)
  }

  /** A number is found exactly when it is approved on some line. */
  lemma {:induction false} FoundMember(lines: seq<string>, x: int)
    ensures x in Found(lines) <==> exists i :: 0 <= i < |lines| && x in LineNumbers(lines[i])
  {
    if lines != [] {
      var n := |lines| - 1;
      var init := lines[..n];
      assert Found(lines) == Found(init) + Elements(LineNumbers(lines[n]));
      FoundMember(init, x);
      assert forall i :: 0 <= i < n ==> init[i] == lines[i];
    }
  }

  /**
   * `list(unique_numbers)`: the elements of a set, each once, in an order
   * the model leaves open just as Python leaves set iteration order open.
   */
  method ListOf(s: set<int>) returns (xs: seq<int>)
    ensures multiset(xs) == multiset(s)
  {
    xs := [];
    var rest := s;
    while rest != {}
      invariant rest <= s
      invariant multiset(xs) + multiset(rest) == multiset(s)
      decreases rest
    {
      EmptyOrMember(rest);
      var x :| x in rest;
      assert multiset(rest) == multiset(rest - {x}) + multiset{x};
      xs := xs + [x];
      rest := rest - {x};
    }
  }

  lemma EmptyOrMember(s: set<int>)
    ensures s == {} || exists x :: x in s
  {
    if forall x :: x !in s {
      assert s == {};
    }
  }

  lemma {:induction false} MinExists(s: set<int>)
    requires s != {}
    ensures exists m :: m in s && forall y :: y in s ==> m <= y
    decreases s
  {
    EmptyOrMember(s);
    var x :| x in s;
    var rest := s - {x};
    if rest == {} {
      forall y | y in s ensures x <= y {
        assert y !in rest;
      }
    } else {
      MinExists(rest);
      var m :| m in rest && forall y :: y in rest ==> m <= y;
      var least := if x < m then x else m;
      forall y | y in s ensures least <= y {
        if y != x {
          assert y in rest;
        }
      }
      assert least in s;
    }
  }

  /** The elements of a finite set of integers in strictly ascending order. */
  ghost function Ascending(s: set<int>): (r: seq<int>)
    ensures StrictlyIncreasing(r)
    ensures forall x :: x in r <==> x in s
    decreases s
  {
    if s == {} then []
    else
      MinExists(s);
      var m :| m in s && forall y :: y in s ==> m <= y;
      [m] + Ascending(s - {m})
  }

  /** Two strictly ascending sequences with the same elements are equal. */
  lemma {:induction false} StrictlyIncreasingUnique(a: seq<int>, b: seq<int>)
    requires StrictlyIncreasing(a) && StrictlyIncreasing(b)
    requires forall x :: x in a <==> x in b
    ensures a == b
    decreases |a|
  {
    assert b == [] || b[0] in b;
    if a == [] {
    } else {
      assert a[0] in a;
      assert b != [];
      assert b[0] in b;
      assert a[0] == b[0];
      forall x ensures x in a[1..] <==> x in b[1..] {
        if x in a[1..] {
          var i :| 1 <= i < |a| && a[i] == x;
          assert x in b;
          assert x != b[0];
        }
        if x in b[1..] {
          var i :| 1 <= i < |b| && b[i] == x;
          assert x in a;
          assert x != a[0];
        }
      }
      StrictlyIncreasingUnique(a[1..], b[1..]);
      assert a == [a[0]] + a[1..];
      assert b == [b[0]] + b[1..];
    }
  }

  /** A value at two positions of a sequence occurs at least twice in its multiset. */
  lemma Twice(xs: seq<int>, i: int, j: int)
    requires 0 <= i < j < |xs| && xs[i] == xs[j]
    ensures multiset(xs)[xs[i]] >= 2
  {
    var v := xs[i];
    assert xs == xs[..j] + [xs[j]] + xs[j + 1..];
    assert xs[..j][i] == v;
    assert v in multiset(xs[..j]);
  }

  /** Sorting the listed elements of a set yields the set in ascending order. */
  lemma SortedListOfSet(xs: seq<int>, s: set<int>)
    requires Sorted(xs) && multiset(xs) == multiset(s)
    ensures xs == Ascending(s)
  {
    forall i, j | 0 <= i < j < |xs| ensures xs[i] < xs[j] {
      if xs[i] == xs[j] {
        Twice(xs, i, j);
      }
    }
    forall x ensures x in xs <==> x in s {
      assert x in xs <==> x in multiset(xs);
    }
    StrictlyIncreasingUnique(xs, Ascending(s));
  }

  /** The text written for a sorted list: each number in decimal followed by a line break. */
  function Emit(numbers: seq<int>): string {
    if numbers == [] then "" else IntToString(numbers[0]) + "\n" + Emit(numbers[1..])
  }

  lemma {:induction false} EmitAppend(numbers: seq<int>, x: int)
    ensures Emit(numbers + [x]) == Emit(numbers) + IntToString(x) + "\n"
    decreases |numbers|
  {
    if numbers == [] {
      assert Emit([x]) == IntToString(x) + "\n" + Emit([]);
    } else {
      var head := IntToString(numbers[0]) + "\n";
      var line := IntToString(x) + "\n";
      assert (numbers + [x])[0] == numbers[0];
      assert (numbers + [x])[1..] == numbers[1..] + [x];
      assert Emit(numbers + [x]) == head + Emit(numbers[1..] + [x]);
      EmitAppend(numbers[1..], x);
      assert Emit(numbers[1..] + [x]) == Emit(numbers[1..]) + line;
      assert head + (Emit(numbers[1..]) + line) == (head + Emit(numbers[1..])) + line;
    }
  }

  /** The writing loop of `handle_file`: `outfile.write(f"{number}\n")` for each number. */
  method WriteResults(numbers: seq<int>) returns (text: string)
    ensures text == Emit(numbers)
  {
    text := "";
    for i := 0 to |numbers|
      invariant text == Emit(numbers[..i])
    {
      assert numbers[..i + 1] == numbers[..i] + [numbers[i]];
      EmitAppend(numbers[..i], numbers[i]);
      text := text + IntToString(numbers[i]) + "\n";
    }
    assert numbers[..|numbers|] == numbers;
  }

  /** Length of the first line of `text`, its line break included. */
  function LineLength(text: string): (k: nat)
    requires text != []
    ensures 1 <= k <= |text|
    ensures forall i :: 0 <= i < k - 1 ==> text[i] != '\n'
    ensures k < |text| ==> text[k - 1] == '\n'
  {
    if text[0] == '\n' || |text| == 1 then 1 else 1 + LineLength(text[1..])
  }

  /** The lines concatenated back into one text. */
  function Concat(lines: seq<string>): string {
    if lines == [] then [] else lines[0] + Concat(lines[1..])
  }

  /**
   * The lines Python's file iteration yields: together they are the whole
   * text; each is non-empty and holds a line break only as its last
   * character; every line but the last ends with one.
   */
  function ReadLines(text: string): (lines: seq<string>)
    ensures Concat(lines) == text
    ensures forall i :: 0 <= i < |lines| ==> lines[i] != [] && '\n' !in lines[i][..|lines[i]| - 1]
    ensures forall i :: 0 <= i < |lines| - 1 ==> lines[i][|lines[i]| - 1] == '\n'
    decreases |text|
  {
    if text == [] then [] else
      var k := LineLength(text);
      var rest := ReadLines(text[k..]);
      assert text == text[..k] + text[k..];
      assert ([text[..k]] + rest)[1..] == rest;
      [text[..k]] + rest
  }

  lemma {:induction false} LineLengthOfLine(w: string, rest: string)
    requires '\n' !in w
    ensures LineLength(w + "\n" + rest) == |w| + 1
    decreases |w|
  {
    if w != [] {
      assert (w + "\n" + rest)[1..] == w[1..] + "\n" + rest;
      LineLengthOfLine(w[1..], rest);
    }
  }

  /** Reading back the written text yields one line per number, in order. */
  lemma {:induction false} ReadLinesOfEmit(numbers: seq<int>)
    ensures |ReadLines(Emit(numbers))| == |numbers|
    ensures forall i :: 0 <= i < |numbers| ==> ReadLines(Emit(numbers))[i] == IntToString(numbers[i]) + "\n"
  {
    if numbers != [] {
      var w := IntToString(numbers[0]);
      IntToStringRoundTrip(numbers[0]);
      assert forall k :: 0 <= k < |w| ==> w[k] != '\n';
      var rest := Emit(numbers[1..]);
      var text := w + "\n" + rest;
      LineLengthOfLine(w, rest);
      assert text[..|w| + 1] == w + "\n";
      assert text[|w| + 1..] == rest;
      ReadLinesOfEmit(numbers[1..]);
    }
  }

  datatype FileResult =
    | InputMissing
    | Written(path: string, text: string)

  /**
   * What `handle_file` does for an input file's lines (`None`: the file does
   * not exist, nothing is written) and an output path: it writes the distinct
   * in-range integers found on any line, ascending, to the output path with
   * `_results.txt` appended.
   */
  ghost function ProcessFile(input: Option<seq<string>>, outputPath: string): FileResult {
    match input
    case None => InputMissing
    case Some(lines) => Written(outputPath + "_results.txt", Emit(Ascending(Found(lines))))
  }

  /**
   * `handle_file`: the union of every line's approved numbers, listed, sorted
   * with `merge_sort` and written.
   */
  method HandleFile(input: Option<seq<string>>, outputPath: string) returns (r: FileResult)
    ensures r == ProcessFile(input, outputPath)
    ensures r.Written? <==> input.Some?
    ensures r.Written? ==> r.path == outputPath + "_results.txt"
  {
    if input.None? {
      return InputMissing;
    }
    var lines := input.value;
    var uniqueNumbers: set<int> := {};
    var resultFilepath := outputPath + "_results.txt";
    for i := 0 to |lines|
      invariant uniqueNumbers == Found(lines[..i])
    {
      var approvedNumbers := HandleLine(lines[i]);
      assert lines[..i + 1][..i] == lines[..i];
      uniqueNumbers := uniqueNumbers + Elements(approvedNumbers);
    }
    assert lines[..|lines|] == lines;
    var listed := ListOf(uniqueNumbers);
    var sortedUniqueNumbers := MergeSort(listed);
    SortedListOfSet(sortedUniqueNumbers, uniqueNumbers);
    var text := WriteResults(sortedUniqueNumbers);
    r := Written(resultFilepath, text);
  }

  /**
   * The numbers in a results file are strictly ascending, in range, and are
   * exactly the in-range integers that occur as tokens on some input line.
   */
  lemma {:induction false} ResultsAreDistinctSorted(lines: seq<string>, x: int)
    ensures StrictlyIncreasing(Ascending(Found(lines)))
    ensures AllInRange(Ascending(Found(lines)))
    ensures x in Ascending(Found(lines)) <==>
      exists i :: 0 <= i < |lines| && x in LineNumbers(lines[i])
  {
    FoundMember(lines, x);
  }

  /**
   * Running the handler on its own results file writes the same text again:
   * the output is a fixed point of the pipeline.
   */
  lemma {:induction false} ResultsAreStable(lines: seq<string>, outputPath: string, again: string)
    ensures
      var first := ProcessFile(Some(lines), outputPath);
      ProcessFile(Some(ReadLines(first.text)), again) == Written(again + "_results.txt", first.text)
  {
    var numbers := Ascending(Found(lines));
    var text := Emit(numbers);
    var reread := ReadLines(text);
    ReadLinesOfEmit(numbers);
    forall x ensures x in Found(reread) <==> x in Found(lines) {
      FoundMember(reread, x);
      if x in Found(reread) {
        var i :| 0 <= i < |reread| && x in LineNumbers(reread[i]);
        OneNumberLine(numbers[i]);
      }
      if x in Found(lines) {
        var i :| 0 <= i < |numbers| && numbers[i] == x;
        OneNumberLine(numbers[i]);
        assert x in LineNumbers(reread[i]);
      }
    }
    assert Found(reread) == Found(lines);
  }

  /** A written line holds exactly the number it was written for. */
  lemma OneNumberLine(x: int)
    requires InRange(x)
    ensures LineNumbers(IntToString(x) + "\n") == [x]
  {
    IntToStringRoundTrip(x);
    WordsOfTerminatedWord(IntToString(x));
    assert Accepted([IntToString(x)]) == Accepted([]) + Keep(IntToString(x));
  }

  // ---------------------------------------------------------------------
  // handle_directory
  // ---------------------------------------------------------------------

  /** `str.endswith`. */
  predicate EndsWith(s: string, suffix: string) {
    |suffix| <= |s| && s[|s| - |suffix|..] == suffix
  }

  /** `os.path.join` of two components on a POSIX system. */
  function JoinPath(dir: string, name: string): (path: string)
    ensures EndsWith(path, name)
  {
    if name != [] && name[0] == '/' then name
    else if dir == [] || dir[|dir| - 1] == '/' then dir + name
    else dir + "/" + name
  }

  /** The names of a listing that `handle_directory` processes, in listing order. */
  function TextFiles(names: seq<string>): seq<string> {
    if names == [] then []
    else
      var last := names[|names| - 1];
      TextFiles(names[..|names| - 1]) + (if EndsWith(last, ".txt") then [last] else [])
  }

  /** Exactly the listed names ending in `.txt` are processed. */
  lemma {:induction false} TextFilesMember(names: seq<string>, x: string)
    ensures x in TextFiles(names) <==> x in names && EndsWith(x, ".txt")
  {
    if names != [] {
      var n := |names| - 1;
      TextFilesMember(names[..n], x);
      assert names == names[..n] + [names[n]];
    }
  }

  function Lookup(files: map<string, seq<string>>, path: string): Option<seq<string>> {
    if path in files then Some(files[path]) else None
  }

  /** What `handle_directory` does for one listed name it processes. */
  ghost function ProcessName(inputDir: string, outputDir: string, files: map<string, seq<string>>,
                             name: string): FileResult
  {
    ProcessFile(Lookup(files, JoinPath(inputDir, name)), JoinPath(outputDir, name))
  }

  /** Where `handle_directory` writes the results for a listed name. */
  function ResultPath(outputDir: string, name: string): string {
    JoinPath(outputDir, name) + "_results.txt"
  }

  /** The file system after one file run: a written file replaces that path's contents. */
  function Store(files: map<string, seq<string>>, r: FileResult): map<string, seq<string>> {
    match r
    case InputMissing => files
    case Written(path, text) => files[path := ReadLines(text)]
  }

  /** What a directory run returns, and the file system it leaves behind. */
  datatype DirectoryRun = DirectoryRun(results: seq<FileResult>, files: map<string, seq<string>>)

  /**
   * A directory run over `names` (the listing taken once, up front): each
   * `.txt` name in order is processed against the file system as the
   * earlier runs of the same loop left it.
   */
  ghost function RunDirectory(inputDir: string, outputDir: string, names: seq<string>,
                              files: map<string, seq<string>>): DirectoryRun
    decreases |names|
  {
    if names == [] then DirectoryRun([], files)
    else
      var before := RunDirectory(inputDir, outputDir, names[..|names| - 1], files);
      var name := names[|names| - 1];
      if EndsWith(name, ".txt") then
        var r := ProcessName(inputDir, outputDir, before.files, name);
        DirectoryRun(before.results + [r], Store(before.files, r))
      else before
  }

  /** One result per `.txt` name of the listing. */
  lemma {:induction false} RunCount(inputDir: string, outputDir: string, names: seq<string>,
                                    files: map<string, seq<string>>)
    ensures |RunDirectory(inputDir, outputDir, names, files).results| == |TextFiles(names)|
    decreases |names|
  {
    if names != [] {
      RunCount(inputDir, outputDir, names[..|names| - 1], files);
    }
  }

  /**
   * A path that is not the results path of a processed (`.txt`) name reads
   * the same after the run as before. Paths are compared as strings.
   */
  lemma {:induction false} RunKeepsOtherPaths(inputDir: string, outputDir: string, names: seq<string>,
                                              files: map<string, seq<string>>, p: string)
    requires forall n :: n in TextFiles(names) ==> ResultPath(outputDir, n) != p
    ensures Lookup(RunDirectory(inputDir, outputDir, names, files).files, p) == Lookup(files, p)
    decreases |names|
  {
    if names != [] {
      var init := names[..|names| - 1];
      var name := names[|names| - 1];
      assert TextFiles(names) == TextFiles(init) + (if EndsWith(name, ".txt") then [name] else []);
      assert forall n :: n in TextFiles(init) ==> n in TextFiles(names);
      RunKeepsOtherPaths(inputDir, outputDir, init, files, p);
      if EndsWith(name, ".txt") {
        assert name in TextFiles(names);
        var before := RunDirectory(inputDir, outputDir, init, files);
        var r := ProcessName(inputDir, outputDir, before.files, name);
        ProcessNameWrites(inputDir, outputDir, before.files, name);
        StoreKeepsOther(before.files, r, p);
      }
    }
  }

  /**
   * No processed name's results path is spelled like the input path of a
   * processed name.
   */
  predicate NoFeedback(inputDir: string, outputDir: string, names: seq<string>) {
    forall n, m :: n in TextFiles(names) && m in TextFiles(names) ==>
      ResultPath(outputDir, n) != JoinPath(inputDir, m)
  }

  /**
   * When no run writes a file that a run reads, every `.txt` name is
   * processed against the file system as it was before the directory run.
   */
  lemma {:induction false} RunWithoutFeedback(inputDir: string, outputDir: string, names: seq<string>,
                                              files: map<string, seq<string>>)
    requires NoFeedback(inputDir, outputDir, names)
    ensures |RunDirectory(inputDir, outputDir, names, files).results| == |TextFiles(names)|
    ensures forall k :: 0 <= k < |TextFiles(names)| ==>
      RunDirectory(inputDir, outputDir, names, files).results[k] ==
      ProcessName(inputDir, outputDir, files, TextFiles(names)[k])
    decreases |names|
  {
    RunCount(inputDir, outputDir, names, files);
    if names != [] {
      var init := names[..|names| - 1];
      var name := names[|names| - 1];
      var before := RunDirectory(inputDir, outputDir, init, files);
      assert TextFiles(names) == TextFiles(init) + (if EndsWith(name, ".txt") then [name] else []);
      assert forall n :: n in TextFiles(init) ==> n in TextFiles(names);
      RunWithoutFeedback(inputDir, outputDir, init, files);
      if EndsWith(name, ".txt") {
        assert name in TextFiles(names);
        var p := JoinPath(inputDir, name);
        RunKeepsOtherPaths(inputDir, outputDir, init, files, p);
        var r := ProcessName(inputDir, outputDir, before.files, name);
        assert r == ProcessName(inputDir, outputDir, files, name);
        assert RunDirectory(inputDir, outputDir, names, files).results == before.results + [r];
        ResultsExtend(inputDir, outputDir, files, before.results, TextFiles(init), r, name);
      } else {
        assert TextFiles(names) == TextFiles(init);
      }
    }
  }

  /**
   * A directory run over `xs + ys` is the run over `xs` followed by the run
   * over `ys` on the file system the first one left behind.
   */
  lemma {:induction false} RunAppend(inputDir: string, outputDir: string, xs: seq<string>, ys: seq<string>,
                                     files: map<string, seq<string>>)
    ensures
      var first := RunDirectory(inputDir, outputDir, xs, files);
      var second := RunDirectory(inputDir, outputDir, ys, first.files);
      RunDirectory(inputDir, outputDir, xs + ys, files) == DirectoryRun(first.results + second.results, second.files)
    decreases |ys|
  {
    var first := RunDirectory(inputDir, outputDir, xs, files);
    if ys == [] {
      assert xs + ys == xs;
      assert RunDirectory(inputDir, outputDir, ys, first.files) == DirectoryRun([], first.files);
      assert first.results + [] == first.results;
    } else {
      var init := ys[..|ys| - 1];
      var name := ys[|ys| - 1];
      assert (xs + ys)[..|xs + ys| - 1] == xs + init;
      assert (xs + ys)[|xs + ys| - 1] == name;
      RunAppend(inputDir, outputDir, xs, init, files);
      var mid := RunDirectory(inputDir, outputDir, init, first.files);
      if EndsWith(name, ".txt") {
        var r := ProcessName(inputDir, outputDir, mid.files, name);
        assert (first.results + mid.results) + [r] == first.results + (mid.results + [r]);
      }
    }
  }

  /**
   * A run reads what an earlier run of the same loop wrote: in any listing
   * `pre + [a] + mid + [b]` where the input path of `b` is the results path
   * of `a` and no `.txt` name in `mid` writes that path again, the run for
   * `b` sees the numbers written for `a`.
   */
  lemma {:induction false} RunSeesEarlierWrite(inputDir: string, outputDir: string, pre: seq<string>,
                                               a: string, mid: seq<string>, b: string,
                                               files: map<string, seq<string>>)
    requires EndsWith(a, ".txt") && EndsWith(b, ".txt")
    requires JoinPath(inputDir, b) == ResultPath(outputDir, a)
    requires forall n :: n in TextFiles(mid) ==> ResultPath(outputDir, n) != ResultPath(outputDir, a)
    ensures
      var run := RunDirectory(inputDir, outputDir, pre + [a] + mid + [b], files);
      var ra := ProcessName(inputDir, outputDir, RunDirectory(inputDir, outputDir, pre, files).files, a);
      && |run.results| == |TextFiles(pre)| + |TextFiles(mid)| + 2
      && run.results[|TextFiles(pre)|] == ra
      && (ra.Written? ==>
            run.results[|run.results| - 1] == ProcessFile(Some(ReadLines(ra.text)), JoinPath(outputDir, b)))
  {
    var p := ResultPath(outputDir, a);
    var before := RunDirectory(inputDir, outputDir, pre, files);
    var ra := ProcessName(inputDir, outputDir, before.files, a);
    var xs := pre + [a];
    var upToA := RunDirectory(inputDir, outputDir, xs, files);
    assert upToA == DirectoryRun(before.results + [ra], Store(before.files, ra)) by {
      RunLastName(inputDir, outputDir, pre, a, files);
    }
    var between := RunDirectory(inputDir, outputDir, mid, upToA.files);
    assert RunDirectory(inputDir, outputDir, xs + mid, files) ==
           DirectoryRun(upToA.results + between.results, between.files) by {
      RunAppend(inputDir, outputDir, xs, mid, files);
    }
    var rb := ProcessName(inputDir, outputDir, between.files, b);
    var results := (upToA.results + between.results) + [rb];
    assert RunDirectory(inputDir, outputDir, pre + [a] + mid + [b], files).results == results by {
      assert pre + [a] + mid + [b] == (xs + mid) + [b];
      RunLastName(inputDir, outputDir, xs + mid, b, files);
    }
    assert |before.results| == |TextFiles(pre)| && |between.results| == |TextFiles(mid)| by {
      RunCount(inputDir, outputDir, pre, files);
      RunCount(inputDir, outputDir, mid, upToA.files);
    }
    assert results[|before.results|] == ra;
    if ra.Written? {
      assert Lookup(between.files, p) == Some(ReadLines(ra.text)) by {
        ProcessNameWrites(inputDir, outputDir, before.files, a);
        WrittenIsStored(before.files, ra, outputDir, a);
        RunKeepsOtherPaths(inputDir, outputDir, mid, upToA.files, p);
      }
      ProcessNameReads(inputDir, outputDir, between.files, b, ReadLines(ra.text));
    }
  }

  /** A name whose input path holds `lines` is processed on exactly those lines. */
  lemma ProcessNameReads(inputDir: string, outputDir: string, files: map<string, seq<string>>,
                         name: string, lines: seq<string>)
    requires Lookup(files, JoinPath(inputDir, name)) == Some(lines)
    ensures ProcessName(inputDir, outputDir, files, name) == ProcessFile(Some(lines), JoinPath(outputDir, name))
  {
  }

  /** A `.txt` name at the end of a listing adds its own result to the run before it. */
  lemma RunLastName(inputDir: string, outputDir: string, xs: seq<string>, name: string,
                    files: map<string, seq<string>>)
    requires EndsWith(name, ".txt")
    ensures
      var before := RunDirectory(inputDir, outputDir, xs, files);
      var r := ProcessName(inputDir, outputDir, before.files, name);
      RunDirectory(inputDir, outputDir, xs + [name], files) == DirectoryRun(before.results + [r], Store(before.files, r))
  {
    var names := xs + [name];
    assert names[..|names| - 1] == xs && names[|names| - 1] == name;
  }

  /** A processed name writes, if anything, its own results path. */
  lemma ProcessNameWrites(inputDir: string, outputDir: string, files: map<string, seq<string>>, name: string)
    ensures ProcessName(inputDir, outputDir, files, name).Written? ==>
      ProcessName(inputDir, outputDir, files, name).path == ResultPath(outputDir, name)
  {
  }

  /** Storing a result leaves every other path alone. */
  lemma StoreKeepsOther(files: map<string, seq<string>>, r: FileResult, p: string)
    requires r.Written? ==> r.path != p
    ensures Lookup(Store(files, r), p) == Lookup(files, p)
  {
  }

  /** A written result is what its results path holds afterwards. */
  lemma WrittenIsStored(files: map<string, seq<string>>, r: FileResult, outputDir: string, name: string)
    requires r.Written? ==> r.path == ResultPath(outputDir, name)
    ensures r.Written? ==> Lookup(Store(files, r), ResultPath(outputDir, name)) == Some(ReadLines(r.text))
  {
  }

  /** Appending one processed name keeps results and names in step. */
  lemma ResultsExtend(inputDir: string, outputDir: string, files: map<string, seq<string>>,
                      rs: seq<FileResult>, names: seq<string>, r: FileResult, name: string)
    requires |rs| == |names|
    requires forall k :: 0 <= k < |rs| ==> rs[k] == ProcessName(inputDir, outputDir, files, names[k])
    requires r == ProcessName(inputDir, outputDir, files, name)
    ensures forall k :: 0 <= k < |rs| + 1 ==>
      (rs + [r])[k] == ProcessName(inputDir, outputDir, files, (names + [name])[k])
  {
    forall k | 0 <= k < |rs| + 1
      ensures (rs + [r])[k] == ProcessName(inputDir, outputDir, files, (names + [name])[k])
    {
      if k < |rs| {
        assert (rs + [r])[k] == rs[k] && (names + [name])[k] == names[k];
      }
    }
  }

  /**
   * `handle_directory`: for each listed name ending in `.txt`, in listing
   * order, `handle_file` on that name inside the input directory, writing
   * next to that name inside the output directory. `files` maps each path
   * that exists when the run starts to its lines; each written results file
   * is added to it before the next name is read.
   */
  method HandleDirectory(inputDir: string, outputDir: string, listing: seq<string>,
                         files: map<string, seq<string>>)
    returns (results: seq<FileResult>, after: map<string, seq<string>>)
    ensures DirectoryRun(results, after) == RunDirectory(inputDir, outputDir, listing, files)
    ensures |results| == |TextFiles(listing)|
  {
    results, after := [], files;
    for i := 0 to |listing|
      invariant DirectoryRun(results, after) == RunDirectory(inputDir, outputDir, listing[..i], files)
    {
      var fileName := listing[i];
      assert listing[..i + 1][..i] == listing[..i];
      if EndsWith(fileName, ".txt") {
        var inputFilepath := JoinPath(inputDir, fileName);
        var outputFilepath := JoinPath(outputDir, fileName);
        var r := HandleFile(Lookup(after, inputFilepath), outputFilepath);
        results, after := results + [r], Store(after, r);
      }
    }
    assert listing[..|listing|] == listing;
    RunCount(inputDir, outputDir, listing, files);
  }
}
