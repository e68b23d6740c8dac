# Distinct integer handler, modelled in Dafny

This project models `DistinctIntegerHandler` from `dsa/hw01/code/src/distinct-int-handler.py`.
`dsa/hw01/code/src/unique-int.py` is a byte-for-byte copy of that file, so one model covers both.
The handler reads text files and writes, for each one, the distinct integers it contains:

- `handle_line` splits a line on whitespace. It keeps, in token order, every token that `int()` accepts and whose value lies in [-1023, 1023]. Every other token is dropped without an error.
- `handle_file` collects the approved numbers of every line into one set. It turns the set into a list and sorts that list with a hand-written top-down merge sort (`merge_sort` and its inner `merge`). It then writes each number in decimal followed by a line break to the output path with `_results.txt` appended.
- `handle_directory` runs `handle_file` for every listed name that ends in `.txt`.

Files:

- `tokens.dfy` (module `Tokens`): splitting on whitespace, the integer-token test, `int()` and decimal printing.
- `sorting.dfy` (module `Sorting`): `merge` and `merge_sort`. The function `Merge` specifies `merge`. `MergeLists` is the `while`/`pop(0)` loop, proved equal to `Merge`. `MergeSort` is the recursion over slices.
- `handler.dfy` (module `DistinctIntegerHandler`): `handle_line`, `handle_file` and `handle_directory`.

The file system is modelled as values:

- a file's contents are its sequence of lines, or `None` when the file does not exist;
- a directory is its listing plus a map from path to lines;
- what a run writes is returned as a `FileResult`: `InputMissing`, or `Written(path, text)`;
- a directory run also returns the map as it leaves it: each written results file replaces that path's lines before the next name is read, so a later name can read a file the same run wrote under the same path string. Paths are map keys compared as strings (see "## Left out").

The specification of a whole file run is the ghost function `ProcessFile`. It writes `Emit(Ascending(Found(lines)))` to `outputPath + "_results.txt"`:

- `Found` is the set of numbers approved on any line;
- `Ascending` lists a finite set in strictly ascending order;
- `Emit` prints one decimal number and a line break per element.

## Model

| member | source | states |
|---|---|---|
| `Tokens.LayoutOfWords` | dsa/hw01/code/src/distinct-int-handler.py:7 | `split()` loses and invents nothing: every line is its tokens, each non-empty and whitespace-free, laid out with whitespace runs around them, non-empty between two tokens |
| `Tokens.WordsOfLayout` | dsa/hw01/code/src/unique-int.py:7 | conversely, non-empty whitespace-free words separated by any non-empty whitespace runs, with any leading and trailing whitespace, split back into exactly those words, in order |
| `Tokens.IsInteger` | dsa/hw01/code/src/distinct-int-handler.py:16-22 | a token `is_integer` accepts is non-empty and contains no whitespace |
| `Tokens.ParseInt` | dsa/hw01/code/src/distinct-int-handler.py:11 | `int()` of a token with a leading `-` is at most zero, of any other accepted token at least zero |
| `Tokens.IntToString` | dsa/hw01/code/src/distinct-int-handler.py:68 | `f"{number}"` is in canonical form (no `+`, no `-0`, no leading zero) and starts with `-` exactly for negative numbers |
| `Tokens.IntToStringRoundTrip` | dsa/hw01/code/src/distinct-int-handler.py:16-22 | the decimal text of any integer passes the `is_integer` test and `int()` of it is that integer |
| `Tokens.CanonicalRoundTrip` | dsa/hw01/code/src/unique-int.py:11 | a token in canonical form is accepted, and printing its `int()` value gives back exactly that token |
| `DistinctIntegerHandler.AcceptedInRange` | dsa/hw01/code/src/distinct-int-handler.py:12-13 | every number `handle_line` approves lies in [-1023, 1023] |
| `DistinctIntegerHandler.AcceptedMember` | dsa/hw01/code/src/distinct-int-handler.py:9-13 | a number is approved iff some token is an integer that denotes it and the number is in range; every other token is dropped |
| `DistinctIntegerHandler.AcceptedAppend` | dsa/hw01/code/src/distinct-int-handler.py:9-14 | tokens are handled left to right: the approved numbers of `a + b` are those of `a` followed by those of `b` |
| `DistinctIntegerHandler.HandleLine` | dsa/hw01/code/src/distinct-int-handler.py:5-14 | the append loop returns exactly the approved numbers of the line's tokens, in token order, all within [-1023, 1023] |
| `Sorting.Merge` | dsa/hw01/code/src/distinct-int-handler.py:29-37 | the merged list holds exactly the elements of both inputs, each as often (multiset union), and its length is the sum of theirs |
| `Sorting.MergeSorted` | dsa/hw01/code/src/distinct-int-handler.py:29-37 | merging two ascending lists yields an ascending list |
| `Sorting.MergeLists` | dsa/hw01/code/src/unique-int.py:29-37 | the `pop(0)` loop followed by `extend(left or right)` computes `Merge`; its result is the multiset union of the inputs, ascending when both inputs are |
| `Sorting.MergeSort` | dsa/hw01/code/src/distinct-int-handler.py:24-43 | the result is ascending and a permutation of the input (same multiset, same length); a list of length at most one comes back unchanged |
| `DistinctIntegerHandler.Found` | dsa/hw01/code/src/distinct-int-handler.py:51-60 | every number in the accumulated set lies in [-1023, 1023] |
| `DistinctIntegerHandler.FoundMember` | dsa/hw01/code/src/distinct-int-handler.py:57-60 | a number is in the accumulated set iff `handle_line` approves it on some line |
| `DistinctIntegerHandler.ListOf` | dsa/hw01/code/src/distinct-int-handler.py:63 | `list(unique_numbers)` holds every element of the set exactly once (equal multisets), in an unspecified order |
| `DistinctIntegerHandler.Ascending` | dsa/hw01/code/src/distinct-int-handler.py:62-63 | the sorted unique numbers: a strictly increasing sequence whose elements are exactly the set's |
| `DistinctIntegerHandler.StrictlyIncreasingUnique` | dsa/hw01/code/src/distinct-int-handler.py:62-63 | two strictly increasing sequences with the same elements are equal, so the sorted unique output is fully determined by the set |
| `DistinctIntegerHandler.SortedListOfSet` | dsa/hw01/code/src/distinct-int-handler.py:63 | sorting any listing of a set yields that set in strictly ascending order, whatever order the listing had |
| `DistinctIntegerHandler.WriteResults` | dsa/hw01/code/src/distinct-int-handler.py:66-68 | the write loop produces `Emit(numbers)`: each number in decimal followed by a line break, in list order, nothing else |
| `DistinctIntegerHandler.ReadLines` | dsa/hw01/code/src/distinct-int-handler.py:58 | iterating over a file yields non-empty lines that concatenate back to its whole text; a line break occurs only at the end of a line, and every line but the last ends with one |
| `DistinctIntegerHandler.ReadLinesOfEmit` | dsa/hw01/code/src/unique-int.py:66-68 | the written text consists of exactly one line per number, in order, and line `i` is the decimal text of number `i` followed by a line break |
| `DistinctIntegerHandler.HandleFile` | dsa/hw01/code/src/distinct-int-handler.py:45-68 | a missing input writes nothing; otherwise the text `Emit(Ascending(Found(lines)))` is written to the output path with `_results.txt` appended |
| `DistinctIntegerHandler.ResultsAreDistinctSorted` | dsa/hw01/code/src/distinct-int-handler.py:51-63 | the numbers written are strictly increasing (no duplicates), all in range, and are exactly the in-range integers that occur as a token on some input line |
| `DistinctIntegerHandler.OneNumberLine` | dsa/hw01/code/src/unique-int.py:5-14 | `handle_line` on a written results line returns exactly the number written on it |
| `DistinctIntegerHandler.ResultsAreStable` | dsa/hw01/code/src/distinct-int-handler.py:45-68 | running `handle_file` on its own results file writes the same text again |
| `DistinctIntegerHandler.JoinPath` | dsa/hw01/code/src/distinct-int-handler.py:76-77 | `os.path.join` on POSIX: the joined path always ends with the name |
| `DistinctIntegerHandler.TextFilesMember` | dsa/hw01/code/src/distinct-int-handler.py:74-75 | a listed name is processed iff it ends with `.txt` |
| `DistinctIntegerHandler.HandleDirectory` | dsa/hw01/code/src/distinct-int-handler.py:72-78 | the loop computes `RunDirectory`: one `handle_file` run per listed `.txt` name, in listing order, reading `input_dir/name` as the earlier runs left the file system and writing `output_dir/name` + `_results.txt` before the next name; other names are skipped, so there is one result per `.txt` name |
| `DistinctIntegerHandler.RunCount` | dsa/hw01/code/src/distinct-int-handler.py:74-78 | a directory run produces exactly one file result per listed name ending in `.txt` |
| `DistinctIntegerHandler.RunKeepsOtherPaths` | dsa/hw01/code/src/distinct-int-handler.py:66 | a path string that is not the results path of any listed `.txt` name reads the same after the run as before (paths compared as strings) |
| `DistinctIntegerHandler.RunWithoutFeedback` | dsa/hw01/code/src/unique-int.py:72-78 | when no listed `.txt` name's results path is spelled like the input path of a listed `.txt` name, each `.txt` name is processed exactly as against the file system before the run |
| `DistinctIntegerHandler.RunAppend` | dsa/hw01/code/src/distinct-int-handler.py:74-78 | a directory run over two listings one after the other is the run over the first, then the run over the second on the file system the first left behind |
| `DistinctIntegerHandler.RunSeesEarlierWrite` | dsa/hw01/code/src/distinct-int-handler.py:57-58 | in any listing `pre + [a] + mid + [b]` of `.txt` names `a` and `b`, where `b`'s input path is `a`'s results path and no `.txt` name in `mid` writes that path again: `a`'s result comes right after those of `pre`, and when it was written, `b` is processed on the lines just written for `a`, not on the file system as it was before the run |

## Left out

- File-system and console I/O are not modelled: `os.path.exists`, `open`, reading, writing, `print`, `os.listdir`, `os.makedirs` and `sys.exit`. Existence is the `Option` around a file's lines. A directory is a listing plus a path-to-lines map. What would be written is returned as a value.
- `main` (lines 81-109) is not modelled. It resolves paths relative to the script and creates the output directory.
- `open()` can fail on a listed `.txt` name, for example a sub-directory, an unreadable file or undecodable bytes. These exceptions are not modelled: the model assumes every existing path reads as lines.
- Tokens.IsInteger accepts only an optional ASCII `+` or `-` followed by ASCII decimal digits, of any length. Python's `int()` also accepts underscores between digits (`1_000`) and non-ASCII Unicode decimal digits; the model rejects such tokens. In the other direction, CPython 3.11 and later (and the 3.7.14, 3.8.14, 3.9.14 and 3.10.7 security releases) raise `ValueError` for a string of more than 4300 digits, leading zeros included, unless `sys.set_int_max_str_digits` raises the limit; the model accepts such tokens, which is the behaviour of earlier Pythons.
- DistinctIntegerHandler.ReadLines splits on line feeds only. Text mode's universal-newline translation of `\r\n` and `\r` into `\n` is not modelled; since `\r` is whitespace to `split()`, the approved numbers are unchanged by it, only the line boundaries differ.
- Tokens.Words treats only the ASCII whitespace characters as separators: space, tab, line feed, vertical tab, form feed, carriage return, and the characters 0x1C-0x1F. Python's `str.split()` also splits on non-ASCII whitespace such as U+0085 and U+00A0.
- DistinctIntegerHandler.ListOf picks the set's elements in an arbitrary order. It does not reproduce CPython's hash-table order. The merge sort's result does not depend on this order (`SortedListOfSet`).
- The quadratic cost of `pop(0)` in `merge` is not modelled. `MergeLists` takes list heads by slicing.
- The status messages `handle_file` prints are not modelled.
- DistinctIntegerHandler.HandleDirectory identifies a file by the spelling of its path: the file system is a map from path strings, with no normalisation (`./d/x`, `d/x` and `d//x` are different keys) and no symbolic links, hard links or case-insensitive volumes. A later name therefore sees an earlier name's results file only when its input path is spelled exactly like that results path; when two different spellings name the same file on a real file system, the source reads the freshly written file but the model reads the entry the map held before the run.
- DistinctIntegerHandler.RunKeepsOtherPaths inherits this: "other paths" are other path strings, so a differently spelled alias of a written results file is stated unchanged, although on a real file system it would show the new contents.
- DistinctIntegerHandler.RunWithoutFeedback inherits this: `NoFeedback` compares spellings, so it can hold while the source feeds a results file back through an aliased path.
