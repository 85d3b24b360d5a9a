# pyualg stack capture, modelled in Dafny

`take_it_offline` freezes the running Python call stack into two files.
- A pickle holds one row per relevant stack frame. Each row has the frame's file, function and line, its sanitised local variables, their names, and a few numbered lines of source around the active line.
- A Jupyter notebook reloads that pickle and re-creates the session: it restores `sys.path`, repeats the imports and gives each frame a group of cells.

The repository has two variants of the routine:
- `alkh/dump_data.py`, the newer one. It copies `self` without its unpicklable attributes, has more name filters, and reports the variables it could not pickle.
- `core/dump_data.py`, the older one.

This project models the decision and formatting logic of both variants on values and proves what each step promises. The services the routine calls are parameters of the model:
- the stack is a sequence of `Frame` records;
- `pickle.dumps` is a `Probe` that pickles a value or raises an exception of a given class;
- reading a file is a `Reader` that returns its lines, or `None` when `open` raises;
- `os.getenv`, `os.path.isdir`, `uuid.uuid4` and `sys.path` are plain arguments.

Modules, in dependency order:
- `Base` holds the shared values: a namespace is a sequence of `Binding`s in dict insertion order, and errors are a `Result`.
- `Text` holds the string operations the code uses (`strip`, `rstrip`, `str()` of an int, `"\n".join`, slicing).
- `Pattern` holds the few regular expressions as sequences of atoms.
- `Stack` holds the frame filter.
- `Sanitize` holds the generic loop over a namespace.
- `Context` holds the context window.
- `OutputDir` holds the output-directory resolution.
- `Cells` holds the cell texts shared by both variants.
- `Alkh` and `Core` hold the two variable sanitisers.
- `Rows` holds `_make_stack_df`.
- `Imports` holds the user-import cell.
- `Files` holds the output file names.
- `AlkhNotebook` and `CoreNotebook` hold the two notebooks and the two `take_it_offline`s.

## Model

| member | source | states |
|---|---|---|
| Base.Names | alkh/dump_data.py:121-122 | `_get_keys`: the key list has one entry per binding, and entry k is the name of binding k |
| Base.NameIn | alkh/dump_data.py:121-122 | a name is in the key list iff some binding has that name |
| Text.RStrip | alkh/dump_data.py:209 | `rstrip()` returns a prefix of the line |
| Text.RStripTrims | alkh/dump_data.py:209 | what `rstrip()` removes is whitespace, and what it leaves does not end in whitespace |
| Text.Strip | alkh/dump_data.py:75 | `strip()` returns the piece of the line between a whitespace prefix and a whitespace suffix, and that piece neither starts nor ends with whitespace |
| Text.LStripOfRStrip | alkh/dump_data.py:75 | stripping the left of the right-stripped line leaves the characters between its leading and its trailing whitespace |
| Text.NatToStringRoundTrip | alkh/dump_data.py:85 | the decimal index printed into an insert statement reads back as that index |
| Text.NatToStringInjective | alkh/dump_data.py:53-54 | different row indices print differently |
| Text.SplitJoinLines | alkh/dump_data.py:86 | `"\n".join` of newline-free lines splits back into exactly those lines |
| Text.PySlice | alkh/dump_data.py:199 | Python's slice `s[i:j]`: with bounds inside the list it is the elements from i up to j; a stop past the end stops at the end; a negative bound counts from the end; a stop at or before the start gives nothing |
| Text.PyRange | alkh/dump_data.py:198 | `range(i, j)` holds j - i consecutive numbers starting at i, or none when j <= i |
| Pattern.SearchLiteral | alkh/dump_data.py:161 | searching for a pattern without metacharacters finds a match exactly when the name contains it |
| Stack.KeepFrames | alkh/dump_data.py:112 | the filter never adds a frame |
| Stack.KeepFramesExactly | alkh/dump_data.py:111-112 | a frame is kept iff it is on the stack and its path matches none of the noise patterns |
| Stack.KeepFramesInOrder | core/dump_data.py:70-74 | the kept frames are a subsequence of the stack: their relative order is unchanged |
| Stack.KeepFramesCounts | alkh/dump_data.py:111-112 | every frame whose path matches no pattern is kept as many times as it occurs on the stack, and every other frame not at all |
| Stack.KeepFramesNoNoise | core/dump_data.py:70-74 | a stack without noise is kept whole |
| Sanitize.FoldOkIff | alkh/dump_data.py:155-171 | the loop over the namespace finishes iff no binding raises an exception the loop does not handle |
| Sanitize.FoldErrIsFirstAbort | alkh/dump_data.py:164-171 | when the loop raises, the exception is the one from the first binding that raises an unhandled one |
| Sanitize.FoldKeptIff | alkh/dump_data.py:163-168 | a binding is in the kept dict iff some namespace entry was decided to be kept as it |
| Sanitize.FoldNotPickledIff | alkh/dump_data.py:169-170 | a name is in the not-pickled list iff some namespace entry of that name was decided to be unpicklable |
| Sanitize.FoldKeptInOrder | alkh/dump_data.py:151-168 | the kept dict lists the kept entries in namespace order |
| Sanitize.FoldErrExtends | alkh/dump_data.py:155-171 | once the loop has raised, the bindings after that point do not matter |
| Sanitize.FoldStep | alkh/dump_data.py:155-171 | one more iteration extends the state of the loop by the decision for the next binding |
| Sanitize.FoldSize | alkh/dump_data.py:155-171 | every binding ends up in at most one of the kept dict and the not-pickled list |
| Context.CreateNumbersWithLinesList | alkh/dump_data.py:206-211 | one line per pair of the zip, as many as the shorter list, and line k is number k, `": "`, then line k right-stripped |
| Context.GetContextLines | alkh/dump_data.py:188-203 | `_get_context_lines` starts with the file path and holds at most five more lines; ContextWindow says which |
| Context.ContextWindow | alkh/dump_data.py:188-203 | the context is the path, then the file lines start..end-1 in order, each numbered with its index; there are at most five, every index is inside the file, and there are none iff start >= end |
| Context.ContextShowsActiveLine | alkh/dump_data.py:195-199 | when the line number is inside the file, the active line (index lineno - 1) is in the context |
| Context.ContextInsideFile | core/dump_data.py:146-153 | line 10 of a 20-line file shows indices 7 to 11 |
| Context.ContextAtFirstLine | core/dump_data.py:146-153 | line 1 shows indices 0 to 2: the window is clipped at the start of the file |
| Context.ContextAtLastLine | core/dump_data.py:146-153 | the last line shows only up to the end of the file: the window is clipped there |
| OutputDir.GetNotebookDirPath | alkh/dump_data.py:97-105 | with no argument and no environment variable it raises EnvironmentError with the fixed message; it returns a path iff the argument, or the environment value when there is no argument, is a directory, and then that path; when the path it resolved is not a directory it raises OSError naming that path |
| OutputDir.ArgumentTakesPrecedence | core/dump_data.py:56-64 | given an argument, the environment is not consulted |
| Cells.RowCellsDiffer | alkh/dump_data.py:53-54 | the context and locals cells of different rows differ |
| Cells.FixedImportsCellLines | alkh/dump_data.py:39-40 | the fixed import cell holds exactly the two fixed import lines |
| Alkh.RelevantFrames | alkh/dump_data.py:111-112 | a frame is kept iff its path contains none of the six noise patterns; the kept frames keep their order |
| Alkh.CollectKeysToDelete | alkh/dump_data.py:216-221 | the first loop collects the names of exactly the attributes that fail the probe, in dict order |
| Alkh.DeleteKeys | alkh/dump_data.py:222-223 | the second loop leaves the attributes whose names were not collected |
| Alkh.PicklableObject | alkh/dump_data.py:214-224 | the copy exists iff the value is an instance; otherwise AttributeError is raised; the copy has the instance's class, and each of its attributes is one of the instance's and pickles |
| Alkh.GetPicklableObject | alkh/dump_data.py:214-224 | the method returns the copy the specification function describes; a value without `__dict__` raises AttributeError |
| Alkh.FailingNamesIff | alkh/dump_data.py:217-221 | a name is collected iff some attribute of that name fails the probe |
| Alkh.WithoutNamesMembers | alkh/dump_data.py:222-223 | after the deletions an attribute remains iff it was there and its name was not deleted; the remaining ones keep their order |
| Alkh.WithoutNamesTwice | alkh/dump_data.py:222-223 | deleting one set of names and then another is the same as deleting both at once |
| Alkh.WithoutNoNames | alkh/dump_data.py:222-223 | deleting no names leaves the dict as it was |
| Alkh.CopyDropsExactlyTheFailingAttributes | alkh/dump_data.py:214-224 | every attribute whose name is not a failing name stays on the copy, every one that stays pickles, and with unique names every attribute that pickles stays; the order is unchanged |
| Alkh.CopyNames | alkh/dump_data.py:214-224 | the copy's attribute names are the original's minus exactly the failing names |
| Alkh.NoFailingNames | alkh/dump_data.py:217-221 | when every attribute pickles, nothing is collected |
| Alkh.PicklableObjectIdempotent | alkh/dump_data.py:214-224 | copying the copy changes nothing |
| Alkh.Decide | alkh/dump_data.py:155-171 | one iteration: skipped iff a filter rejects the binding; reported iff it passes the filters and the copy or the probe raises a handled exception; raises iff an unhandled one is raised; a kept value pickles and is not code, and it is the binding's own value or, for `self`, the copy |
| Alkh.VisitBinding | alkh/dump_data.py:156-171 | the loop body for one binding: its fate is the one specified, and afterwards locals_dict holds the copy in place of `self` exactly when the filters pass and the copy succeeds |
| Alkh.GetRelevantLocals | alkh/dump_data.py:126-177 | the loop returns the specified result; the report is printed once, only when some name could not be pickled, and it names the set of those names; the namespace afterwards holds the copy in place of `self` |
| Alkh.RelevantLocals | alkh/dump_data.py:126-177 | each binding lands in at most one of the kept dict and the not-pickled list; an exception that escapes is of a class the loop does not handle |
| Alkh.KeptOnlyIfAllowed | alkh/dump_data.py:127-168 | a kept binding passed the denylist, the three name patterns and the three kind checks, and pickles; it is the namespace's own binding, or for `self` the copy of the namespace's receiver |
| Alkh.AllowedPicklableKept | alkh/dump_data.py:163-168 | conversely, every binding that passes all seven conditions and pickles (for `self`, whose copy pickles) is kept |
| Alkh.NotPickledExactly | alkh/dump_data.py:164-170 | a name is reported iff a binding of that name passes the filters and the copy or the probe raises PickleError, TypeError or AttributeError |
| Alkh.UncaughtPropagates | alkh/dump_data.py:164-171 | the loop finishes iff no binding that passes the filters raises an exception of another class; when one does, that exception propagates |
| Alkh.KeptInNamespaceOrder | alkh/dump_data.py:151-168 | the kept dict is a sub-dict of the namespace after the loop, in insertion order, with unique names |
| Alkh.NamespaceAfterOnlyTouchesSelf | alkh/dump_data.py:165-166 | the loop overwrites only `self`, and only with the copy of itself |
| Alkh.DebugTempNeverKept | alkh/dump_data.py:161-163 | a name containing `__py_debug_temp_var` is never kept, whatever its value |
| Alkh.RejectedNames | alkh/dump_data.py:127-162 | `_i3`, `x_1`, `Out` and `__py_debug_temp_var_0` are rejected by the name filters |
| Alkh.KeptLocals | alkh/dump_data.py:179-182 | the dict stored for a frame is the kept dict of its namespace, and the frame fails exactly when its loop raises |
| AlkhNotebook.StackDf | alkh/dump_data.py:108-118 | `_make_stack_df` of the newer variant has one row per kept frame, in order, each with that frame's path and no more locals than the frame has |
| Rows.FrameLocals | alkh/dump_data.py:184 | every frame is sanitised in order; the column exists iff no sanitiser raises; otherwise the error is one a frame raised |
| Rows.Contexts | alkh/dump_data.py:117 | every row's context is read from its own file; the column exists iff every file opens; otherwise the error names a file of the stack that would not open |
| Rows.MakeStackRows | alkh/dump_data.py:108-118 | there is one row per kept frame, in order; a row holds the frame's location, its kept dict, that dict's names and its context; the rows exist iff every sanitiser succeeds and every file opens |
| Rows.LocalsBeforeContext | alkh/dump_data.py:114-117 | every namespace is sanitised before any file is read: a sanitiser error wins over an unreadable file |
| Rows.RowsFromRelevantFrames | core/dump_data.py:67-79 | every row comes from a frame of the stack whose path is not noise |
| Imports.ImportLinesOf | alkh/dump_data.py:75 | the comprehension keeps at most as many lines as the file has |
| Imports.ImportLinesOfExactly | alkh/dump_data.py:75 | the harvested lines are exactly the stripped lines that contain ` import ` or start with `import ` |
| Imports.Unique | alkh/dump_data.py:71 | `unique()` holds each file path once |
| Imports.CollectImportLines | alkh/dump_data.py:72-76 | harvesting succeeds iff every file opens; otherwise it raises for a file that would not open |
| Imports.CollectedExactly | alkh/dump_data.py:72-76 | the collected lines are exactly the import lines of the files, stripped |
| Imports.CollectErrExtends | alkh/dump_data.py:73-74 | the first file that would not open ends the loop |
| Imports.ListOfSet | alkh/dump_data.py:77 | `list(set)` lists every element exactly once |
| Imports.CreateUserPackagesImportString | alkh/dump_data.py:70-79 | the cell exists iff every file opens; it joins, in some order, each user import line once, without the fixed imports |
| Imports.UserImportsCell | alkh/dump_data.py:70-79 | a line is in the cell iff it is not a fixed import and some file on the stack has it as an import line; this holds also when there is no user import and the cell is empty |
| Imports.UserImportsCellLines | alkh/dump_data.py:77-79 | when there are user imports and none holds a newline, the cell splits back into exactly the enumerated lines, each a user import of a file on the stack |
| Files.RemoveDashes | alkh/dump_data.py:16 | `replace('-', '')` leaves no dash and removes as many characters as there are dashes; on one character it drops a dash and keeps anything else |
| Files.RemoveDashesAppend | alkh/dump_data.py:16 | `replace` works piece by piece: on a concatenation it is the concatenation of the replaced pieces, so the non-dash characters are kept in order |
| Files.RandomNameOfUuid | alkh/dump_data.py:16 | the random name of a uuid is its 32 hex digits: its five groups, in order |
| Files.UuidGroups | alkh/dump_data.py:16 | removing the dashes of a uuid concatenates its groups of 8, 4, 4, 4 and 12 digits |
| Files.DashesBefore | alkh/dump_data.py:16 | the dashes of a uuid are exactly those at positions 8, 13, 18 and 23 |
| Files.HexDigitsKept | alkh/dump_data.py:16 | removing the dashes of a uuid leaves only hex digits |
| Files.RemovedCharsComeFrom | alkh/dump_data.py:16 | every character of the random name is a non-dash character of the uuid |
| Files.PathJoin | alkh/dump_data.py:18-19 | `os.path.join` returns an absolute second part unchanged; otherwise it is the directory and the name, with one `/` between them added only when the directory is not empty and does not end in `/` |
| Files.PathJoinAppend | alkh/dump_data.py:18-19 | joining a name and then appending an extension is joining the name with the extension |
| Files.SameBaseName | alkh/dump_data.py:16-19 | the pickle and the notebook lie in the same directory under the same base name |
| AlkhNotebook.CreateAppendToSysPathString | alkh/dump_data.py:82-87 | the loop builds `import sys` followed by one insert statement per entry |
| AlkhNotebook.InsertLineRoundTrip | alkh/dump_data.py:85 | an insert statement reads back as its index and path |
| AlkhNotebook.InsertsAfter | alkh/dump_data.py:84-85 | running the remaining inserts places the remaining entries after the ones already inserted |
| AlkhNotebook.InsertsRestoreSearchPath | alkh/dump_data.py:84-85 | running the statements in a fresh session puts every captured entry, in its original order, in front of the new session's own path |
| AlkhNotebook.SysPathCellDecodes | alkh/dump_data.py:82-87 | the cell has one line more than the search path has entries: `import sys`, then line i+1 reads back as insert (i, entry i) |
| AlkhNotebook.RebindLinesDiffer | alkh/dump_data.py:92 | the rebinding lines of different names or rows differ |
| AlkhNotebook.VariablesCellLines | alkh/dump_data.py:90-94 | the rebinding cell has one line per kept name, in order, each binding that name to its pickled value |
| AlkhNotebook.VariablesCellSource | alkh/dump_data.py:90-94 | a frame without kept variables gives an empty rebinding cell, and one with a single variable gives its one rebinding line |
| AlkhNotebook.StackCellsGroups | alkh/dump_data.py:51-56 | the stack cells are three per row, in row order |
| AlkhNotebook.CreateStackCells | alkh/dump_data.py:51-56 | the loop over the rows builds the specified stack cells |
| AlkhNotebook.CreateNotebookObject | alkh/dump_data.py:32-67 | the notebook exists iff every file on the stack opens; it is the specified layout with some order of the user imports |
| AlkhNotebook.NotebookLayout | alkh/dump_data.py:58-66 | the notebook has 5 + 3n cells: title, sys.path, fixed imports, user imports and the reload cell, then context, locals and rebinding for row k at the cells 5+3k to 7+3k |
| AlkhNotebook.ImportsReadableOnceRowsExist | alkh/dump_data.py:71-74 | once the rows exist, harvesting the imports cannot fail, because it opens only files the rows were read from |
| AlkhNotebook.TakeItOffline | alkh/dump_data.py:14-29 | with a resolvable directory and a capturable stack, the capture writes the pickle of the rows and the notebook under the uuid's name in that directory; a directory error is raised first, then a stack error |
| AlkhNotebook.OneGroupPerRelevantFrame | alkh/dump_data.py:51-56 | the notebook has one group per kept frame, and group k rebinds exactly the variables kept from frame k |
| Core.Decide | core/dump_data.py:115-126 | one iteration: skipped iff a filter rejects the binding; kept unchanged iff it passes and pickles; dropped silently on PickleError or TypeError; any other exception raises |
| Core.GetRelevantLocals | core/dump_data.py:87-128 | the loop returns the specified dict |
| Core.RelevantLocals | core/dump_data.py:87-128 | the kept dict has at most as many entries as the namespace; an exception that escapes is neither PickleError nor TypeError |
| Core.KeptExactly | core/dump_data.py:88-124 | a binding is kept iff it is in the namespace, passes the filters and pickles; the kept dict is a sub-dict in insertion order with unique names, and `self` is never kept |
| Core.UncaughtPropagates | core/dump_data.py:122-126 | the loop finishes iff no binding that passes the filters raises an exception other than PickleError and TypeError; otherwise the exception of the first such binding propagates |
| Core.AttributeErrorPropagatesHere | core/dump_data.py:125 | an AttributeError from pickling propagates here, while the newer variant reports the variable |
| Core.NumberedNameKeptHere | core/dump_data.py:116-121 | a name such as `x_1` is kept here, while the newer variant filters it out |
| Core.StackDf | core/dump_data.py:67-79 | `_make_stack_df` of the older variant has one row per kept frame, in order, each with that frame's path and no more locals than the frame has |
| CoreNotebook.AppendStatements | core/dump_data.py:34-36 | the loop builds `import sys` and a newline, then one append statement and a newline per entry |
| CoreNotebook.SysPathSourceAsWritten | core/dump_data.py:34-37 | the cell text as written: an empty search path raises IndexError, and otherwise, with at least two entries, it appends every entry but the last two and then the last |
| CoreNotebook.CreateSysPathStringAsWritten | core/dump_data.py:34-37 | the cell text as written: the statements for `sys_path_list[:-2]`, then one for the last entry; an empty search path raises IndexError |
| CoreNotebook.CreateSysPathString | core/dump_data.py:34-37 | the corrected cell text, not used by the notebook: the statements for all entries but the last, then one for the last; an empty search path raises IndexError |
| CoreNotebook.AppendLineRoundTrip | core/dump_data.py:36 | an append statement reads back as its path |
| CoreNotebook.CellLines | core/dump_data.py:34-37 | the text splits into the first line and then one append statement per entry |
| CoreNotebook.SysPathCellRestoresEveryEntry | core/dump_data.py:34-37 | the corrected cell has `import sys`, then line i+1 appends entry i, for every entry in order |
| CoreNotebook.AsWrittenLeavesOutSecondToLast | core/dump_data.py:35 | as written, with at least two entries, the cell has one statement fewer than the search path has entries, and no line appends the second-to-last entry |
| CoreNotebook.AsWrittenTwoEntries | core/dump_data.py:35-37 | for the search path ['a', 'b'] the cell as written appends only 'b'; the corrected one appends 'a' and then 'b' |
| CoreNotebook.AsWrittenShortPaths | core/dump_data.py:35-37 | an empty search path raises IndexError; with one entry the cell as written equals the corrected one |
| CoreNotebook.SameFixedImports | core/dump_data.py:40-41 | the fixed import cell is the one of the newer variant |
| CoreNotebook.StackCellsGroups | core/dump_data.py:47-50 | the stack cells are two per row, in row order |
| CoreNotebook.NotebookCells | core/dump_data.py:30-53 | the notebook exists iff the search path is not empty, else IndexError is raised; it has 4 + 2n cells |
| CoreNotebook.CreateNotebookObject | core/dump_data.py:30-53 | the method builds the specified notebook, with the sys.path cell as written |
| CoreNotebook.NotebookLayout | core/dump_data.py:30-53 | the notebook exists iff the search path is not empty; it has 4 + 2n cells: title, the sys.path cell as written, fixed imports and the reload cell, then context and locals for row k at the cells 4+2k and 5+2k |
| CoreNotebook.TakeItOffline | core/dump_data.py:13-27 | the capture succeeds iff the directory resolves, the stack can be captured and the search path is not empty; the errors come in that order; on success it writes the pickle and the notebook, with the sys.path cell as written, under the uuid's name |

## Left out

- `inspect.stack()` and live frames: the stack is a sequence of `Frame` records, and a frame's `f_locals` is a sequence of bindings.
- `pickle.dumps` is the `Probe` parameter. `to_pickle`, `read_pickle` and the bytes they produce are not modelled.
- `isinstance` against `ModuleType`, `FunctionType` and `type` is a tag on the value: `Module`, `Function` or `TypeObj`.
- Regular expressions: only the ones the code uses are modelled, as sequences of atoms. `.` matches any character but a newline. `\\` in `alkh\\dump_data.py` is a literal backslash.
- Alkh.PicklableObject: `copy.copy` is modelled only as a copy of the instance's attribute dict. Any other value has no `__dict__` and raises AttributeError.
- Alkh.GetRelevantLocals: the source writes the copy of `self` back into the live `f_locals` dict. The model returns the namespace after the loop instead of changing a shared dict, so aliasing with the frame is not captured.
- pandas: `DataFrame`, boolean indexing, `apply`, `iterrows` and `reset_index` become sequences, and a row's label is its position. What pandas does with an empty stack (for example the shape of `apply(axis=1)` on no rows) is not modelled: the model gives no rows.
- nbformat: a cell is a kind and a source text. `new_notebook`, the notebook's metadata and `nbf.write` are not modelled.
- File I/O: reading a file is the `Reader` parameter. A file's contents are assumed not to change between the two times it is read, for the context and for the imports; AlkhNotebook.ImportsReadableOnceRowsExist relies on this. Writing the pickle and the notebook is represented by the `Capture` value.
- The design notes of the project describe the capture differently from the code in two places. The model follows the code in both:
  - An unreadable file ends the capture with an error, whereas the design notes give such a row an empty context.
  - In the newer variant `self` is always replaced by its copy before it is probed (alkh/dump_data.py:165-166), whereas the design notes retry with the copy only after the original fails.
- CoreNotebook.TakeItOffline: in the source, an empty `sys.path` raises only after the pickle file is written. The model returns the error and does not say that the pickle file already exists.
- AlkhNotebook.TakeItOffline: likewise, the pickle file is written before the notebook is built.
- Imports.CreateUserPackagesImportString: the order of `list(set)` is unspecified in Python. The model promises only that the cell lists every line once, in some order.
- `uuid.uuid4()` is the `uuidText` argument. `os.getenv` and `os.path.isdir` are arguments as well.
- Files.PathJoin: `os.path.join` is modelled with POSIX rules only. Windows drive letters and backslash separators are not.
- Paths or names containing a quote character produce cell text that is not valid Python. The model builds the text as the code does and does not check this.
- The `print` calls are not modelled, except that the report of variables that could not be pickled is returned by Alkh.GetRelevantLocals.

## Findings

| source | as written | input that shows it | evidently intended | confidence | as-written member | corrected member |
|---|---|---|---|---|---|---|
| core/dump_data.py:35 | the append loop runs over `sys_path_list[:-2]` and then the last entry is appended, so the second-to-last entry of `sys.path` is never restored | `sys.path == ['a', 'b']` gives `import sys` and `sys.path.append('b')` only | every entry is appended, in order: the loop runs over `sys_path_list[:-1]` and then the last entry is appended | not executed | CoreNotebook.AsWrittenLeavesOutSecondToLast | CoreNotebook.SysPathCellRestoresEveryEntry |

The core notebook, CoreNotebook.NotebookCells and CoreNotebook.CreateNotebookObject, is built from the cell as written, as the code builds it. The corrected cell is CoreNotebook.SysPathSource, with CoreNotebook.CreateSysPathString as its method.
