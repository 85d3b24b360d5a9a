/** The notebook of alkh/dump_data.py (_create_notebook_object and the
    helpers that build its cells) and take_it_offline, which ties the
    capture together. */
module AlkhNotebook {
  import opened Base
  import opened Text
  import opened Pattern
  import opened Stack
  import opened Rows
  import opened Cells
  import opened Imports
  import opened OutputDir
  import opened Files
  import Alkh

  // ---------------------------------------------------------------------
  // The sys.path cell

  /** f"sys.path.insert({index}, r'{path_to_append}')" */
  function InsertLine(index: nat, path: string): string {
    "sys.path.insert(" + NatToString(index) + ", r'" + path + "')"
  }

  function InsertLines(paths: seq<string>): seq<string> {
    seq(|paths|, k requires 0 <= k < |paths| => InsertLine(k, paths[k]))
  }

  /** The text of the sys.path cell for the given search path. */
  function SysPathSource(paths: seq<string>): string {
    JoinLines(["import sys"] + InsertLines(paths))
  }

  /** _create_append_to_sys_path_string */
  method CreateAppendToSysPathString(sysPath: seq<string>) returns (r: string)
    ensures r == SysPathSource(sysPath)
  {
    var lines := ["import sys"];
    var index := 0;
    while index < |sysPath|
      invariant 0 <= index <= |sysPath|
      invariant lines == ["import sys"] + InsertLines(sysPath[..index])
    {
      assert InsertLines(sysPath[..index + 1]) == InsertLines(sysPath[..index]) + [InsertLine(index, sysPath[index])];
      lines := lines + [InsertLine(index, sysPath[index])];
      index := index + 1;
    }
    assert sysPath[..index] == sysPath;
    r := JoinLines(lines);
  }

  /** Reads back the index and the path of a line `sys.path.insert(<digits>, r'<path>')`. */
  function ParseInsertLine(line: string): Option<(nat, string)> {
    var head := "sys.path.insert(";
    if !StartsWith(line, head) then None
    else
      var rest := line[|head|..];
      var digits := DigitPrefix(rest);
      var tail := rest[|digits|..];
      if digits == [] || |tail| < 6 || tail[..4] != ", r'" || tail[|tail| - 2..] != "')" then None
      else Some((ParseNat(digits), tail[4..|tail| - 2]))
  }

  /** Each insert line says which path goes where. */
  lemma InsertLineRoundTrip(index: nat, path: string)
    ensures ParseInsertLine(InsertLine(index, path)) == Some((index, path))
  {
    var head, d, tail := "sys.path.insert(", NatToString(index), ", r'" + path + "')";
    var line := InsertLine(index, path);
    assert line == head + (d + tail);
    assert StartsWith(line, head);
    var rest := line[|head|..];
    assert rest == d + tail;
    InsertTail(path);
    DigitPrefixOfDigits(d, tail);
    assert rest[|d|..] == tail;
    NatToStringRoundTrip(index);
  }

  lemma InsertTail(path: string)
    ensures var tail := ", r'" + path + "')";
      && |tail| >= 6 && tail[0] == ',' && tail[..4] == ", r'" && tail[|tail| - 2..] == "')"
      && tail[4..|tail| - 2] == path
  {
  }

  /** list.insert(i, x) for a non-negative index. */
  function ListInsert(s: seq<string>, i: nat, x: string): seq<string> {
    if i <= |s| then s[..i] + [x] + s[i..] else s + [x]
  }

  /** Running the inserts one after the other. */
  function RunInserts(s: seq<string>, ops: seq<(nat, string)>): seq<string>
    decreases |ops|
  {
    if ops == [] then s else RunInserts(ListInsert(s, ops[0].0, ops[0].1), ops[1..])
  }

  /** The inserts of rest, numbered from |done| on. */
  function InsertOps(start: nat, rest: seq<string>): seq<(nat, string)> {
    seq(|rest|, k requires 0 <= k < |rest| => (start + k, rest[k]))
  }

  lemma {:induction false} InsertsAfter(done: seq<string>, rest: seq<string>, base: seq<string>)
    ensures RunInserts(done + base, InsertOps(|done|, rest)) == done + rest + base
    decreases |rest|
  {
    if rest == [] {
      assert done + rest == done;
    } else {
      var ops := InsertOps(|done|, rest);
      assert ops[0] == (|done|, rest[0]);
      assert (done + base)[..|done|] == done && (done + base)[|done|..] == base;
      assert ListInsert(done + base, |done|, rest[0]) == (done + [rest[0]]) + base;
      assert ops[1..] == InsertOps(|done + [rest[0]]|, rest[1..]);
      InsertsAfter(done + [rest[0]], rest[1..], base);
      assert done + [rest[0]] + rest[1..] == done + rest;
    }
  }

  /** Running the cell's inserts, in order, on any search path puts the captured search path
      in front of it in its original order. */
  lemma InsertsRestoreSearchPath(paths: seq<string>, base: seq<string>)
    ensures RunInserts(base, InsertOps(0, paths)) == paths + base
  {
    InsertsAfter([], paths, base);
    assert [] + base == base && [] + paths == paths;
  }

  /** The cell is `import sys` and then one insert line per search path entry, in order, which
      reads back as that entry and its index. */
  lemma SysPathCellDecodes(paths: seq<string>)
    requires forall k :: 0 <= k < |paths| ==> NoNewline(paths[k])
    ensures var lines := SplitLines(SysPathSource(paths));
      && |lines| == 1 + |paths| && lines[0] == "import sys"
      && forall k :: 0 <= k < |paths| ==> ParseInsertLine(lines[k + 1]) == Some(InsertOps(0, paths)[k])
  {
    var all := ["import sys"] + InsertLines(paths);
    forall k | 0 <= k < |all| ensures NoNewline(all[k]) {
      if k > 0 {
        var d := NatToString(k - 1);
        assert all[k] == "sys.path.insert(" + d + ", r'" + paths[k - 1] + "')";
      }
    }
    SplitJoinLines(all);
    forall k | 0 <= k < |paths| ensures ParseInsertLine(all[k + 1]) == Some(InsertOps(0, paths)[k]) {
      InsertLineRoundTrip(k, paths[k]);
    }
  }

  // ---------------------------------------------------------------------
  // The rebinding cell of one row

  /** f"{name} = stack_df.loc[{index}, 'locals']['{name}']" */
  function RebindLine(index: nat, name: string): string {
    name + " = stack_df.loc[" + NatToString(index) + ", 'locals']['" + name + "']"
  }

  /** _get_variables_cell_string: one rebinding line per kept name, in the dict's order. */
  function VariablesCellSource(index: nat, names: seq<string>): (r: string)
    ensures names == [] ==> r == ""
    ensures |names| == 1 ==> r == RebindLine(index, names[0])
  {
    JoinLines(seq(|names|, k requires 0 <= k < |names| => RebindLine(index, names[k])))
  }

  /** A Python identifier holds no space and no newline. */
  predicate IsName(s: string) {
    forall k :: 0 <= k < |s| ==> s[k] != ' ' && s[k] != '\n'
  }

  /** Different names, or different rows, give different rebinding lines. */
  lemma RebindLinesDiffer(i: nat, m: string, j: nat, n: string)
    requires i != j || m != n
    requires IsName(m) && IsName(n)
    ensures RebindLine(i, m) != RebindLine(j, n)
  {
    var a, b := RebindLine(i, m), RebindLine(j, n);
    if |m| < |n| {
      assert a[|m|] == ' ' && b[|m|] == n[|m|];
    } else if |n| < |m| {
      assert b[|n|] == ' ' && a[|n|] == m[|n|];
    } else if m != n {
      assert a[..|m|] == m && b[..|n|] == n;
    } else {
      var mid, tail := m + " = stack_df.loc[", ", 'locals']['" + m + "']";
      NatToStringInjective(i, j);
      WrappedDiffer(mid, NatToString(i), NatToString(j), tail);
      assert a == mid + NatToString(i) + tail;
      assert b == mid + NatToString(j) + tail;
    }
  }

  /** The cell has one rebinding line per kept name, in order, each naming that row. */
  lemma VariablesCellLines(index: nat, names: seq<string>)
    requires names != [] && forall k :: 0 <= k < |names| ==> IsName(names[k])
    ensures var lines := SplitLines(VariablesCellSource(index, names));
      && |lines| == |names|
      && forall k :: 0 <= k < |names| ==> lines[k] == RebindLine(index, names[k])
  {
    var lines := seq(|names|, k requires 0 <= k < |names| => RebindLine(index, names[k]));
    forall k | 0 <= k < |names| ensures NoNewline(lines[k]) {
      assert lines[k] == names[k] + " = stack_df.loc[" + NatToString(index) + ", 'locals']['" + names[k] + "']";
    }
    SplitJoinLines(lines);
  }

  // ---------------------------------------------------------------------
  // The notebook

  /** The three cells of row index: its context, its locals, the rebinding of its locals. */
  function RowCells(index: nat, row: Row): seq<Cell> {
    [Cell(Code, ContextCellSource(index)),
     Cell(Code, LocalsCellSource(index)),
     Cell(Code, VariablesCellSource(index, Names(row.locals)))]
  }

  /** stack_cells after the loop over stack_df.iterrows(). */
  function StackCells(rows: seq<Row>): seq<Cell>
    decreases |rows|
  {
    if rows == [] then [] else StackCells(rows[..|rows| - 1]) + RowCells(|rows| - 1, rows[|rows| - 1])
  }

  /** Three cells per row, the k-th group for row k. */
  lemma {:induction false} StackCellsGroups(rows: seq<Row>)
    ensures |StackCells(rows)| == 3 * |rows|
    ensures forall k :: 0 <= k < |rows| ==> StackCells(rows)[3 * k..3 * k + 3] == RowCells(k, rows[k])
    decreases |rows|
  {
    if rows != [] {
      var init := rows[..|rows| - 1];
      StackCellsGroups(init);
      var front, last := StackCells(init), RowCells(|rows| - 1, rows[|rows| - 1]);
      forall k | 0 <= k < |rows| ensures (front + last)[3 * k..3 * k + 3] == RowCells(k, rows[k]) {
        if k < |init| {
          assert 3 * k + 3 <= |front|;
          assert (front + last)[3 * k..3 * k + 3] == front[3 * k..3 * k + 3];
          assert init[k] == rows[k];
        } else {
          assert (front + last)[3 * k..3 * k + 3] == last;
        }
      }
    }
  }

  /** head_cells_list */
  function HeadCells(sysPathSource: string, userImports: string, pickleFileName: string): seq<Cell> {
    [Cell(Markdown, Title),
     Cell(Code, sysPathSource),
     Cell(Code, JoinLines(FixedImports)),
     Cell(Code, userImports),
     Cell(Code, ReadPickleSource(pickleFileName))]
  }

  /** stack_df['file_path'] */
  function FilePaths(rows: seq<Row>): seq<string> {
    seq(|rows|, k requires 0 <= k < |rows| => rows[k].filePath)
  }

  /** The import lines of the user's files, as the set the user import cell lists. */
  function UserImports(rows: seq<Row>, readFile: Reader): Result<set<string>> {
    match CollectImportLines(Unique(FilePaths(rows)), readFile)
    case Ok(lines) => Ok(UserImportSet(lines, FixedImports))
    case Err(e) => Err(e)
  }

  /** cells are the notebook of rows: the five head cells, with the user imports in some order,
      then the cells of every row. */
  ghost predicate IsNotebook(cells: seq<Cell>, rows: seq<Row>, sysPath: seq<string>, pickleFileName: string, readFile: Reader) {
    UserImports(rows, readFile).Ok? &&
    exists order :: IsEnumeration(order, UserImports(rows, readFile).value) &&
      cells == HeadCells(SysPathSource(sysPath), JoinLines(order), pickleFileName) + StackCells(rows)
  }

  /** The loop over stack_df.iterrows() of _create_notebook_object. */
  method CreateStackCells(rows: seq<Row>) returns (stackCells: seq<Cell>)
    ensures stackCells == StackCells(rows)
  {
    stackCells := [];
    var index := 0;
    while index < |rows|
      invariant 0 <= index <= |rows|
      invariant stackCells == StackCells(rows[..index])
    {
      assert rows[..index + 1][..index] == rows[..index];
      assert StackCells(rows[..index + 1]) == StackCells(rows[..index]) + RowCells(index, rows[index]);
      stackCells := stackCells + [Cell(Code, ContextCellSource(index))];
      stackCells := stackCells + [Cell(Code, LocalsCellSource(index))];
      stackCells := stackCells + [Cell(Code, VariablesCellSource(index, Names(rows[index].locals)))];
      index := index + 1;
    }
    assert rows[..index] == rows;
  }

  /** _create_notebook_object: the cells of notebook['cells']. */
  method CreateNotebookObject(rows: seq<Row>, sysPath: seq<string>, pickleFileName: string, readFile: Reader)
    returns (r: Result<seq<Cell>>)
    ensures r.Ok? <==> UserImports(rows, readFile).Ok?
    ensures r.Err? ==> r.error == UserImports(rows, readFile).error
    ensures r.Ok? ==> IsNotebook(r.value, rows, sysPath, pickleFileName, readFile)
  {
    var introMarkdown := Cell(Markdown, Title);
    var appendToSysPathString := CreateAppendToSysPathString(sysPath);
    var importPackages := Cell(Code, JoinLines(FixedImports));
    var userPackagesImportString := CreateUserPackagesImportString(FixedImports, FilePaths(rows), readFile);
    if userPackagesImportString.Err? {
      return Err(userPackagesImportString.error);
    }
    ghost var order :| IsEnumeration(order, UserImports(rows, readFile).value) &&
      userPackagesImportString.value == JoinLines(order);
    var readPickleAndDisplay := Cell(Code, ReadPickleSource(pickleFileName));
    var stackCells := CreateStackCells(rows);
    var headCells := [introMarkdown, Cell(Code, appendToSysPathString), importPackages,
                      Cell(Code, userPackagesImportString.value), readPickleAndDisplay];
    assert headCells == HeadCells(SysPathSource(sysPath), JoinLines(order), pickleFileName);
    r := Ok(headCells + stackCells);
  }

  /** The layout of the notebook: the title, the sys.path cell, the fixed imports, the user
      imports, the cell that loads the pickle, then for row k, in row order, its three cells. */
  lemma NotebookLayout(cells: seq<Cell>, rows: seq<Row>, sysPath: seq<string>, pickleFileName: string, readFile: Reader)
    requires IsNotebook(cells, rows, sysPath, pickleFileName, readFile)
    ensures |cells| == 5 + 3 * |rows|
    ensures cells[0] == Cell(Markdown, Title)
    ensures cells[1] == Cell(Code, SysPathSource(sysPath))
    ensures cells[2] == Cell(Code, JoinLines(FixedImports))
    ensures cells[3].kind == Code
    ensures exists order :: IsEnumeration(order, UserImports(rows, readFile).value) && cells[3].source == JoinLines(order)
    ensures cells[4] == Cell(Code, ReadPickleSource(pickleFileName))
    ensures forall k :: 0 <= k < |rows| ==> cells[5 + 3 * k..8 + 3 * k] == RowCells(k, rows[k])
  {
    var order :| IsEnumeration(order, UserImports(rows, readFile).value) &&
      cells == HeadCells(SysPathSource(sysPath), JoinLines(order), pickleFileName) + StackCells(rows);
    var head, st := HeadCells(SysPathSource(sysPath), JoinLines(order), pickleFileName), StackCells(rows);
    assert cells[3] == head[3];
    StackCellsGroups(rows);
    forall k | 0 <= k < |rows| ensures cells[5 + 3 * k..8 + 3 * k] == RowCells(k, rows[k]) {
      SliceOfSecond(head, st, 5 + 3 * k, 8 + 3 * k);
    }
  }

  // ---------------------------------------------------------------------
  // take_it_offline

  /** _make_stack_df of this variant. */
  function StackDf(stack: seq<Frame>, probe: Probe, readFile: Reader): (r: Result<seq<Row>>)
    ensures r.Ok? ==> |r.value| == |KeepFrames(stack, Alkh.IgnorePatterns)|
    ensures r.Ok? ==> forall k :: 0 <= k < |r.value| ==>
      r.value[k].filePath == KeepFrames(stack, Alkh.IgnorePatterns)[k].filename && |r.value[k].locals| <= |KeepFrames(stack, Alkh.IgnorePatterns)[k].locals|
  {
    MakeStackRows(stack, Alkh.IgnorePatterns, ls => Alkh.KeptLocals(ls, probe), readFile)
  }

  /** Every file the user import cell opens was opened for a context already, so once the stack
      rows exist the user import cell cannot fail (the files do not change in between). */
  lemma ImportsReadableOnceRowsExist(stack: seq<Frame>, probe: Probe, readFile: Reader)
    requires StackDf(stack, probe, readFile).Ok?
    ensures UserImports(StackDf(stack, probe, readFile).value, readFile).Ok?
  {
    var rows := StackDf(stack, probe, readFile).value;
    var files := Unique(FilePaths(rows));
    forall k | 0 <= k < |files| ensures readFile(files[k]).Some? {
      assert files[k] in FilePaths(rows);
      var j :| 0 <= j < |rows| && FilePaths(rows)[j] == files[k];
    }
  }

  /** take_it_offline. notebookDirPath is the argument, env the value of ALKH_NOTEBOOKS_PATH,
      uuidText the text of the fresh uuid, stack the frames of inspect.stack(). */
  method TakeItOffline(notebookDirPath: Option<string>, env: Option<string>, isDir: string -> bool,
                       uuidText: string, stack: seq<Frame>, probe: Probe, readFile: Reader, sysPath: seq<string>)
    returns (r: Result<Capture>)
    ensures GetNotebookDirPath(notebookDirPath, env, isDir).Err? ==>
      r == Err(GetNotebookDirPath(notebookDirPath, env, isDir).error)
    ensures GetNotebookDirPath(notebookDirPath, env, isDir).Ok? && StackDf(stack, probe, readFile).Err? ==>
      r == Err(StackDf(stack, probe, readFile).error)
    ensures r.Ok? <==> GetNotebookDirPath(notebookDirPath, env, isDir).Ok? && StackDf(stack, probe, readFile).Ok?
    ensures r.Ok? ==>
      var dir, rows := GetNotebookDirPath(notebookDirPath, env, isDir).value, StackDf(stack, probe, readFile).value;
      && r.value.picklePath == PathJoin(dir, PickleFileName(uuidText))
      && r.value.pickled == rows
      && r.value.notebookPath == NotebookPath(dir, uuidText)
      && IsNotebook(r.value.notebook, rows, sysPath, PickleFileName(uuidText), readFile)
  {
    var dir := GetNotebookDirPath(notebookDirPath, env, isDir);
    if dir.Err? {
      return Err(dir.error);
    }
    var randomName := RemoveDashes(uuidText);
    var pickleFileName := randomName + ".pkl";
    var picklePath := PathJoin(dir.value, pickleFileName);
    var notebookPath := PathJoin(dir.value, randomName) + ".ipynb";
    var stackDf := StackDf(stack, probe, readFile);
    if stackDf.Err? {
      return Err(stackDf.error);
    }
    ImportsReadableOnceRowsExist(stack, probe, readFile);
    var notebook := CreateNotebookObject(stackDf.value, sysPath, pickleFileName, readFile);
    r := Ok(Capture(picklePath, stackDf.value, notebookPath, notebook.value));
  }

  /** One group of three cells per relevant frame, in stack order: the group of frame k shows
      row k and rebinds exactly the variables kept from frame k. */
  lemma OneGroupPerRelevantFrame(stack: seq<Frame>, probe: Probe, readFile: Reader, sysPath: seq<string>,
                                 pickleFileName: string, cells: seq<Cell>)
    requires StackDf(stack, probe, readFile).Ok?
    requires IsNotebook(cells, StackDf(stack, probe, readFile).value, sysPath, pickleFileName, readFile)
    ensures var relevant := KeepFrames(stack, Alkh.IgnorePatterns);
      && |cells| == 5 + 3 * |relevant|
      && forall k :: 0 <= k < |relevant| ==>
        cells[5 + 3 * k..8 + 3 * k] == [
          Cell(Code, ContextCellSource(k)),
          Cell(Code, LocalsCellSource(k)),
          Cell(Code, VariablesCellSource(k, Names(Alkh.KeptLocals(relevant[k].locals, probe).value)))]
  {
    var rows := StackDf(stack, probe, readFile).value;
    NotebookLayout(cells, rows, sysPath, pickleFileName, readFile);
  }
}
