/** The notebook of core/dump_data.py (_create_notebook_object) and its
    take_it_offline. Its sys.path cell is built from sys_path_list[:-2] and
    then the last entry, which leaves out the second-to-last entry; the
    cell as written and the corrected cell are both modelled, and the
    notebook is built, as the code builds it, from the cell as written. */
module CoreNotebook {
  import opened Base
  import opened Text
  import opened Stack
  import opened Rows
  import opened Cells
  import opened OutputDir
  import opened Files
  import Core

  // ---------------------------------------------------------------------
  // The sys.path cell

  /** f"sys.path.append('{path_to_append}')" */
  function AppendLine(path: string): string {
    "sys.path.append('" + path + "')"
  }

  /** The append statements for entries, each followed by a newline. */
  function AppendBlock(entries: seq<string>): string
    decreases |entries|
  {
    if entries == [] then "" else AppendLine(entries[0]) + "\n" + AppendBlock(entries[1..])
  }

  function AppendLines(entries: seq<string>): seq<string> {
    seq(|entries|, k requires 0 <= k < |entries| => AppendLine(entries[k]))
  }

  lemma {:induction false} AppendBlockSnoc(entries: seq<string>, e: string)
    ensures AppendBlock(entries + [e]) == AppendBlock(entries) + AppendLine(e) + "\n"
    decreases |entries|
  {
    if entries == [] {
      assert [] + [e] == [e];
      assert [e][1..] == [];
    } else {
      assert (entries + [e])[1..] == entries[1..] + [e];
      AppendBlockSnoc(entries[1..], e);
    }
  }

  /** The loop `for path_to_append in entries: append_to_sys_path_str += ...` after "import sys\n". */
  method AppendStatements(entries: seq<string>) returns (s: string)
    ensures s == "import sys\n" + AppendBlock(entries)
  {
    s := "import sys\n";
    var i := 0;
    while i < |entries|
      invariant 0 <= i <= |entries|
      invariant s == "import sys\n" + AppendBlock(entries[..i])
    {
      assert entries[..i + 1] == entries[..i] + [entries[i]];
      AppendBlockSnoc(entries[..i], entries[i]);
      var line := AppendLine(entries[i]);
      assert s + line + "\n" == "import sys\n" + (AppendBlock(entries[..i]) + line + "\n");
      s := s + line + "\n";
      i := i + 1;
    }
    assert entries[..i] == entries;
  }

  /** The cell text as core/dump_data.py writes it: the statements for sys_path_list[:-2],
      then one for sys_path_list[-1], which raises IndexError on an empty list. */
  function SysPathSourceAsWritten(sysPath: seq<string>): (r: Result<string>)
    ensures r.Err? <==> sysPath == []
    ensures r.Err? ==> r.error == IndexError
    ensures |sysPath| >= 2 ==> r.value == "import sys\n" + AppendBlock(sysPath[..|sysPath| - 2]) + AppendLine(sysPath[|sysPath| - 1])
  {
    if sysPath == [] then Err(IndexError)
    else Ok("import sys\n" + AppendBlock(PySlice(sysPath, 0, -2)) + AppendLine(sysPath[|sysPath| - 1]))
  }

  /** The cell text with the loop over sys_path_list[:-1]: every entry, in order. */
  function SysPathSource(sysPath: seq<string>): Result<string> {
    if sysPath == [] then Err(IndexError)
    else Ok("import sys\n" + AppendBlock(sysPath[..|sysPath| - 1]) + AppendLine(sysPath[|sysPath| - 1]))
  }

  /** Lines 34-37 of _create_notebook_object as written. */
  method CreateSysPathStringAsWritten(sysPath: seq<string>) returns (r: Result<string>)
    ensures r == SysPathSourceAsWritten(sysPath)
  {
    var s := AppendStatements(PySlice(sysPath, 0, -2));
    if |sysPath| == 0 {
      return Err(IndexError);
    }
    r := Ok(s + AppendLine(sysPath[|sysPath| - 1]));
  }

  /** Lines 34-37 of _create_notebook_object with the loop over sys_path_list[:-1]. */
  method CreateSysPathString(sysPath: seq<string>) returns (r: Result<string>)
    ensures r == SysPathSource(sysPath)
  {
    if |sysPath| == 0 {
      var s := AppendStatements([]);
      return Err(IndexError);
    }
    var s := AppendStatements(sysPath[..|sysPath| - 1]);
    r := Ok(s + AppendLine(sysPath[|sysPath| - 1]));
  }

  /** Reads back the path of a line `sys.path.append('<path>')`. */
  function ParseAppendLine(line: string): Option<string> {
    var head := "sys.path.append('";
    if StartsWith(line, head) && |line| >= |head| + 2 && line[|line| - 2..] == "')"
    then Some(line[|head|..|line| - 2])
    else None
  }

  lemma AppendLineRoundTrip(path: string)
    ensures ParseAppendLine(AppendLine(path)) == Some(path)
  {
    var line := AppendLine(path);
    assert line[..17] == "sys.path.append('";
    assert line[|line| - 2..] == "')";
    assert line[17..|line| - 2] == path;
  }

  lemma {:induction false} BlockJoin(entries: seq<string>, last: string)
    ensures JoinLines(AppendLines(entries) + [last]) == AppendBlock(entries) + last
    decreases |entries|
  {
    if entries == [] {
      assert AppendLines(entries) + [last] == [last];
    } else {
      var ls := AppendLines(entries) + [last];
      assert ls[1..] == AppendLines(entries[1..]) + [last];
      BlockJoin(entries[1..], last);
    }
  }

  lemma AppendLineNoNewline(path: string)
    requires NoNewline(path)
    ensures NoNewline(AppendLine(path))
  {
    var line := AppendLine(path);
    forall i | 0 <= i < |line| ensures line[i] != '\n' {
      if 17 <= i < 17 + |path| {
        assert line[i] == path[i - 17];
      }
    }
  }

  lemma AppendLinesNoNewline(entries: seq<string>)
    requires forall k :: 0 <= k < |entries| ==> NoNewline(entries[k])
    ensures forall k :: 0 <= k < |entries| ==> NoNewline(AppendLines(entries)[k])
  {
    forall k | 0 <= k < |entries| ensures NoNewline(AppendLines(entries)[k]) {
      AppendLineNoNewline(entries[k]);
    }
  }

  /** A text made of a first line, the statements for entries and the one for last splits
      into exactly those lines. */
  lemma CellLines(head: string, entries: seq<string>, last: string)
    requires NoNewline(head) && NoNewline(last) && forall k :: 0 <= k < |entries| ==> NoNewline(entries[k])
    ensures SplitLines(head + "\n" + AppendBlock(entries) + AppendLine(last)) ==
      [head] + AppendLines(entries) + [AppendLine(last)]
  {
    var tail := AppendLines(entries) + [AppendLine(last)];
    var all := [head] + tail;
    AppendLinesNoNewline(entries);
    AppendLineNoNewline(last);
    assert forall k :: 0 <= k < |tail| ==> NoNewline(tail[k]) by {
      forall k | 0 <= k < |tail| ensures NoNewline(tail[k]) {
        if k < |entries| {
          assert tail[k] == AppendLines(entries)[k];
        }
      }
    }
    assert forall k :: 0 <= k < |all| ==> NoNewline(all[k]) by {
      forall k | 0 <= k < |all| ensures NoNewline(all[k]) {
        if k > 0 {
          assert all[k] == tail[k - 1];
        }
      }
    }
    BlockJoin(entries, AppendLine(last));
    assert all[1..] == tail;
    assert JoinLines(all) == head + "\n" + JoinLines(tail);
    assert head + "\n" + AppendBlock(entries) + AppendLine(last) == head + "\n" + (AppendBlock(entries) + AppendLine(last));
    SplitJoinLines(all);
  }

  /** The corrected cell appends every entry of the search path, in order. */
  lemma SysPathCellRestoresEveryEntry(sysPath: seq<string>)
    requires sysPath != [] && forall k :: 0 <= k < |sysPath| ==> NoNewline(sysPath[k])
    ensures SysPathSource(sysPath).Ok?
    ensures var lines := SplitLines(SysPathSource(sysPath).value);
      && |lines| == 1 + |sysPath| && lines[0] == "import sys"
      && forall k :: 0 <= k < |sysPath| ==> ParseAppendLine(lines[k + 1]) == Some(sysPath[k])
  {
    var n := |sysPath|;
    assert NoNewline("import sys");
    CellLines("import sys", sysPath[..n - 1], sysPath[n - 1]);
    assert "import sys\n" == "import sys" + "\n";
    assert SysPathSource(sysPath).value == "import sys" + "\n" + AppendBlock(sysPath[..n - 1]) + AppendLine(sysPath[n - 1]);
    var lines := ["import sys"] + AppendLines(sysPath[..n - 1]) + [AppendLine(sysPath[n - 1])];
    forall k | 0 <= k < n ensures ParseAppendLine(lines[k + 1]) == Some(sysPath[k]) {
      AppendLineRoundTrip(sysPath[k]);
    }
  }

  /** As written, the cell has one statement fewer than the search path has entries: the
      second-to-last entry is left out. */
  lemma AsWrittenLeavesOutSecondToLast(sysPath: seq<string>)
    requires |sysPath| >= 2 && forall k :: 0 <= k < |sysPath| ==> NoNewline(sysPath[k])
    requires sysPath[|sysPath| - 2] !in sysPath[..|sysPath| - 2] && sysPath[|sysPath| - 2] != sysPath[|sysPath| - 1]
    ensures SysPathSourceAsWritten(sysPath).Ok?
    ensures var lines := SplitLines(SysPathSourceAsWritten(sysPath).value);
      && |lines| == |sysPath|
      && forall k :: 0 <= k < |lines| ==> ParseAppendLine(lines[k]) != Some(sysPath[|sysPath| - 2])
  {
    var n := |sysPath|;
    var entries := PySlice(sysPath, 0, -2);
    assert entries == sysPath[..n - 2];
    assert NoNewline("import sys");
    CellLines("import sys", entries, sysPath[n - 1]);
    assert "import sys\n" == "import sys" + "\n";
    assert SysPathSourceAsWritten(sysPath).value == "import sys" + "\n" + AppendBlock(entries) + AppendLine(sysPath[n - 1]);
    var lines := ["import sys"] + AppendLines(entries) + [AppendLine(sysPath[n - 1])];
    forall k | 0 <= k < |lines| ensures ParseAppendLine(lines[k]) != Some(sysPath[n - 2]) {
      if k == 0 {
        assert !StartsWith(lines[k], "sys.path.append('");
      } else if k < |lines| - 1 {
        AppendLineRoundTrip(entries[k - 1]);
        assert entries[k - 1] in sysPath[..n - 2];
      } else {
        AppendLineRoundTrip(sysPath[n - 1]);
      }
    }
  }

  /** The search path ['a', 'b']: as written the cell appends only 'b'; corrected it appends both. */
  lemma AsWrittenTwoEntries()
    ensures SysPathSourceAsWritten(["a", "b"]) == Ok("import sys\n" + AppendLine("b"))
    ensures SysPathSource(["a", "b"]) == Ok("import sys\n" + AppendLine("a") + "\n" + AppendLine("b"))
  {
    assert PySlice(["a", "b"], 0, -2) == [];
    assert ["a", "b"][..1] == ["a"];
    assert ["a"][1..] == [];
    assert AppendBlock([]) == "";
    assert AppendBlock(["a"]) == AppendLine("a") + "\n";
    var last := ["a", "b"][|["a", "b"]| - 1];
    assert last == "b";
    assert SysPathSourceAsWritten(["a", "b"]) == Ok("import sys\n" + AppendBlock([]) + AppendLine(last));
    assert SysPathSource(["a", "b"]) == Ok("import sys\n" + AppendBlock(["a"]) + AppendLine(last));
    assert "import sys\n" + "" == "import sys\n";
    var l1, l2 := AppendLine("a"), AppendLine("b");
    assert "import sys\n" + (l1 + "\n") + l2 == "import sys\n" + l1 + "\n" + l2;
  }

  /** With fewer than two entries the cell as written is the corrected one: an empty search
      path raises IndexError and a single entry gives one append statement. */
  lemma AsWrittenShortPaths(p: string)
    ensures SysPathSourceAsWritten([]) == Err(IndexError)
    ensures SysPathSourceAsWritten([p]) == SysPathSource([p]) == Ok("import sys\n" + AppendLine(p))
  {
    assert PySlice([p], 0, -2) == [];
    assert [p][..0] == [];
    assert "import sys\n" + "" == "import sys\n";
  }

  // ---------------------------------------------------------------------
  // The notebook

  /** import_packages_str */
  const ImportPackagesSource := "import pandas as pd\nimport alkh"

  /** The fixed import cell is the same as in the newer variant. */
  lemma SameFixedImports()
    ensures ImportPackagesSource == JoinLines(FixedImports)
  {
  }

  /** The two cells of row index: its context and its locals. */
  function RowCells(index: nat): seq<Cell> {
    [Cell(Code, ContextCellSource(index)), Cell(Code, LocalsCellSource(index))]
  }

  /** stack_cells after the loop over stack_df.iterrows(). */
  function StackCells(count: nat): seq<Cell>
    decreases count
  {
    if count == 0 then [] else StackCells(count - 1) + RowCells(count - 1)
  }

  lemma {:induction false} StackCellsGroups(count: nat)
    ensures |StackCells(count)| == 2 * count
    ensures forall k :: 0 <= k < count ==> StackCells(count)[2 * k..2 * k + 2] == RowCells(k)
    decreases count
  {
    if count > 0 {
      StackCellsGroups(count - 1);
      var front, last := StackCells(count - 1), RowCells(count - 1);
      assert |front| == 2 * (count - 1);
      forall k | 0 <= k < count ensures (front + last)[2 * k..2 * k + 2] == RowCells(k) {
        if k < count - 1 {
          assert 2 * k + 2 <= |front|;
          assert (front + last)[2 * k..2 * k + 2] == front[2 * k..2 * k + 2];
        } else {
          assert 2 * k == |front|;
          SliceOfSecond(front, last, 2 * k, 2 * k + 2);
        }
      }
      assert StackCells(count) == front + last;
    }
  }

  /** The cells of notebook['cells'], with the sys.path cell as written. */
  function NotebookCells(rowCount: nat, sysPath: seq<string>, pickleFileName: string): (r: Result<seq<Cell>>)
    ensures r.Ok? <==> sysPath != []
    ensures r.Err? ==> r.error == IndexError
    ensures r.Ok? ==> |r.value| == 4 + 2 * rowCount
  {
    match SysPathSourceAsWritten(sysPath)
    case Err(e) => Err(e)
    case Ok(src) =>
      StackCellsGroups(rowCount);
      Ok([Cell(Markdown, Title), Cell(Code, src), Cell(Code, ImportPackagesSource), Cell(Code, ReadPickleSource(pickleFileName))]
         + StackCells(rowCount))
  }

  /** _create_notebook_object. */
  method CreateNotebookObject(rows: seq<Row>, sysPath: seq<string>, pickleFileName: string) returns (r: Result<seq<Cell>>)
    ensures r == NotebookCells(|rows|, sysPath, pickleFileName)
  {
    var introMarkdown := Cell(Markdown, Title);
    var appendToSysPath := CreateSysPathStringAsWritten(sysPath);
    if appendToSysPath.Err? {
      return Err(appendToSysPath.error);
    }
    var importPackages := Cell(Code, ImportPackagesSource);
    var readPickleAndDisplay := Cell(Code, ReadPickleSource(pickleFileName));
    var stackCells: seq<Cell> := [];
    var index := 0;
    while index < |rows|
      invariant 0 <= index <= |rows|
      invariant stackCells == StackCells(index)
    {
      stackCells := stackCells + [Cell(Code, ContextCellSource(index))];
      stackCells := stackCells + [Cell(Code, LocalsCellSource(index))];
      index := index + 1;
    }
    r := Ok([introMarkdown, Cell(Code, appendToSysPath.value), importPackages, readPickleAndDisplay] + stackCells);
  }

  /** The notebook exists unless the search path is empty; it is the title, the sys.path cell,
      the fixed imports, the cell that loads the pickle, then two cells per row, in row order. */
  lemma NotebookLayout(rowCount: nat, sysPath: seq<string>, pickleFileName: string)
    ensures NotebookCells(rowCount, sysPath, pickleFileName).Ok? <==> sysPath != []
    ensures NotebookCells(rowCount, sysPath, pickleFileName).Err? ==>
      NotebookCells(rowCount, sysPath, pickleFileName).error == IndexError
    ensures var r := NotebookCells(rowCount, sysPath, pickleFileName);
      r.Ok? ==>
        && |r.value| == 4 + 2 * rowCount
        && r.value[0] == Cell(Markdown, Title)
        && r.value[1] == Cell(Code, SysPathSourceAsWritten(sysPath).value)
        && r.value[2] == Cell(Code, JoinLines(FixedImports))
        && r.value[3] == Cell(Code, ReadPickleSource(pickleFileName))
        && forall k :: 0 <= k < rowCount ==> r.value[4 + 2 * k..6 + 2 * k] == RowCells(k)
  {
    StackCellsGroups(rowCount);
    var r := NotebookCells(rowCount, sysPath, pickleFileName);
    if sysPath != [] {
      var src := SysPathSourceAsWritten(sysPath).value;
      var head := [Cell(Markdown, Title), Cell(Code, src), Cell(Code, ImportPackagesSource),
                   Cell(Code, ReadPickleSource(pickleFileName))];
      var stack := StackCells(rowCount);
      assert r.value == head + stack;
      SameFixedImports();
      forall k | 0 <= k < rowCount ensures r.value[4 + 2 * k..6 + 2 * k] == RowCells(k) {
        SliceOfSecond(head, stack, 4 + 2 * k, 6 + 2 * k);
      }
    }
  }

  // ---------------------------------------------------------------------
  // take_it_offline

  /** take_it_offline; the arguments are those of the newer variant's. */
  method TakeItOffline(notebookDirPath: Option<string>, env: Option<string>, isDir: string -> bool,
                       uuidText: string, stack: seq<Frame>, probe: Probe, readFile: Reader, sysPath: seq<string>)
    returns (r: Result<Capture>)
    ensures GetNotebookDirPath(notebookDirPath, env, isDir).Err? ==>
      r == Err(GetNotebookDirPath(notebookDirPath, env, isDir).error)
    ensures GetNotebookDirPath(notebookDirPath, env, isDir).Ok? && Core.StackDf(stack, probe, readFile).Err? ==>
      r == Err(Core.StackDf(stack, probe, readFile).error)
    ensures GetNotebookDirPath(notebookDirPath, env, isDir).Ok? && Core.StackDf(stack, probe, readFile).Ok? && sysPath == [] ==>
      r == Err(IndexError)
    ensures r.Ok? <==>
      GetNotebookDirPath(notebookDirPath, env, isDir).Ok? && Core.StackDf(stack, probe, readFile).Ok? && sysPath != []
    ensures r.Ok? ==>
      var dir, rows := GetNotebookDirPath(notebookDirPath, env, isDir).value, Core.StackDf(stack, probe, readFile).value;
      && r.value.picklePath == PathJoin(dir, PickleFileName(uuidText))
      && r.value.pickled == rows
      && r.value.notebookPath == NotebookPath(dir, uuidText)
      && r.value.notebook == NotebookCells(|rows|, sysPath, PickleFileName(uuidText)).value
  {
    var dir := GetNotebookDirPath(notebookDirPath, env, isDir);
    if dir.Err? {
      return Err(dir.error);
    }
    var randomName := RemoveDashes(uuidText);
    var pickleFileName := randomName + ".pkl";
    var picklePath := PathJoin(dir.value, pickleFileName);
    var notebookPath := PathJoin(dir.value, randomName) + ".ipynb";
    var stackDf := Core.StackDf(stack, probe, readFile);
    if stackDf.Err? {
      return Err(stackDf.error);
    }
    var notebook := CreateNotebookObject(stackDf.value, sysPath, pickleFileName);
    if notebook.Err? {
      return Err(notebook.error);
    }
    r := Ok(Capture(picklePath, stackDf.value, notebookPath, notebook.value));
  }
}
