/** _create_user_packages_import_string (alkh/dump_data.py): the import lines
    of every file on the captured stack, without the fixed imports, each once,
    in whatever order the set of them yields. */
module Imports {
  import opened Base
  import opened Text

  /** ' import ' in line or line.startswith('import ') */
  predicate IsImportLine(line: string) {
    Contains(line, " import ") || StartsWith(line, "import ")
  }

  /** [line.strip() for line in all_lines if ...] */
  function ImportLinesOf(lines: seq<string>): (r: seq<string>)
    ensures |r| <= |lines|
    decreases |lines|
  {
    if lines == [] then []
    else (if IsImportLine(lines[0]) then [Strip(lines[0])] else []) + ImportLinesOf(lines[1..])
  }

  /** A line of the file is an import line that strips to x. */
  ghost predicate ImportedAs(lines: seq<string>, x: string) {
    exists l :: l in lines && IsImportLine(l) && Strip(l) == x
  }

  lemma ImportedAsSplit(lines: seq<string>, x: string)
    requires lines != []
    ensures ImportedAs(lines, x) <==> (IsImportLine(lines[0]) && Strip(lines[0]) == x) || ImportedAs(lines[1..], x)
  {
    if ImportedAs(lines, x) {
      var l :| l in lines && IsImportLine(l) && Strip(l) == x;
      var i :| 0 <= i < |lines| && lines[i] == l;
      if i > 0 {
        assert lines[1..][i - 1] == l;
      }
    }
    if ImportedAs(lines[1..], x) {
      var l :| l in lines[1..] && IsImportLine(l) && Strip(l) == x;
      assert l in lines;
    }
    if IsImportLine(lines[0]) && Strip(lines[0]) == x {
      assert lines[0] in lines;
    }
  }

  /** The comprehension returns exactly the stripped import lines. */
  lemma {:induction false} ImportLinesOfExactly(lines: seq<string>)
    ensures forall x :: x in ImportLinesOf(lines) <==> ImportedAs(lines, x)
    decreases |lines|
  {
    if lines != [] {
      ImportLinesOfExactly(lines[1..]);
      forall x ensures x in ImportLinesOf(lines) <==> ImportedAs(lines, x) {
        ImportedAsSplit(lines, x);
      }
    }
  }

  /** Series.unique(): the distinct values, each once. */
  function Unique(xs: seq<string>): (r: seq<string>)
    ensures forall x :: x in r <==> x in xs
    ensures forall i, j :: 0 <= i < j < |r| ==> r[i] != r[j]
    decreases |xs|
  {
    if xs == [] then []
    else
      var init, last := xs[..|xs| - 1], xs[|xs| - 1];
      assert xs == init + [last];
      var u := Unique(init);
      if last in u then u else u + [last]
  }

  /** all_imports_lines_list after the loop over the file paths; the first file that cannot be opened raises. */
  function CollectImportLines(paths: seq<string>, readFile: string -> Option<seq<string>>): (r: Result<seq<string>>)
    ensures r.Ok? <==> forall k :: 0 <= k < |paths| ==> readFile(paths[k]).Some?
    ensures r.Err? ==> r.error.FileNotReadable? && readFile(r.error.path).None? && r.error.path in paths
    decreases |paths|
  {
    if paths == [] then Ok([])
    else
      var init, last := paths[..|paths| - 1], paths[|paths| - 1];
      assert paths == init + [last];
      match CollectImportLines(init, readFile)
      case Err(e) => Err(e)
      case Ok(acc) =>
        match readFile(last)
        case None => Err(FileNotReadable(last))
        case Some(lines) => Ok(acc + ImportLinesOf(lines))
  }

  /** Some file of paths has an import line that strips to x. */
  ghost predicate ImportedByFile(paths: seq<string>, readFile: string -> Option<seq<string>>, x: string) {
    exists p :: p in paths && readFile(p).Some? && ImportedAs(readFile(p).value, x)
  }

  /** The collected lines are exactly the stripped import lines of the files. */
  lemma {:induction false} CollectedExactly(paths: seq<string>, readFile: string -> Option<seq<string>>)
    requires CollectImportLines(paths, readFile).Ok?
    ensures forall x :: x in CollectImportLines(paths, readFile).value <==> ImportedByFile(paths, readFile, x)
    decreases |paths|
  {
    if paths != [] {
      var init, last := paths[..|paths| - 1], paths[|paths| - 1];
      assert paths == init + [last];
      CollectedExactly(init, readFile);
      ImportLinesOfExactly(readFile(last).value);
      forall x ensures x in CollectImportLines(paths, readFile).value <==> ImportedByFile(paths, readFile, x) {
        if ImportedByFile(paths, readFile, x) {
          var p :| p in paths && readFile(p).Some? && ImportedAs(readFile(p).value, x);
          if p != last {
            assert p in init;
          }
        }
        if ImportedByFile(init, readFile, x) {
          var p :| p in init && readFile(p).Some? && ImportedAs(readFile(p).value, x);
          assert p in paths;
        }
      }
    }
  }

  /** Once a file cannot be opened, the loop has raised whatever follows. */
  lemma {:induction false} CollectErrExtends(paths: seq<string>, i: nat, readFile: string -> Option<seq<string>>)
    requires i <= |paths| && CollectImportLines(paths[..i], readFile).Err?
    ensures CollectImportLines(paths, readFile) == CollectImportLines(paths[..i], readFile)
    decreases |paths| - i
  {
    if i < |paths| {
      assert paths[..i + 1][..i] == paths[..i];
      CollectErrExtends(paths, i + 1, readFile);
    } else {
      assert paths[..i] == paths;
    }
  }

  /** set(all_imports_lines_list).difference(set(import_packages_list)) */
  function UserImportSet(collected: seq<string>, importPackages: seq<string>): set<string> {
    (set x | x in collected) - (set x | x in importPackages)
  }

  /** order lists every element of s exactly once. */
  predicate IsEnumeration(order: seq<string>, s: set<string>) {
    && (forall x :: x in order ==> x in s)
    && (forall x :: x in s ==> x in order)
    && (forall i, j :: 0 <= i < j < |order| ==> order[i] != order[j])
  }

  /** list(s): the elements of the set in an order the model leaves open. */
  method ListOfSet(s: set<string>) returns (order: seq<string>)
    ensures IsEnumeration(order, s)
  {
    order := [];
    var rest := s;
    while rest != {}
      invariant forall x :: x in order <==> x in s && x !in rest
      invariant rest <= s
      invariant forall i, j :: 0 <= i < j < |order| ==> order[i] != order[j]
      decreases |rest|
    {
      var x :| x in rest;
      order := order + [x];
      rest := rest - {x};
    }
  }

  /** _create_user_packages_import_string. */
  method CreateUserPackagesImportString(importPackages: seq<string>, filePaths: seq<string>,
                                        readFile: string -> Option<seq<string>>)
    returns (r: Result<string>)
    ensures r.Ok? <==> CollectImportLines(Unique(filePaths), readFile).Ok?
    ensures r.Err? ==> r.error == CollectImportLines(Unique(filePaths), readFile).error
    ensures r.Ok? ==> exists order ::
      IsEnumeration(order, UserImportSet(CollectImportLines(Unique(filePaths), readFile).value, importPackages)) &&
      r.value == JoinLines(order)
  {
    var fileList := Unique(filePaths);
    var allImportLines: seq<string> := [];
    var i := 0;
    while i < |fileList|
      invariant 0 <= i <= |fileList|
      invariant CollectImportLines(fileList[..i], readFile) == Ok(allImportLines)
    {
      assert fileList[..i + 1][..i] == fileList[..i];
      var allLines := readFile(fileList[i]);
      if allLines.None? {
        CollectErrExtends(fileList, i + 1, readFile);
        return Err(FileNotReadable(fileList[i]));
      }
      allImportLines := allImportLines + ImportLinesOf(allLines.value);
      i := i + 1;
    }
    assert fileList[..i] == fileList;
    var finalLines := ListOfSet(UserImportSet(allImportLines, importPackages));
    r := Ok(JoinLines(finalLines));
  }

  /** The cell lists every user import line once and none of the fixed imports: an import of a
      file on the stack that is not a fixed import is a line of the cell, and conversely. */
  lemma UserImportsCell(order: seq<string>, filePaths: seq<string>, importPackages: seq<string>,
                        readFile: string -> Option<seq<string>>)
    requires CollectImportLines(Unique(filePaths), readFile).Ok?
    requires IsEnumeration(order, UserImportSet(CollectImportLines(Unique(filePaths), readFile).value, importPackages))
    ensures forall x :: x in order <==> x !in importPackages && ImportedByFile(filePaths, readFile, x)
  {
    var files := Unique(filePaths);
    CollectedExactly(files, readFile);
    forall x ensures ImportedByFile(files, readFile, x) <==> ImportedByFile(filePaths, readFile, x) {
      if ImportedByFile(files, readFile, x) {
        var p :| p in files && readFile(p).Some? && ImportedAs(readFile(p).value, x);
        assert p in filePaths;
      }
      if ImportedByFile(filePaths, readFile, x) {
        var p :| p in filePaths && readFile(p).Some? && ImportedAs(readFile(p).value, x);
        assert p in files;
      }
    }
  }

  /** When the stack's files have user imports, none of them holding a newline, the cell's
      lines are exactly those imports, in the enumeration's order. */
  lemma UserImportsCellLines(order: seq<string>, filePaths: seq<string>, importPackages: seq<string>,
                             readFile: string -> Option<seq<string>>)
    requires CollectImportLines(Unique(filePaths), readFile).Ok?
    requires IsEnumeration(order, UserImportSet(CollectImportLines(Unique(filePaths), readFile).value, importPackages))
    requires order != [] && forall k :: 0 <= k < |order| ==> NoNewline(order[k])
    ensures SplitLines(JoinLines(order)) == order
    ensures forall k :: 0 <= k < |order| ==> order[k] !in importPackages && ImportedByFile(filePaths, readFile, order[k])
  {
    SplitJoinLines(order);
    UserImportsCell(order, filePaths, importPackages, readFile);
  }
}
