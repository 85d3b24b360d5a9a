/** Notebook cells as (kind, source) pairs, and the cell texts both variants
    of _create_notebook_object write. */
module Cells {
  import opened Text

  datatype CellKind = Markdown | Code

  /** nbf.v4.new_markdown_cell(source) or nbf.v4.new_code_cell(source). */
  datatype Cell = Cell(kind: CellKind, source: string)

  const Title := "# Generated by alkh"

  /** import_packages_list */
  const FixedImports: seq<string> := ["import pandas as pd", "import alkh"]

  /** The cell that loads the pickled stack_df and shows its summary columns. */
  function ReadPickleSource(pickleFileName: string): string {
    "stack_df = pd.read_pickle('" + pickleFileName + "')\n"
      + "stack_df[[\"file_path\", \"function\", \"lineno\", \"locals_names\"]]"
  }

  /** f"alkh.print_context(stack_df.loc[{index}, 'context'])" */
  function ContextCellSource(index: nat): string {
    "alkh.print_context(stack_df.loc[" + NatToString(index) + ", 'context'])"
  }

  /** f"stack_df.loc[{index}, 'locals']" */
  function LocalsCellSource(index: nat): string {
    "stack_df.loc[" + NatToString(index) + ", 'locals']"
  }

  lemma WrappedDiffer(p: string, a: string, b: string, q: string)
    requires a != b
    ensures p + a + q != p + b + q
  {
    if |a| == |b| {
      assert (p + a + q)[|p|..|p| + |a|] == a;
      assert (p + b + q)[|p|..|p| + |a|] == b;
    } else {
      assert |p + a + q| != |p + b + q|;
    }
  }

  /** The cells of different rows refer to different rows of stack_df. */
  lemma RowCellsDiffer(i: nat, j: nat)
    requires i != j
    ensures ContextCellSource(i) != ContextCellSource(j)
    ensures LocalsCellSource(i) != LocalsCellSource(j)
  {
    NatToStringInjective(i, j);
    WrappedDiffer("alkh.print_context(stack_df.loc[", NatToString(i), NatToString(j), ", 'context'])");
    WrappedDiffer("stack_df.loc[", NatToString(i), NatToString(j), ", 'locals']");
  }

  /** The fixed import cell holds exactly the two fixed import lines. */
  lemma FixedImportsCellLines()
    ensures SplitLines(JoinLines(FixedImports)) == FixedImports
  {
    SplitJoinLines(FixedImports);
  }
}
