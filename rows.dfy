/** _make_stack_df, the same in both variants up to the noise patterns and
    the sanitiser: filter the frames, sanitise every frame's namespace, then
    read every frame's context, and zip the columns into rows. */
module Rows {
  import opened Base
  import opened Pattern
  import opened Stack
  import opened Context
  import opened Cells

  /** _get_relevant_locals of one variant, reduced to the dict it returns. */
  type Sanitizer = seq<Binding> -> Result<seq<Binding>>

  /** open(path).readlines(); None when open raises. */
  type Reader = string -> Option<seq<string>>

  /** What a capture leaves behind: the path of the pickle file and the rows pickled into it,
      the path of the notebook file and its cells. */
  datatype Capture = Capture(picklePath: string, pickled: seq<Row>, notebookPath: string, notebook: seq<Cell>)

  /** df['frame'].apply(_get_frame_locals): the sanitised dict of every frame, in order;
      the first failing frame's exception propagates. */
  function FrameLocals(frames: seq<Frame>, sanitize: Sanitizer): (r: Result<seq<seq<Binding>>>)
    ensures r.Ok? <==> forall k :: 0 <= k < |frames| ==> sanitize(frames[k].locals).Ok?
    ensures r.Ok? ==> |r.value| == |frames|
    ensures r.Ok? ==> forall k :: 0 <= k < |frames| ==> r.value[k] == sanitize(frames[k].locals).value
    ensures r.Err? ==> exists f :: f in frames && sanitize(f.locals) == Err(r.error)
    decreases |frames|
  {
    if frames == [] then Ok([])
    else
      match sanitize(frames[0].locals)
      case Err(e) => Err(e)
      case Ok(d) =>
        match FrameLocals(frames[1..], sanitize)
        case Err(e) => Err(e)
        case Ok(ds) => Ok([d] + ds)
  }

  /** stack_df.apply(_get_context_lines, axis=1): the context of every frame, in order; the
      first file that cannot be opened ends the capture. */
  function Contexts(frames: seq<Frame>, readFile: Reader): (r: Result<seq<seq<string>>>)
    ensures r.Ok? <==> forall k :: 0 <= k < |frames| ==> readFile(frames[k].filename).Some?
    ensures r.Ok? ==> |r.value| == |frames|
    ensures r.Ok? ==> forall k :: 0 <= k < |frames| ==>
      r.value[k] == GetContextLines(frames[k].filename, frames[k].lineno, readFile(frames[k].filename).value)
    ensures r.Err? ==> r.error.FileNotReadable? && readFile(r.error.path).None?
    ensures r.Err? ==> exists f :: f in frames && f.filename == r.error.path
    decreases |frames|
  {
    if frames == [] then Ok([])
    else
      match readFile(frames[0].filename)
      case None => Err(FileNotReadable(frames[0].filename))
      case Some(lines) =>
        match Contexts(frames[1..], readFile)
        case Err(e) => Err(e)
        case Ok(cs) => Ok([GetContextLines(frames[0].filename, frames[0].lineno, lines)] + cs)
  }

  /** _make_stack_df: one row per relevant frame, in stack order, labelled 0.. after
      reset_index: the frame's location, its sanitised dict, that dict's keys, and the context
      read from the frame's file. Every namespace is sanitised before any file is read. */
  function MakeStackRows(frames: seq<Frame>, ignore: seq<Regex>, sanitize: Sanitizer, readFile: Reader): (r: Result<seq<Row>>)
    ensures var relevant := KeepFrames(frames, ignore);
      r.Ok? <==>
        (forall k :: 0 <= k < |relevant| ==> sanitize(relevant[k].locals).Ok?) &&
        (forall k :: 0 <= k < |relevant| ==> readFile(relevant[k].filename).Some?)
    ensures r.Ok? ==> |r.value| == |KeepFrames(frames, ignore)|
    ensures r.Ok? ==> forall k :: 0 <= k < |r.value| ==>
      var row, f := r.value[k], KeepFrames(frames, ignore)[k];
      && row.filePath == f.filename && row.funcName == f.funcName && row.lineno == f.lineno
      && row.locals == sanitize(f.locals).value
      && row.localsNames == Names(row.locals)
      && row.context == GetContextLines(f.filename, f.lineno, readFile(f.filename).value)
  {
    var relevant := KeepFrames(frames, ignore);
    match FrameLocals(relevant, sanitize)
    case Err(e) => Err(e)
    case Ok(ls) =>
      match Contexts(relevant, readFile)
      case Err(e) => Err(e)
      case Ok(cs) =>
        Ok(seq(|relevant|, k requires 0 <= k < |relevant| =>
          Row(relevant[k].filename, relevant[k].funcName, relevant[k].lineno, Names(ls[k]), ls[k], cs[k])))
  }

  /** The namespaces are all sanitised before any file is read: when a sanitiser fails, its
      exception is the one that propagates, whatever the files. */
  lemma LocalsBeforeContext(frames: seq<Frame>, ignore: seq<Regex>, sanitize: Sanitizer, readFile: Reader)
    requires exists f :: f in KeepFrames(frames, ignore) && sanitize(f.locals).Err?
    ensures MakeStackRows(frames, ignore, sanitize, readFile).Err?
    ensures exists f :: (f in KeepFrames(frames, ignore) &&
      sanitize(f.locals) == Err(MakeStackRows(frames, ignore, sanitize, readFile).error))
  {
    var relevant := KeepFrames(frames, ignore);
    var f :| f in relevant && sanitize(f.locals).Err?;
    var j :| 0 <= j < |relevant| && relevant[j] == f;
    assert !sanitize(relevant[j].locals).Ok?;
  }

  /** Every row comes from a frame of the stack whose path is not noise. */
  lemma RowsFromRelevantFrames(frames: seq<Frame>, ignore: seq<Regex>, sanitize: Sanitizer, readFile: Reader)
    requires MakeStackRows(frames, ignore, sanitize, readFile).Ok?
    ensures forall row :: row in MakeStackRows(frames, ignore, sanitize, readFile).value ==>
      !IsIgnored(row.filePath, ignore) &&
      exists f :: f in frames && f.filename == row.filePath && f.lineno == row.lineno && f.funcName == row.funcName
  {
    var relevant := KeepFrames(frames, ignore);
    var rows := MakeStackRows(frames, ignore, sanitize, readFile).value;
    KeepFramesExactly(frames, ignore);
    forall row | row in rows
      ensures !IsIgnored(row.filePath, ignore)
      ensures exists f :: f in frames && f.filename == row.filePath && f.lineno == row.lineno && f.funcName == row.funcName
    {
      var k :| 0 <= k < |rows| && rows[k] == row;
      assert relevant[k] in relevant;
    }
  }
}
