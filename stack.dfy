/** Stack records and the path filter that both variants apply to them
    (the boolean mask over the file_path column in _make_stack_df). */
module Stack {
  import opened Base
  import opened Pattern

  /** One inspect.stack() record: file name, function name, line number and
      the frame's f_locals, in insertion order. */
  datatype Frame = Frame(filename: string, funcName: string, lineno: int, locals: seq<Binding>)

  /** One row of stack_df after reset_index: its label is its position in the sequence. */
  datatype Row = Row(
    filePath: string,
    funcName: string,
    lineno: int,
    localsNames: seq<string>,
    locals: seq<Binding>,
    context: seq<string>)

  /** The path matches one of the noise patterns (the patterns joined with `|`). */
  predicate IsIgnored(path: string, ignore: seq<Regex>) {
    exists k :: 0 <= k < |ignore| && Search(path, ignore[k])
  }

  /** raw_stack_df[~raw_stack_df['file_path'].str.contains(pattern)]: the frames whose path matches no pattern. */
  function KeepFrames(frames: seq<Frame>, ignore: seq<Regex>): (r: seq<Frame>)
    ensures |r| <= |frames|
  {
    if frames == [] then []
    else (if IsIgnored(frames[0].filename, ignore) then [] else [frames[0]]) + KeepFrames(frames[1..], ignore)
  }

  /** A frame is retained if and only if it is an input frame whose path matches no pattern. */
  lemma {:induction false} KeepFramesExactly(frames: seq<Frame>, ignore: seq<Regex>)
    ensures forall f :: f in KeepFrames(frames, ignore) <==> f in frames && !IsIgnored(f.filename, ignore)
    decreases |frames|
  {
    if frames != [] {
      KeepFramesExactly(frames[1..], ignore);
      assert frames == [frames[0]] + frames[1..];
    }
  }

  /** Every retained frame is retained as often as it occurs on the stack: equal frames are
      kept or dropped together. */
  lemma {:induction false} KeepFramesCounts(frames: seq<Frame>, ignore: seq<Regex>)
    ensures forall f :: (multiset(KeepFrames(frames, ignore))[f] ==
      if IsIgnored(f.filename, ignore) then 0 else multiset(frames)[f])
    decreases |frames|
  {
    if frames != [] {
      KeepFramesCounts(frames[1..], ignore);
      assert frames == [frames[0]] + frames[1..];
      assert multiset(frames) == multiset([frames[0]]) + multiset(frames[1..]);
      var head := if IsIgnored(frames[0].filename, ignore) then [] else [frames[0]];
      assert multiset(KeepFrames(frames, ignore)) == multiset(head) + multiset(KeepFrames(frames[1..], ignore));
    }
  }

  /** The retained frames keep their relative order. */
  lemma {:induction false} KeepFramesInOrder(frames: seq<Frame>, ignore: seq<Regex>)
    ensures IsSubsequence(KeepFrames(frames, ignore), frames)
    decreases |frames|
  {
    if frames != [] {
      var rest := KeepFrames(frames[1..], ignore);
      KeepFramesInOrder(frames[1..], ignore);
      if IsIgnored(frames[0].filename, ignore) {
        assert KeepFrames(frames, ignore) == rest;
      } else {
        assert KeepFrames(frames, ignore) == [frames[0]] + rest;
        assert ([frames[0]] + rest)[1..] == rest;
      }
    }
  }

  /** A stack in which no path matches is kept whole. */
  lemma {:induction false} KeepFramesNoNoise(frames: seq<Frame>, ignore: seq<Regex>)
    requires forall k :: 0 <= k < |frames| ==> !IsIgnored(frames[k].filename, ignore)
    ensures KeepFrames(frames, ignore) == frames
    decreases |frames|
  {
    if frames != [] {
      KeepFramesNoNoise(frames[1..], ignore);
    }
  }
}
