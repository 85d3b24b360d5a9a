/** The older capture, core/dump_data.py: its frame filter and its variable
    sanitiser, which drops `self` instead of copying it, has no numbered-name
    or debugger filters, and handles only PickleError and TypeError. */
module Core {
  import opened Base
  import opened Pattern
  import opened Stack
  import opened Sanitize
  import opened Rows
  import Alkh

  /** The four str.contains masks of _make_stack_df; in 'alkh/core/dump_data.py' the `.` is a wildcard. */
  const IgnorePatterns: seq<Regex> := [
    Literal("ipython"),
    Literal("pycharm"),
    Literal("site"),
    Literal("alkh/core/dump_data") + [Wildcard] + Literal("py")
  ]

  /** list_to_remove */
  const Denylist: seq<string> := [
    "self", "__name__", "__doc__", "__package__", "__loader__", "__spec__", "__file__",
    "__builtins__", "__builtin__", "_ih", "_oh", "_dh", "In", "Out",
    "get_ipython", "exit", "quit", "_", "__", "___", "_i", "_ii", "_iii"
  ]

  /** cond1 and cond2 */
  predicate NameAllowed(name: string) {
    !Search(name, Alkh.InputCounterPattern) && name !in Denylist
  }

  /** cond1 to cond5 */
  predicate PassesFilters(b: Binding) {
    NameAllowed(b.name) && !IsCodeOrType(b.value)
  }

  /** except (pickle.PickleError, TypeError) */
  predicate Caught(k: ErrorKind) {
    k == PickleError || k == TypeError
  }

  /** One iteration of the loop of _get_relevant_locals; a handled failure drops the binding silently. */
  function Decide(b: Binding, probe: Probe): (f: Fate)
    ensures f.Skip? <==> !PassesFilters(b)
    ensures f.Keep? <==> PassesFilters(b) && probe(b.value).Pickled?
    ensures f.Keep? ==> f.value == b.value
    ensures f.Unpicklable? <==> PassesFilters(b) && probe(b.value).Fails? && Caught(probe(b.value).kind)
    ensures f.Abort? <==> PassesFilters(b) && probe(b.value).Fails? && !Caught(probe(b.value).kind)
    ensures f.Abort? ==> f.kind == probe(b.value).kind
  {
    if !PassesFilters(b) then Skip
    else
      match probe(b.value)
      case Pickled => Keep(b.value)
      case Fails(k) => if Caught(k) then Unpicklable else Abort(k)
  }

  function Decider(probe: Probe): Binding -> Fate {
    b => Decide(b, probe)
  }

  /** _get_relevant_locals: relevant_locals_dict. */
  function RelevantLocals(ls: seq<Binding>, probe: Probe): (r: Result<seq<Binding>>)
    ensures r.Ok? ==> |r.value| <= |ls|
    ensures r.Err? ==> r.error.Raised? && !Caught(r.error.kind)
  {
    var d := Decider(probe);
    match Fold(ls, d)
    case Ok(s) => FoldSize(ls, d); Ok(s.kept)
    case Err(e) =>
      FoldErrIsFirstAbort(ls, d);
      var j :| 0 <= j < |ls| && d(ls[j]).Abort? && Fold(ls, d).error == Raised(d(ls[j]).kind);
      assert d(ls[j]) == Decide(ls[j], probe);
      Err(e)
  }

  /** _get_relevant_locals as the loop it is. */
  method GetRelevantLocals(localsDict: seq<Binding>, probe: Probe) returns (r: Result<seq<Binding>>)
    ensures r == RelevantLocals(localsDict, probe)
  {
    var relevantLocalsDict: seq<Binding> := [];
    ghost var dropped: seq<string> := [];
    var i := 0;
    while i < |localsDict|
      invariant 0 <= i <= |localsDict|
      invariant Fold(localsDict[..i], Decider(probe)) == Ok(Sanitized(relevantLocalsDict, dropped))
    {
      FoldStep(localsDict, i, Decider(probe));
      var key, value := localsDict[i].name, localsDict[i].value;
      if NameAllowed(key) && !IsCodeOrType(value) {
        var outcome := probe(value);
        if outcome.Pickled? {
          relevantLocalsDict := relevantLocalsDict + [Binding(key, value)];
        } else if Caught(outcome.kind) {
          dropped := dropped + [key];
        } else {
          FoldErrExtends(localsDict, i + 1, Decider(probe));
          return Err(Raised(outcome.kind));
        }
      }
      i := i + 1;
    }
    assert localsDict[..i] == localsDict;
    r := Ok(relevantLocalsDict);
  }

  /** The kept dict holds exactly the namespace bindings that pass the filters and pickle,
      unchanged and in namespace order; `self` is never among them. */
  lemma KeptExactly(ls: seq<Binding>, probe: Probe)
    requires RelevantLocals(ls, probe).Ok?
    ensures forall b :: b in RelevantLocals(ls, probe).value <==>
      b in ls && PassesFilters(b) && probe(b.value).Pickled?
    ensures IsSubsequence(RelevantLocals(ls, probe).value, ls)
    ensures UniqueNames(ls) ==> UniqueNames(RelevantLocals(ls, probe).value)
    ensures forall b :: b in RelevantLocals(ls, probe).value ==> b.name != "self"
  {
    var d := Decider(probe);
    var kept := RelevantLocals(ls, probe).value;
    FoldKeptIff(ls, d);
    forall b ensures b in kept <==> b in ls && PassesFilters(b) && probe(b.value).Pickled? {
      if b in kept {
        var j :| 0 <= j < |ls| && KeptAs(d, ls[j], b);
        assert d(ls[j]) == Decide(ls[j], probe);
        assert ls[j] == b;
      }
      if b in ls && PassesFilters(b) && probe(b.value).Pickled? {
        var j :| 0 <= j < |ls| && ls[j] == b;
        assert d(ls[j]) == Decide(b, probe);
        assert KeptAs(d, ls[j], b);
      }
    }
    var view := (b: Binding) => b;
    forall j | 0 <= j < |ls| && d(ls[j]).Keep?
      ensures view(ls[j]) == Binding(ls[j].name, d(ls[j]).value)
    {
      assert d(ls[j]) == Decide(ls[j], probe);
    }
    FoldKeptInOrder(ls, d, view);
    assert seq(|ls|, k requires 0 <= k < |ls| => view(ls[k])) == ls;
    if UniqueNames(ls) {
      SubsequenceKeepsUniqueNames(kept, ls);
    }
  }

  /** The binding passes the filters and pickling it raises neither PickleError nor TypeError. */
  predicate RaisesUncaught(b: Binding, probe: Probe) {
    PassesFilters(b) && probe(b.value).Fails? && !Caught(probe(b.value).kind)
  }

  /** The loop finishes unless a binding that passes the filters raises an exception other than
      PickleError and TypeError, and then the exception of the first such binding propagates. */
  lemma UncaughtPropagates(ls: seq<Binding>, probe: Probe)
    ensures RelevantLocals(ls, probe).Ok? <==> forall j :: 0 <= j < |ls| ==> !RaisesUncaught(ls[j], probe)
    ensures RelevantLocals(ls, probe).Err? ==> exists j :: (0 <= j < |ls| && RaisesUncaught(ls[j], probe)
      && RelevantLocals(ls, probe).error == Raised(probe(ls[j].value).kind)
      && !Caught(RelevantLocals(ls, probe).error.kind)
      && forall i :: 0 <= i < j ==> !RaisesUncaught(ls[i], probe))
  {
    var d := Decider(probe);
    FoldOkIff(ls, d);
    assert forall j :: 0 <= j < |ls| ==> d(ls[j]) == Decide(ls[j], probe);
    if RelevantLocals(ls, probe).Err? {
      FoldErrIsFirstAbort(ls, d);
      var j :| 0 <= j < |ls| && d(ls[j]).Abort?
        && Fold(ls, d).error == Raised(d(ls[j]).kind)
        && forall i :: 0 <= i < j ==> !d(ls[i]).Abort?;
      assert RaisesUncaught(ls[j], probe);
    }
  }

  /** An AttributeError of the probe propagates here, while the newer variant records the
      variable as not pickled. */
  lemma AttributeErrorPropagatesHere(probe: Probe)
    requires probe(Prim("v")) == Fails(AttributeError)
    ensures RelevantLocals([Binding("x", Prim("v"))], probe) == Err(Raised(AttributeError))
    ensures Alkh.RelevantLocals([Binding("x", Prim("v"))], probe) == Ok(Sanitized([], ["x"]))
  {
    var one := [Binding("x", Prim("v"))];
    assert one[..0] == [];
    assert !Search("x", Alkh.InputCounterPattern) && !Search("x", Alkh.DebugTempPattern);
    assert !Search("x", Alkh.NumericSuffixPattern);
    assert Decide(one[0], probe) == Abort(AttributeError);
    assert Alkh.Decide(one[0], probe) == Unpicklable;
    assert Alkh.Decider(probe)(one[0]) == Unpicklable;
    assert Fold(one, Alkh.Decider(probe)) == Visit(Sanitized([], []), one[0], Unpicklable);
    assert [] + ["x"] == ["x"];
    assert Alkh.RelevantLocals(one, probe) == Fold(one, Alkh.Decider(probe));
  }

  /** A numbered name such as x_1 is kept here and filtered out by the newer variant. */
  lemma NumberedNameKeptHere(probe: Probe)
    requires probe(Prim("w")).Pickled?
    ensures RelevantLocals([Binding("x_1", Prim("w"))], probe) == Ok([Binding("x_1", Prim("w"))])
    ensures Alkh.RelevantLocals([Binding("x_1", Prim("w"))], probe) == Ok(Sanitized([], []))
  {
    var two := [Binding("x_1", Prim("w"))];
    assert two[..0] == [];
    assert RelevantLocals(two, probe) == Ok(two) by {
      assert !Search("x_1", Alkh.InputCounterPattern) by {
        assert !AtomMatches(Alkh.InputCounterPattern[0], "x_1"[0]);
      }
      assert Decide(two[0], probe) == Keep(Prim("w"));
      assert Decider(probe)(two[0]) == Keep(Prim("w"));
      assert Fold(two, Decider(probe)) == Visit(Sanitized([], []), two[0], Keep(Prim("w")));
      assert [] + [two[0]] == two;
    }
    assert Alkh.RelevantLocals(two, probe) == Ok(Sanitized([], [])) by {
      Alkh.RejectedNames();
      assert Alkh.Decide(two[0], probe) == Skip;
      assert Alkh.Decider(probe)(two[0]) == Skip;
      assert Fold(two, Alkh.Decider(probe)) == Visit(Sanitized([], []), two[0], Skip);
      assert Alkh.RelevantLocals(two, probe) == Fold(two, Alkh.Decider(probe));
    }
  }

  /** _make_stack_df of this variant. */
  function StackDf(stack: seq<Frame>, probe: Probe, readFile: Reader): (r: Result<seq<Row>>)
    ensures r.Ok? ==> |r.value| == |KeepFrames(stack, IgnorePatterns)|
    ensures r.Ok? ==> forall k :: 0 <= k < |r.value| ==>
      r.value[k].filePath == KeepFrames(stack, IgnorePatterns)[k].filename && |r.value[k].locals| <= |KeepFrames(stack, IgnorePatterns)[k].locals|
  {
    MakeStackRows(stack, IgnorePatterns, ls => RelevantLocals(ls, probe), readFile)
  }
}
