/** The loop both variants run over a frame's namespace: every binding is
    decided on its own, and the decisions are collected in namespace order.
    The decision itself differs between the variants and is a parameter here. */
module Sanitize {
  import opened Base

  /** What the loop does with one binding: skip it (a filter rejects it),
      keep it with the given value, record it as not picklable, or stop
      because the probe raised an exception that no handler catches. */
  datatype Fate = Skip | Keep(value: Value) | Unpicklable | Abort(kind: ErrorKind)

  /** relevant_locals_dict and keys_not_pickled_list. */
  datatype Sanitized = Sanitized(kept: seq<Binding>, notPickled: seq<string>)

  /** One step of the loop. */
  function Visit(s: Sanitized, b: Binding, fate: Fate): Result<Sanitized> {
    match fate
    case Skip => Ok(s)
    case Keep(v) => Ok(Sanitized(s.kept + [Binding(b.name, v)], s.notPickled))
    case Unpicklable => Ok(Sanitized(s.kept, s.notPickled + [b.name]))
    case Abort(k) => Err(Raised(k))
  }

  /** The loop over the namespace, in insertion order; the first uncaught exception ends it. */
  function Fold(ls: seq<Binding>, decide: Binding -> Fate): Result<Sanitized>
    decreases |ls|
  {
    if ls == [] then Ok(Sanitized([], []))
    else
      match Fold(ls[..|ls| - 1], decide)
      case Err(e) => Err(e)
      case Ok(s) => Visit(s, ls[|ls| - 1], decide(ls[|ls| - 1]))
  }

  /** The loop finishes if and only if no binding's decision is to stop. */
  lemma {:induction false} FoldOkIff(ls: seq<Binding>, decide: Binding -> Fate)
    ensures Fold(ls, decide).Ok? <==> forall j :: 0 <= j < |ls| ==> !decide(ls[j]).Abort?
    decreases |ls|
  {
    if ls != [] {
      var init := ls[..|ls| - 1];
      FoldOkIff(init, decide);
      assert forall j :: 0 <= j < |init| ==> init[j] == ls[j];
    }
  }

  /** When the loop stops, it stops with the exception of the first binding whose decision is to stop. */
  lemma {:induction false} FoldErrIsFirstAbort(ls: seq<Binding>, decide: Binding -> Fate)
    requires Fold(ls, decide).Err?
    ensures exists j :: (0 <= j < |ls| && decide(ls[j]).Abort?
      && Fold(ls, decide).error == Raised(decide(ls[j]).kind)
      && forall i :: 0 <= i < j ==> !decide(ls[i]).Abort?)
    decreases |ls|
  {
    var init := ls[..|ls| - 1];
    assert forall j :: 0 <= j < |init| ==> init[j] == ls[j];
    if Fold(init, decide).Err? {
      FoldErrIsFirstAbort(init, decide);
      var j :| 0 <= j < |init| && decide(init[j]).Abort?
        && Fold(init, decide).error == Raised(decide(init[j]).kind)
        && forall i :: 0 <= i < j ==> !decide(init[i]).Abort?;
      assert decide(ls[j]).Abort?;
    } else {
      FoldOkIff(init, decide);
      assert decide(ls[|ls| - 1]).Abort?;
    }
  }

  /** The binding b is kept as x: its decision is Keep with x's value, under b's name. */
  predicate KeptAs(decide: Binding -> Fate, b: Binding, x: Binding) {
    decide(b) == Keep(x.value) && x.name == b.name
  }

  /** Some binding of ls is kept as x. */
  ghost predicate SomeKeptAs(ls: seq<Binding>, decide: Binding -> Fate, x: Binding) {
    exists j :: 0 <= j < |ls| && KeptAs(decide, ls[j], x)
  }

  /** Some binding of ls, with name n, is decided Unpicklable. */
  ghost predicate SomeUnpicklable(ls: seq<Binding>, decide: Binding -> Fate, n: string) {
    exists j :: 0 <= j < |ls| && decide(ls[j]).Unpicklable? && n == ls[j].name
  }

  lemma SomeKeptAsSplit(ls: seq<Binding>, decide: Binding -> Fate, x: Binding)
    requires ls != []
    ensures SomeKeptAs(ls, decide, x) <==>
      SomeKeptAs(ls[..|ls| - 1], decide, x) || KeptAs(decide, ls[|ls| - 1], x)
  {
    var init := ls[..|ls| - 1];
    if SomeKeptAs(ls, decide, x) {
      var j :| 0 <= j < |ls| && KeptAs(decide, ls[j], x);
      if j < |init| {
        assert init[j] == ls[j];
      }
    }
    if SomeKeptAs(init, decide, x) {
      var j :| 0 <= j < |init| && KeptAs(decide, init[j], x);
      assert ls[j] == init[j];
    }
  }

  lemma SomeUnpicklableSplit(ls: seq<Binding>, decide: Binding -> Fate, n: string)
    requires ls != []
    ensures SomeUnpicklable(ls, decide, n) <==>
      SomeUnpicklable(ls[..|ls| - 1], decide, n) || (decide(ls[|ls| - 1]).Unpicklable? && n == ls[|ls| - 1].name)
  {
    var init := ls[..|ls| - 1];
    if SomeUnpicklable(ls, decide, n) {
      var j :| 0 <= j < |ls| && decide(ls[j]).Unpicklable? && n == ls[j].name;
      if j < |init| {
        assert init[j] == ls[j];
      }
    }
    if SomeUnpicklable(init, decide, n) {
      var j :| 0 <= j < |init| && decide(init[j]).Unpicklable? && n == init[j].name;
      assert ls[j] == init[j];
    }
  }

  /** A binding is in the kept dict if and only if some namespace entry is decided Keep with its value. */
  lemma {:induction false} FoldKeptIff(ls: seq<Binding>, decide: Binding -> Fate)
    requires Fold(ls, decide).Ok?
    ensures forall x :: x in Fold(ls, decide).value.kept <==> SomeKeptAs(ls, decide, x)
    decreases |ls|
  {
    if ls != [] {
      var init, b := ls[..|ls| - 1], ls[|ls| - 1];
      FoldKeptIff(init, decide);
      forall x ensures x in Fold(ls, decide).value.kept <==> SomeKeptAs(ls, decide, x) {
        SomeKeptAsSplit(ls, decide, x);
      }
    }
  }

  /** A name is reported as not picklable if and only if some namespace entry of that name is decided Unpicklable. */
  lemma {:induction false} FoldNotPickledIff(ls: seq<Binding>, decide: Binding -> Fate)
    requires Fold(ls, decide).Ok?
    ensures forall n :: n in Fold(ls, decide).value.notPickled <==> SomeUnpicklable(ls, decide, n)
    decreases |ls|
  {
    if ls != [] {
      var init, b := ls[..|ls| - 1], ls[|ls| - 1];
      FoldNotPickledIff(init, decide);
      forall n ensures n in Fold(ls, decide).value.notPickled <==> SomeUnpicklable(ls, decide, n) {
        SomeUnpicklableSplit(ls, decide, n);
      }
    }
  }

  /** The kept bindings appear, in namespace order, in the namespace that view maps each binding to,
      provided every kept value is the one view gives. */
  lemma {:induction false} FoldKeptInOrder(ls: seq<Binding>, decide: Binding -> Fate, view: Binding -> Binding)
    requires Fold(ls, decide).Ok?
    requires forall j :: 0 <= j < |ls| && decide(ls[j]).Keep? ==>
      view(ls[j]) == Binding(ls[j].name, decide(ls[j]).value)
    ensures IsSubsequence(Fold(ls, decide).value.kept, seq(|ls|, k requires 0 <= k < |ls| => view(ls[k])))
    decreases |ls|
  {
    var mapped := seq(|ls|, k requires 0 <= k < |ls| => view(ls[k]));
    if ls == [] {
      SubsequenceEmpty(mapped);
    } else {
      var init, b := ls[..|ls| - 1], ls[|ls| - 1];
      assert forall j :: 0 <= j < |init| ==> init[j] == ls[j];
      FoldKeptInOrder(init, decide, view);
      var minit := seq(|init|, k requires 0 <= k < |init| => view(init[k]));
      assert mapped == minit + [view(b)];
      SubsequenceAppend(Fold(init, decide).value.kept, minit, view(b));
    }
  }

  /** Once the loop has stopped on a prefix of the namespace, it has stopped on the whole namespace. */
  lemma {:induction false} FoldErrExtends(ls: seq<Binding>, i: nat, decide: Binding -> Fate)
    requires i <= |ls| && Fold(ls[..i], decide).Err?
    ensures Fold(ls, decide) == Fold(ls[..i], decide)
    decreases |ls| - i
  {
    if i < |ls| {
      assert ls[..i + 1][..i] == ls[..i];
      FoldErrExtends(ls, i + 1, decide);
    } else {
      assert ls[..i] == ls;
    }
  }

  /** Every binding lands in at most one of the two lists. */
  lemma {:induction false} FoldSize(ls: seq<Binding>, decide: Binding -> Fate)
    requires Fold(ls, decide).Ok?
    ensures |Fold(ls, decide).value.kept| + |Fold(ls, decide).value.notPickled| <= |ls|
    decreases |ls|
  {
    if ls != [] {
      FoldSize(ls[..|ls| - 1], decide);
    }
  }

  /** One more step of the loop. */
  lemma FoldStep(ls: seq<Binding>, i: nat, decide: Binding -> Fate)
    requires i < |ls| && Fold(ls[..i], decide).Ok?
    ensures Fold(ls[..i + 1], decide) == Visit(Fold(ls[..i], decide).value, ls[i], decide(ls[i]))
  {
    assert ls[..i + 1][..i] == ls[..i];
  }
}
