/** The newer capture, alkh/dump_data.py: frame filter, variable sanitiser
    with the receiver copy, the stack rows, and the notebook it writes. */
module Alkh {
  import opened Base
  import opened Text
  import opened Pattern
  import opened Stack
  import opened Sanitize
  import opened Context
  import opened OutputDir
  import opened Cells

  // ---------------------------------------------------------------------
  // Frame filter

  /** ignore_stack_list, joined with `|` into one regular expression. In the
      two dump_data patterns `.` is a wildcard and `\\` a literal backslash. */
  const IgnorePatterns: seq<Regex> := [
    Literal("ipython"),
    Literal("pycharm"),
    Literal("site-packages"),
    Literal("pydev"),
    Literal("alkh\\dump_data") + [Wildcard] + Literal("py"),
    Literal("alkh/dump_data") + [Wildcard] + Literal("py")
  ]

  /** The frames _make_stack_df keeps. */
  function RelevantFrames(frames: seq<Frame>): (r: seq<Frame>)
    ensures forall f :: f in r <==> f in frames && !IsIgnored(f.filename, IgnorePatterns)
    ensures IsSubsequence(r, frames)
  {
    KeepFramesExactly(frames, IgnorePatterns);
    KeepFramesInOrder(frames, IgnorePatterns);
    KeepFrames(frames, IgnorePatterns)
  }

  // ---------------------------------------------------------------------
  // Name and value filters of _get_relevant_locals

  /** list_to_remove */
  const Denylist: seq<string> := [
    "__name__", "__doc__", "__package__", "__loader__", "__spec__", "__file__",
    "__builtins__", "__builtin__", "_ih", "_oh", "_dh", "In", "Out",
    "get_ipython", "exit", "quit", "_", "__", "___", "_i", "_ii", "_iii"
  ]

  /** '_i[0-9]+' (searching for it finds a match exactly where '_i[0-9]' does) */
  const InputCounterPattern: Regex := [Char('_'), Char('i'), Digit]

  /** '__py_debug_temp_var' */
  const DebugTempPattern: Regex := Literal("__py_debug_temp_var")

  /** '_[0-9]' */
  const NumericSuffixPattern: Regex := [Char('_'), Digit]

  /** cond1, cond2, cond6 and cond7. */
  predicate NameAllowed(name: string) {
    && !Search(name, InputCounterPattern)
    && name !in Denylist
    && !Search(name, DebugTempPattern)
    && !Search(name, NumericSuffixPattern)
  }

  /** All seven conditions: the name filters and cond3 to cond5 on the value. */
  predicate PassesFilters(b: Binding) {
    NameAllowed(b.name) && !IsCodeOrType(b.value)
  }

  /** except (pickle.PickleError, TypeError, AttributeError) */
  predicate Caught(k: ErrorKind) {
    k == PickleError || k == TypeError || k == AttributeError
  }

  // ---------------------------------------------------------------------
  // _get_picklable_object

  /** keys_to_delete: the attribute names whose values the probe rejects, in __dict__ order. */
  function FailingNames(attrs: seq<Binding>, probe: Probe): seq<string>
    decreases |attrs|
  {
    if attrs == [] then []
    else
      var init, b := attrs[..|attrs| - 1], attrs[|attrs| - 1];
      FailingNames(init, probe) + (if probe(b.value).Pickled? then [] else [b.name])
  }

  /** The dict with every entry whose name is in names deleted. */
  function WithoutNames(attrs: seq<Binding>, names: set<string>): seq<Binding>
    decreases |attrs|
  {
    if attrs == [] then []
    else (if attrs[0].name in names then [] else [attrs[0]]) + WithoutNames(attrs[1..], names)
  }

  function SetOf(ks: seq<string>): set<string> {
    set k | k in ks
  }

  /** What _get_picklable_object returns: the copy of an instance without the
      attributes that fail the probe; an object without __dict__ raises AttributeError. */
  function PicklableObject(v: Value, probe: Probe): (r: Result<Value>)
    ensures r.Ok? <==> v.Obj?
    ensures r.Err? ==> r.error == Raised(AttributeError)
    ensures r.Ok? ==> r.value.Obj? && r.value.cls == v.cls
    ensures r.Ok? ==> forall b :: b in r.value.attrs ==> b in v.attrs && probe(b.value).Pickled?
  {
    match v
    case Obj(cls, attrs) =>
      CopyDropsExactlyTheFailingAttributes(attrs, probe);
      Ok(Obj(cls, WithoutNames(attrs, SetOf(FailingNames(attrs, probe)))))
    case _ => Err(Raised(AttributeError))
  }

  lemma {:induction false} WithoutNamesTwice(attrs: seq<Binding>, s: set<string>, t: set<string>)
    ensures WithoutNames(WithoutNames(attrs, s), t) == WithoutNames(attrs, s + t)
    decreases |attrs|
  {
    if attrs != [] {
      WithoutNamesTwice(attrs[1..], s, t);
      var rest := WithoutNames(attrs[1..], s);
      if attrs[0].name in s {
        assert WithoutNames(attrs, s) == rest;
      } else {
        assert WithoutNames(attrs, s) == [attrs[0]] + rest;
        assert ([attrs[0]] + rest)[1..] == rest;
      }
    }
  }

  lemma {:induction false} WithoutNoNames(attrs: seq<Binding>)
    ensures WithoutNames(attrs, {}) == attrs
    decreases |attrs|
  {
    if attrs != [] {
      WithoutNoNames(attrs[1..]);
    }
  }

  /** Loop 1 of _get_picklable_object: keys_to_delete collects the names of the attributes that fail, in order. */
  method CollectKeysToDelete(attrs: seq<Binding>, probe: Probe) returns (keys: seq<string>)
    ensures keys == FailingNames(attrs, probe)
  {
    keys := [];
    var i := 0;
    while i < |attrs|
      invariant 0 <= i <= |attrs|
      invariant keys == FailingNames(attrs[..i], probe)
    {
      assert attrs[..i + 1][..i] == attrs[..i];
      if !probe(attrs[i].value).Pickled? {
        keys := keys + [attrs[i].name];
      }
      i := i + 1;
    }
    assert attrs[..i] == attrs;
  }

  /** Loop 2 of _get_picklable_object: `del object_copy.__dict__[key]` for every collected key. */
  method DeleteKeys(attrs: seq<Binding>, keys: seq<string>) returns (d: seq<Binding>)
    ensures d == WithoutNames(attrs, SetOf(keys))
  {
    d := attrs;
    WithoutNoNames(attrs);
    assert SetOf(keys[..0]) == {};
    var j := 0;
    while j < |keys|
      invariant 0 <= j <= |keys|
      invariant d == WithoutNames(attrs, SetOf(keys[..j]))
    {
      WithoutNamesTwice(attrs, SetOf(keys[..j]), {keys[j]});
      assert SetOf(keys[..j + 1]) == SetOf(keys[..j]) + {keys[j]} by {
        assert keys[..j + 1] == keys[..j] + [keys[j]];
      }
      d := WithoutNames(d, {keys[j]});
      j := j + 1;
    }
    assert keys[..j] == keys;
  }

  /** _get_picklable_object: copy.copy, collect the failing attributes, delete them from the copy. */
  method GetPicklableObject(obj: Value, probe: Probe) returns (r: Result<Value>)
    ensures r == PicklableObject(obj, probe)
  {
    if !obj.Obj? {
      return Err(Raised(AttributeError));
    }
    var copyAttrs := obj.attrs;
    var keysToDelete := CollectKeysToDelete(copyAttrs, probe);
    copyAttrs := DeleteKeys(copyAttrs, keysToDelete);
    r := Ok(Obj(obj.cls, copyAttrs));
  }

  lemma {:induction false} FailingNamesIff(attrs: seq<Binding>, probe: Probe, n: string)
    ensures n in FailingNames(attrs, probe) <==>
      exists j :: 0 <= j < |attrs| && attrs[j].name == n && !probe(attrs[j].value).Pickled?
    decreases |attrs|
  {
    if attrs != [] {
      var init := attrs[..|attrs| - 1];
      FailingNamesIff(init, probe, n);
      assert forall j :: 0 <= j < |init| ==> init[j] == attrs[j];
      if exists j :: 0 <= j < |attrs| && attrs[j].name == n && !probe(attrs[j].value).Pickled? {
        var j :| 0 <= j < |attrs| && attrs[j].name == n && !probe(attrs[j].value).Pickled?;
        if j < |init| {
          assert init[j].name == n && !probe(init[j].value).Pickled?;
        }
      }
    }
  }

  lemma {:induction false} WithoutNamesMembers(attrs: seq<Binding>, names: set<string>)
    ensures forall b :: b in WithoutNames(attrs, names) <==> b in attrs && b.name !in names
    ensures IsSubsequence(WithoutNames(attrs, names), attrs)
    decreases |attrs|
  {
    if attrs != [] {
      WithoutNamesMembers(attrs[1..], names);
      var rest := WithoutNames(attrs[1..], names);
      assert attrs == [attrs[0]] + attrs[1..];
      if attrs[0].name !in names {
        assert WithoutNames(attrs, names) == [attrs[0]] + rest;
        assert ([attrs[0]] + rest)[1..] == rest;
      } else {
        assert WithoutNames(attrs, names) == rest;
        if rest != [] {
          assert IsSubsequence(rest, attrs[1..]);
        } else {
          SubsequenceEmpty(attrs);
        }
      }
    }
  }

  /** The copy keeps the attributes whose names are not among the failing names, in their
      order: every kept attribute passes the probe, and for a __dict__ (unique names) every
      attribute that passes is kept. */
  lemma CopyDropsExactlyTheFailingAttributes(attrs: seq<Binding>, probe: Probe)
    ensures var kept := WithoutNames(attrs, SetOf(FailingNames(attrs, probe)));
      && IsSubsequence(kept, attrs)
      && (forall b :: b in kept ==> b in attrs && probe(b.value).Pickled?)
      && (forall b :: b in attrs && b.name !in FailingNames(attrs, probe) ==> b in kept)
      && (UniqueNames(attrs) ==> forall b :: b in attrs && probe(b.value).Pickled? ==> b in kept)
  {
    var failing := SetOf(FailingNames(attrs, probe));
    WithoutNamesMembers(attrs, failing);
    forall b | b in attrs && b.name !in failing
      ensures probe(b.value).Pickled?
    {
      var j :| 0 <= j < |attrs| && attrs[j] == b;
      FailingNamesIff(attrs, probe, b.name);
    }
    if UniqueNames(attrs) {
      forall b | b in attrs && probe(b.value).Pickled?
        ensures b.name !in failing
      {
        FailingNamesIff(attrs, probe, b.name);
      }
    }
  }

  /** The copy's attribute names are the original's minus exactly the failing names. */
  lemma CopyNames(attrs: seq<Binding>, probe: Probe)
    ensures var kept := WithoutNames(attrs, SetOf(FailingNames(attrs, probe)));
      forall n :: n in Names(kept) <==> n in Names(attrs) && n !in FailingNames(attrs, probe)
  {
    var failing := SetOf(FailingNames(attrs, probe));
    var kept := WithoutNames(attrs, failing);
    WithoutNamesMembers(attrs, failing);
    forall n ensures n in Names(kept) <==> n in Names(attrs) && n !in failing {
      NameIn(kept, n);
      NameIn(attrs, n);
    }
  }

  lemma {:induction false} NoFailingNames(attrs: seq<Binding>, probe: Probe)
    requires forall b :: b in attrs ==> probe(b.value).Pickled?
    ensures FailingNames(attrs, probe) == []
    decreases |attrs|
  {
    if attrs != [] {
      var init := attrs[..|attrs| - 1];
      assert forall b :: b in init ==> b in attrs;
      NoFailingNames(init, probe);
    }
  }

  /** Copying a copy changes nothing: sanitising the receiver twice gives the receiver of the first time. */
  lemma PicklableObjectIdempotent(v: Value, probe: Probe)
    requires PicklableObject(v, probe).Ok?
    ensures PicklableObject(PicklableObject(v, probe).value, probe) == PicklableObject(v, probe)
  {
    var c := PicklableObject(v, probe).value;
    CopyDropsExactlyTheFailingAttributes(v.attrs, probe);
    NoFailingNames(c.attrs, probe);
    assert SetOf([]) == {};
    WithoutNoNames(c.attrs);
  }

  // ---------------------------------------------------------------------
  // The decision for one binding, and the loop

  /** The fate of a value handed to pickle.dumps. */
  function ProbeFate(v: Value, probe: Probe): Fate {
    match probe(v)
    case Pickled => Keep(v)
    case Fails(k) => if Caught(k) then Unpicklable else Abort(k)
  }

  /** The probe raises, with an exception of the handled classes. */
  predicate FailsCaught(v: Value, probe: Probe) {
    probe(v).Fails? && Caught(probe(v).kind)
  }

  /** The value handed to pickle.dumps for b: for `self` its copy, when the copy succeeds. */
  function Probed(b: Binding, probe: Probe): Value {
    if b.name == "self" && PicklableObject(b.value, probe).Ok? then PicklableObject(b.value, probe).value else b.value
  }

  /** b passes the filters but is recorded in keys_not_pickled_list: the copy of `self` raised,
      or pickle.dumps raised a handled exception. */
  predicate ReportedUnpicklable(b: Binding, probe: Probe) {
    PassesFilters(b) &&
    ((b.name == "self" && PicklableObject(b.value, probe).Err?) || FailsCaught(Probed(b, probe), probe))
  }

  /** b passes the filters and pickle.dumps raises an exception that the loop does not handle. */
  predicate RaisesUncaught(b: Binding, probe: Probe) {
    PassesFilters(b) && !(b.name == "self" && PicklableObject(b.value, probe).Err?) &&
    probe(Probed(b, probe)).Fails? && !Caught(probe(Probed(b, probe)).kind)
  }

  /** One iteration of the loop of _get_relevant_locals. */
  function Decide(b: Binding, probe: Probe): (f: Fate)
    ensures f.Skip? <==> !PassesFilters(b)
    ensures f.Unpicklable? <==> ReportedUnpicklable(b, probe)
    ensures f.Abort? <==> RaisesUncaught(b, probe)
    ensures f.Keep? ==> probe(f.value).Pickled? && !IsCodeOrType(f.value)
    ensures f.Keep? && b.name != "self" ==> f.value == b.value
    ensures f.Keep? && b.name == "self" ==> PicklableObject(b.value, probe) == Ok(f.value)
    ensures f.Abort? ==> !Caught(f.kind)
    ensures f.Abort? && b.name != "self" ==> probe(b.value) == Fails(f.kind)
    ensures f.Abort? && b.name == "self" ==>
      PicklableObject(b.value, probe).Ok? && probe(PicklableObject(b.value, probe).value) == Fails(f.kind)
  {
    if !PassesFilters(b) then Skip
    else if b.name == "self" then
      match PicklableObject(b.value, probe)
      case Err(_) => Unpicklable
      case Ok(c) => ProbeFate(c, probe)
    else ProbeFate(b.value, probe)
  }

  function Decider(probe: Probe): Binding -> Fate {
    b => Decide(b, probe)
  }

  /** The value locals_dict holds for the binding once the loop has passed it:
      `self` is overwritten by its copy when the filters pass and the copy succeeds. */
  function Overwrite(b: Binding, probe: Probe): Binding {
    if b.name == "self" && PassesFilters(b) && PicklableObject(b.value, probe).Ok?
    then Binding(b.name, PicklableObject(b.value, probe).value)
    else b
  }

  /** The namespace after the loop. */
  function NamespaceAfter(ls: seq<Binding>, probe: Probe): seq<Binding> {
    seq(|ls|, k requires 0 <= k < |ls| => Overwrite(ls[k], probe))
  }

  /** _get_relevant_locals */
  function RelevantLocals(ls: seq<Binding>, probe: Probe): (r: Result<Sanitized>)
    ensures r.Ok? ==> |r.value.kept| + |r.value.notPickled| <= |ls|
    ensures r.Err? ==> r.error.Raised? && !Caught(r.error.kind)
  {
    var d := Decider(probe);
    if Fold(ls, d).Ok? then FoldSize(ls, d); Fold(ls, d)
    else
      FoldErrIsFirstAbort(ls, d);
      var j :| 0 <= j < |ls| && d(ls[j]).Abort? && Fold(ls, d).error == Raised(d(ls[j]).kind);
      assert d(ls[j]) == Decide(ls[j], probe);
      Fold(ls, d)
  }

  /** The one-time report: the set of names that could not be pickled, if there is any. */
  function Report(r: Result<Sanitized>): Option<set<string>> {
    if r.Ok? && r.value.notPickled != [] then Some(SetOf(r.value.notPickled)) else None
  }

  /** The body of the loop of _get_relevant_locals for one binding: what happens to it, and
      what locals_dict holds for it afterwards. */
  method VisitBinding(b: Binding, probe: Probe) returns (fate: Fate, after: Binding)
    ensures fate == Decide(b, probe)
    ensures after == Overwrite(b, probe)
  {
    after := b;
    var key, value := b.name, b.value;
    if !(NameAllowed(key) && !IsCodeOrType(value)) {
      return Skip, after;
    }
    if key == "self" {
      var copy := GetPicklableObject(value, probe);
      if copy.Err? {
        return Unpicklable, after;
      }
      after := Binding(key, copy.value);
      value := copy.value;
    }
    var outcome := probe(value);
    if outcome.Pickled? {
      fate := Keep(value);
    } else if Caught(outcome.kind) {
      fate := Unpicklable;
    } else {
      fate := Abort(outcome.kind);
    }
  }

  /** _get_relevant_locals as the loop it is. Besides the kept dict and the
      not-pickled names it returns the report it prints and the namespace,
      in which `self` may have been overwritten by its copy. */
  method GetRelevantLocals(locals: seq<Binding>, probe: Probe)
    returns (r: Result<Sanitized>, report: Option<set<string>>, namespace: seq<Binding>)
    ensures r == RelevantLocals(locals, probe)
    ensures report == Report(r)
    ensures r.Ok? ==> namespace == NamespaceAfter(locals, probe)
  {
    namespace := locals;
    var kept: seq<Binding> := [];
    var notPickled: seq<string> := [];
    report := None;
    var i := 0;
    while i < |namespace|
      invariant 0 <= i <= |locals| == |namespace|
      invariant Fold(locals[..i], Decider(probe)) == Ok(Sanitized(kept, notPickled))
      invariant forall k :: 0 <= k < i ==> namespace[k] == Overwrite(locals[k], probe)
      invariant forall k :: i <= k < |locals| ==> namespace[k] == locals[k]
    {
      FoldStep(locals, i, Decider(probe));
      var key := namespace[i].name;
      var fate, after := VisitBinding(namespace[i], probe);
      namespace := namespace[i := after];
      match fate {
        case Skip =>
        case Keep(v) => kept := kept + [Binding(key, v)];
        case Unpicklable => notPickled := notPickled + [key];
        case Abort(k) =>
          FoldErrExtends(locals, i + 1, Decider(probe));
          return Err(Raised(k)), None, namespace;
      }
      i := i + 1;
    }
    assert locals[..i] == locals;
    r := Ok(Sanitized(kept, notPickled));
    if notPickled != [] {
      report := Some(SetOf(notPickled));
    }
  }

  // ---------------------------------------------------------------------
  // What the loop promises

  /** A kept binding passed every filter and its value pickles; under any name but `self`
      it is the namespace's own binding, under `self` it is the copy of the namespace's receiver. */
  lemma KeptOnlyIfAllowed(ls: seq<Binding>, probe: Probe)
    requires RelevantLocals(ls, probe).Ok?
    ensures forall x :: x in RelevantLocals(ls, probe).value.kept ==>
      && NameAllowed(x.name) && !IsCodeOrType(x.value) && probe(x.value).Pickled?
      && (x.name != "self" ==> x in ls)
      && (x.name == "self" ==> exists b :: b in ls && b.name == "self" && PicklableObject(b.value, probe) == Ok(x.value))
  {
    var d := Decider(probe);
    FoldKeptIff(ls, d);
    forall x | x in RelevantLocals(ls, probe).value.kept
      ensures NameAllowed(x.name) && !IsCodeOrType(x.value) && probe(x.value).Pickled?
      ensures x.name != "self" ==> x in ls
      ensures x.name == "self" ==> exists b :: b in ls && b.name == "self" && PicklableObject(b.value, probe) == Ok(x.value)
    {
      var j :| 0 <= j < |ls| && KeptAs(d, ls[j], x);
      assert d(ls[j]) == Decide(ls[j], probe);
      assert ls[j] in ls;
    }
  }

  /** Conversely, every binding that passes the filters and pickles is kept (for `self`, its copy). */
  lemma AllowedPicklableKept(ls: seq<Binding>, probe: Probe)
    requires RelevantLocals(ls, probe).Ok?
    ensures forall b ::
      (b in ls && PassesFilters(b) && !(b.name == "self" && PicklableObject(b.value, probe).Err?)
       && probe(Probed(b, probe)).Pickled?) ==>
      Binding(b.name, Probed(b, probe)) in RelevantLocals(ls, probe).value.kept
  {
    var d := Decider(probe);
    FoldKeptIff(ls, d);
    forall b | b in ls && PassesFilters(b) && !(b.name == "self" && PicklableObject(b.value, probe).Err?)
      && probe(Probed(b, probe)).Pickled?
      ensures Binding(b.name, Probed(b, probe)) in RelevantLocals(ls, probe).value.kept
    {
      var j :| 0 <= j < |ls| && ls[j] == b;
      assert d(ls[j]) == Decide(b, probe);
      assert KeptAs(d, ls[j], Binding(b.name, Probed(b, probe)));
    }
  }

  /** A name is reported as not pickled exactly when a binding of that name passes the filters
      and its copy or pickle.dumps raises a handled exception. */
  lemma NotPickledExactly(ls: seq<Binding>, probe: Probe)
    requires RelevantLocals(ls, probe).Ok?
    ensures forall n :: n in RelevantLocals(ls, probe).value.notPickled <==>
      exists b :: b in ls && b.name == n && ReportedUnpicklable(b, probe)
  {
    var d := Decider(probe);
    FoldNotPickledIff(ls, d);
    forall n ensures n in RelevantLocals(ls, probe).value.notPickled <==>
      exists b :: b in ls && b.name == n && ReportedUnpicklable(b, probe)
    {
      if SomeUnpicklable(ls, d, n) {
        var j :| 0 <= j < |ls| && d(ls[j]).Unpicklable? && n == ls[j].name;
        assert d(ls[j]) == Decide(ls[j], probe);
        assert ls[j] in ls;
      }
      if exists b :: b in ls && b.name == n && ReportedUnpicklable(b, probe) {
        var b :| b in ls && b.name == n && ReportedUnpicklable(b, probe);
        var j :| 0 <= j < |ls| && ls[j] == b;
        assert d(ls[j]) == Decide(b, probe);
      }
    }
  }

  /** The handled exceptions never escape: the loop finishes unless some binding raises an
      unhandled one, and then it is the first such binding's exception that propagates. */
  lemma UncaughtPropagates(ls: seq<Binding>, probe: Probe)
    ensures RelevantLocals(ls, probe).Ok? <==> forall j :: 0 <= j < |ls| ==> !RaisesUncaught(ls[j], probe)
    ensures RelevantLocals(ls, probe).Err? ==> exists j :: (0 <= j < |ls| && RaisesUncaught(ls[j], probe)
      && RelevantLocals(ls, probe).error == Raised(probe(Probed(ls[j], probe)).kind)
      && !Caught(RelevantLocals(ls, probe).error.kind)
      && forall i :: 0 <= i < j ==> !RaisesUncaught(ls[i], probe))
  {
    var d := Decider(probe);
    FoldOkIff(ls, d);
    assert forall j :: 0 <= j < |ls| ==> d(ls[j]) == Decide(ls[j], probe);
    if RelevantLocals(ls, probe).Err? {
      FoldErrIsFirstAbort(ls, d);
      var j :| 0 <= j < |ls| && d(ls[j]).Abort?
        && Fold(ls, d).error == Raised(d(ls[j]).kind)
        && forall i :: 0 <= i < j ==> !d(ls[i]).Abort?;
      assert RaisesUncaught(ls[j], probe);
    }
  }

  /** The kept dict is a sub-dict of the namespace after the loop, in namespace order; since
      namespace keys are unique, so are the kept ones. */
  lemma KeptInNamespaceOrder(ls: seq<Binding>, probe: Probe)
    requires RelevantLocals(ls, probe).Ok?
    ensures IsSubsequence(RelevantLocals(ls, probe).value.kept, NamespaceAfter(ls, probe))
    ensures UniqueNames(ls) ==> UniqueNames(RelevantLocals(ls, probe).value.kept)
  {
    var d := Decider(probe);
    var view := (b: Binding) => Overwrite(b, probe);
    forall j | 0 <= j < |ls| && d(ls[j]).Keep?
      ensures view(ls[j]) == Binding(ls[j].name, d(ls[j]).value)
    {
      assert d(ls[j]) == Decide(ls[j], probe);
    }
    FoldKeptInOrder(ls, d, view);
    assert seq(|ls|, k requires 0 <= k < |ls| => view(ls[k])) == NamespaceAfter(ls, probe);
    if UniqueNames(ls) {
      assert UniqueNames(NamespaceAfter(ls, probe));
      SubsequenceKeepsUniqueNames(RelevantLocals(ls, probe).value.kept, NamespaceAfter(ls, probe));
    }
  }

  /** Only `self` is ever overwritten, and only by the copy of itself. */
  lemma NamespaceAfterOnlyTouchesSelf(ls: seq<Binding>, probe: Probe)
    ensures |NamespaceAfter(ls, probe)| == |ls|
    ensures forall k :: 0 <= k < |ls| ==> NamespaceAfter(ls, probe)[k].name == ls[k].name
    ensures forall k :: 0 <= k < |ls| && ls[k].name != "self" ==> NamespaceAfter(ls, probe)[k] == ls[k]
    ensures forall k :: 0 <= k < |ls| && NamespaceAfter(ls, probe)[k] != ls[k] ==>
      PicklableObject(ls[k].value, probe) == Ok(NamespaceAfter(ls, probe)[k].value)
  {
  }

  /** A name containing __py_debug_temp_var is never kept, whatever its value. */
  lemma DebugTempNeverKept(ls: seq<Binding>, probe: Probe)
    requires RelevantLocals(ls, probe).Ok?
    ensures forall x :: x in RelevantLocals(ls, probe).value.kept ==> !Contains(x.name, "__py_debug_temp_var")
  {
    KeptOnlyIfAllowed(ls, probe);
    forall x | x in RelevantLocals(ls, probe).value.kept
      ensures !Contains(x.name, "__py_debug_temp_var")
    {
      SearchLiteral(x.name, "__py_debug_temp_var");
    }
  }

  /** Names the filters reject, whatever their values: IPython's input and output history,
      numbered temporaries and the debugger's temporary variables. */
  lemma RejectedNames()
    ensures !NameAllowed("_i3") && !NameAllowed("x_1") && !NameAllowed("Out")
    ensures !NameAllowed("__py_debug_temp_var_0")
  {
    assert MatchesAt("_i3", 0, InputCounterPattern);
    assert MatchesAt("x_1", 1, NumericSuffixPattern);
    assert MatchesAt("__py_debug_temp_var_0", 0, DebugTempPattern);
  }

  /** The sanitised dict of one frame, the value stored in the locals column. */
  function KeptLocals(ls: seq<Binding>, probe: Probe): (r: Result<seq<Binding>>)
    ensures r.Ok? <==> RelevantLocals(ls, probe).Ok?
    ensures r.Ok? ==> r.value == RelevantLocals(ls, probe).value.kept
    ensures r.Err? ==> r.error == RelevantLocals(ls, probe).error
  {
    match RelevantLocals(ls, probe)
    case Ok(s) => Ok(s.kept)
    case Err(e) => Err(e)
  }
}
