/** Values found in a frame's namespace, the serialisation probe that stands
    for pickle.dumps, and the errors a capture can end with. Shared by both
    variants of the capture (alkh/dump_data.py and core/dump_data.py). */
module Base {

  datatype Option<T> = None | Some(value: T)

  /** The exception classes the capture distinguishes. */
  datatype ErrorKind = PickleError | TypeError | AttributeError | OtherError

  /** Why a capture did not finish. */
  datatype Error =
    | EnvironmentError(message: string)  // no output directory given and none in the environment
    | OSError(message: string)           // the resolved output directory does not exist
    | FileNotReadable(path: string)      // open() of a source file raised
    | IndexError                         // sys.path[-1] of an empty list
    | Raised(kind: ErrorKind)            // an exception of the probe that no handler catches

  datatype Result<T> = Ok(value: T) | Err(error: Error)

  /** A live value as the capture sees it: only its kind matters to the
      filters, and an instance with a __dict__ carries its attributes in
      insertion order. A Prim has no __dict__ (ints, strings, lists, ...). */
  datatype Value =
    | Module(name: string)
    | Function(name: string)
    | TypeObj(name: string)
    | Obj(cls: string, attrs: seq<Binding>)
    | Prim(repr: string)

  /** One entry of a dict: a frame's namespace or an instance __dict__. */
  datatype Binding = Binding(name: string, value: Value)

  /** What pickle.dumps does with a value: it succeeds or raises. */
  datatype Outcome = Pickled | Fails(kind: ErrorKind)

  type Probe = Value -> Outcome

  /** isinstance(v, types.ModuleType), isinstance(v, types.FunctionType) or isinstance(v, type). */
  predicate IsCodeOrType(v: Value) {
    v.Module? || v.Function? || v.TypeObj?
  }

  /** list(d.keys()): the names of a dict in insertion order. */
  function Names(d: seq<Binding>): (r: seq<string>)
    ensures |r| == |d|
    ensures forall k :: 0 <= k < |d| ==> r[k] == d[k].name
  {
    if d == [] then [] else [d[0].name] + Names(d[1..])
  }

  /** A name is a key of the dict iff some binding has that name. */
  lemma NameIn(d: seq<Binding>, n: string)
    ensures n in Names(d) <==> exists b :: b in d && b.name == n
  {
    if n in Names(d) {
      var k :| 0 <= k < |d| && Names(d)[k] == n;
      assert d[k] in d;
    }
    if exists b :: b in d && b.name == n {
      var b :| b in d && b.name == n;
      var j :| 0 <= j < |d| && d[j] == b;
      assert Names(d)[j] == n;
    }
  }

  /** Dict keys are unique. */
  ghost predicate UniqueNames(d: seq<Binding>) {
    forall i, j :: 0 <= i < j < |d| ==> d[i].name != d[j].name
  }

  /** a is obtained from b by deleting elements, the rest keeping their order. */
  ghost predicate IsSubsequence<T>(a: seq<T>, b: seq<T>)
    decreases |b|
  {
    a == [] || (b != [] && ((a[0] == b[0] && IsSubsequence(a[1..], b[1..])) || IsSubsequence(a, b[1..])))
  }

  lemma {:induction false} SubsequenceMembers<T>(a: seq<T>, b: seq<T>)
    requires IsSubsequence(a, b)
    ensures forall x :: x in a ==> x in b
    decreases |b|
  {
    if a != [] {
      if a[0] == b[0] && IsSubsequence(a[1..], b[1..]) {
        SubsequenceMembers(a[1..], b[1..]);
        forall x | x in a ensures x in b {
          if x != a[0] {
            assert x in a[1..];
          }
        }
      } else {
        SubsequenceMembers(a, b[1..]);
      }
    }
  }

  lemma {:induction false} SubsequenceKeepsUniqueNames(a: seq<Binding>, b: seq<Binding>)
    requires IsSubsequence(a, b) && UniqueNames(b)
    ensures UniqueNames(a)
    decreases |b|
  {
    if a != [] {
      if a[0] == b[0] && IsSubsequence(a[1..], b[1..]) {
        SubsequenceKeepsUniqueNames(a[1..], b[1..]);
        SubsequenceMembers(a[1..], b[1..]);
        forall i, j | 0 <= i < j < |a| ensures a[i].name != a[j].name {
          if i > 0 {
            assert a[i] == a[1..][i - 1] && a[j] == a[1..][j - 1];
          } else {
            assert a[j] in b[1..];
            var k :| 0 <= k < |b[1..]| && b[1..][k] == a[j];
            assert b[k + 1] == a[j];
          }
        }
      } else {
        SubsequenceKeepsUniqueNames(a, b[1..]);
      }
    }
  }

  lemma {:induction false} SubsequenceReflexive<T>(a: seq<T>)
    ensures IsSubsequence(a, a)
    decreases |a|
  {
    if a != [] {
      SubsequenceReflexive(a[1..]);
    }
  }

  lemma {:induction false} SubsequenceAppend<T>(a: seq<T>, b: seq<T>, x: T)
    requires IsSubsequence(a, b)
    ensures IsSubsequence(a, b + [x])
    ensures IsSubsequence(a + [x], b + [x])
    decreases |b|
  {
    if b == [] {
      assert a == [];
      assert ([] + [x])[1..] == [];
    } else {
      assert (b + [x])[1..] == b[1..] + [x];
      if a != [] {
        assert (a + [x])[1..] == a[1..] + [x];
        if a[0] == b[0] && IsSubsequence(a[1..], b[1..]) {
          SubsequenceAppend(a[1..], b[1..], x);
        } else {
          SubsequenceAppend(a, b[1..], x);
        }
      } else {
        if b + [x] != [] {
          SubsequenceAppend(a, b[1..], x);
        }
        assert ([] + [x])[1..] == [];
        SubsequenceEmpty(b + [x]);
      }
    }
  }

  lemma {:induction false} SubsequenceEmpty<T>(b: seq<T>)
    ensures IsSubsequence([], b)
  {
  }

  /** A slice that lies inside the second part of a concatenation. */
  lemma SliceOfSecond<T>(a: seq<T>, b: seq<T>, i: nat, j: nat)
    requires |a| <= i <= j <= |a| + |b|
    ensures (a + b)[i..j] == b[i - |a|..j - |a|]
  {
  }
}
