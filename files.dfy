/** The names take_it_offline gives its two output files, the same in both
    variants: a random base name, the pickle file base + ".pkl" and the
    notebook base + ".ipynb", both in the output directory. */
module Files {
  import opened Text

  /** The number of '-' in s. */
  function DashCount(s: string): nat
    decreases |s|
  {
    if s == [] then 0 else (if s[0] == '-' then 1 else 0) + DashCount(s[1..])
  }

  /** s.replace('-', '') */
  function RemoveDashes(s: string): (r: string)
    ensures forall k :: 0 <= k < |r| ==> r[k] != '-'
    ensures |r| == |s| - DashCount(s)
    ensures DashCount(s) == 0 ==> r == s
    ensures |s| == 1 ==> r == (if s[0] == '-' then [] else s)
    decreases |s|
  {
    if s == [] then []
    else
      var rest := RemoveDashes(s[1..]);
      assert s == [s[0]] + s[1..];
      if s[0] == '-' then rest else [s[0]] + rest
  }

  lemma {:induction false} DashCountAppend(a: string, b: string)
    ensures DashCount(a + b) == DashCount(a) + DashCount(b)
    decreases |a|
  {
    if a == [] {
      assert a + b == b;
    } else {
      assert (a + b)[1..] == a[1..] + b;
      DashCountAppend(a[1..], b);
    }
  }

  /** replace works piece by piece: with the one-character cases of RemoveDashes, the
      non-dash characters are kept, in order. */
  lemma {:induction false} RemoveDashesAppend(a: string, b: string)
    ensures RemoveDashes(a + b) == RemoveDashes(a) + RemoveDashes(b)
    decreases |a|
  {
    if a == [] {
      assert a + b == b;
    } else {
      assert (a + b)[0] == a[0];
      assert (a + b)[1..] == a[1..] + b;
      RemoveDashesAppend(a[1..], b);
    }
  }

  lemma {:induction false} NoDashes(s: string)
    requires forall k :: 0 <= k < |s| ==> s[k] != '-'
    ensures DashCount(s) == 0
    decreases |s|
  {
    if s != [] {
      NoDashes(s[1..]);
    }
  }

  predicate IsHexDigit(c: char) {
    '0' <= c <= '9' || 'a' <= c <= 'f'
  }

  /** str(uuid.uuid4()): 32 lower-case hex digits in groups of 8, 4, 4, 4 and 12 joined by '-'. */
  predicate IsUuidText(s: string) {
    && |s| == 36
    && (forall k :: 0 <= k < 36 ==> (s[k] == '-' <==> k == 8 || k == 13 || k == 18 || k == 23))
    && (forall k :: 0 <= k < 36 && s[k] != '-' ==> IsHexDigit(s[k]))
  }

  /** The random name is the 32 hex digits of the uuid, in order. */
  lemma RandomNameOfUuid(s: string)
    requires IsUuidText(s)
    ensures |RemoveDashes(s)| == 32
    ensures forall k :: 0 <= k < 32 ==> IsHexDigit(RemoveDashes(s)[k])
    ensures RemoveDashes(s) == s[..8] + s[9..13] + s[14..18] + s[19..23] + s[24..]
  {
    DashesBefore(s, 36);
    assert s[..36] == s;
    HexDigitsKept(s);
    UuidGroups(s);
  }

  /** Removing the dashes of a text, a dash and a dashless group keeps the group whole. */
  lemma RemoveDashesThenGroup(a: string, g: string)
    requires forall k :: 0 <= k < |g| ==> g[k] != '-'
    ensures RemoveDashes(a + "-" + g) == RemoveDashes(a) + g
  {
    NoDashes(g);
    RemoveDashesAppend(a, "-");
    RemoveDashesAppend(a + "-", g);
    assert RemoveDashes(a + "-") == RemoveDashes(a);
  }

  /** The random name of a uuid is its five groups of hex digits, concatenated. */
  lemma UuidGroups(s: string)
    requires IsUuidText(s)
    ensures RemoveDashes(s) == s[..8] + s[9..13] + s[14..18] + s[19..23] + s[24..]
  {
    assert s[..13] == s[..8] + "-" + s[9..13];
    assert s[..18] == s[..13] + "-" + s[14..18];
    assert s[..23] == s[..18] + "-" + s[19..23];
    assert s == s[..23] + "-" + s[24..];
    NoDashes(s[..8]);
    RemoveDashesThenGroup(s[..8], s[9..13]);
    RemoveDashesThenGroup(s[..13], s[14..18]);
    RemoveDashesThenGroup(s[..18], s[19..23]);
    RemoveDashesThenGroup(s[..23], s[24..]);
  }

  /** The dashes among the first i characters of a uuid are those at 8, 13, 18 and 23. */
  lemma {:induction false} DashesBefore(s: string, i: nat)
    requires IsUuidText(s) && i <= 36
    ensures DashCount(s[..i]) ==
      (if i > 8 then 1 else 0) + (if i > 13 then 1 else 0) + (if i > 18 then 1 else 0) + (if i > 23 then 1 else 0)
    decreases i
  {
    if i > 0 {
      DashesBefore(s, i - 1);
      assert s[..i] == s[..i - 1] + [s[i - 1]];
      DashCountAppend(s[..i - 1], [s[i - 1]]);
      assert [s[i - 1]][1..] == [];
    }
  }

  /** Removing the dashes of a uuid leaves only hex digits. */
  lemma HexDigitsKept(s: string)
    requires IsUuidText(s)
    ensures forall k :: 0 <= k < |RemoveDashes(s)| ==> IsHexDigit(RemoveDashes(s)[k])
  {
    RemovedCharsComeFrom(s);
    var r := RemoveDashes(s);
    forall k | 0 <= k < |r| ensures IsHexDigit(r[k]) {
      assert r[k] in r;
      var j :| 0 <= j < |s| && s[j] == r[k];
      assert s[j] != '-';
    }
  }

  /** Every character of the random name is a non-dash character of the uuid. */
  lemma {:induction false} RemovedCharsComeFrom(s: string)
    ensures forall c :: c in RemoveDashes(s) ==> c in s && c != '-'
    decreases |s|
  {
    if s != [] {
      RemovedCharsComeFrom(s[1..]);
      assert s == [s[0]] + s[1..];
    }
  }

  /** os.path.join(a, b) on a POSIX system. */
  function PathJoin(a: string, b: string): (r: string)
    ensures b != [] && b[0] == '/' ==> r == b
    ensures !(b != [] && b[0] == '/') ==> StartsWith(r, a) && |b| <= |r| && r[|r| - |b|..] == b && |r| <= |a| + 1 + |b|
    ensures !(b != [] && b[0] == '/') && (a == [] || a[|a| - 1] == '/') ==> r == a + b
    ensures !(b != [] && b[0] == '/') && a != [] && a[|a| - 1] != '/' ==> r == a + "/" + b
  {
    if b != [] && b[0] == '/' then b
    else if a == [] || a[|a| - 1] == '/' then a + b
    else a + "/" + b
  }

  /** random_name + '.pkl' */
  function PickleFileName(uuidText: string): string {
    RemoveDashes(uuidText) + ".pkl"
  }

  /** os.path.join(notebook_dir_path, random_name) + '.ipynb' */
  function NotebookPath(dir: string, uuidText: string): string {
    PathJoin(dir, RemoveDashes(uuidText)) + ".ipynb"
  }

  /** Joining a name and then appending an extension that does not start with '/' is
      joining the name with the extension. */
  lemma PathJoinAppend(a: string, b: string, ext: string)
    requires ext != [] && ext[0] != '/'
    ensures PathJoin(a, b + ext) == PathJoin(a, b) + ext
  {
    if b == [] {
      assert b + ext == ext;
    } else {
      assert (b + ext)[0] == b[0];
      if b[0] != '/' {
        if a == [] || a[|a| - 1] == '/' {
          assert a + (b + ext) == a + b + ext;
        } else {
          assert a + "/" + (b + ext) == a + "/" + b + ext;
        }
      }
    }
  }

  /** The pickle file and the notebook share the directory and the base name. */
  lemma SameBaseName(dir: string, uuidText: string)
    ensures var base := RemoveDashes(uuidText);
      && PathJoin(dir, PickleFileName(uuidText)) == PathJoin(dir, base) + ".pkl"
      && NotebookPath(dir, uuidText) == PathJoin(dir, base) + ".ipynb"
  {
    PathJoinAppend(dir, RemoveDashes(uuidText), ".pkl");
  }
}
