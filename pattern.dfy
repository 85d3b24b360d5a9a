/** The few regular expressions the capture searches with (re.search, and
    pandas' str.contains, which searches with a regular expression by
    default), each a fixed sequence of single-character atoms. */
module Pattern {
  import opened Text

  /** A literal character, `.` (any character but a newline) or `[0-9]`. */
  datatype Atom = Char(c: char) | Wildcard | Digit

  type Regex = seq<Atom>

  predicate AtomMatches(a: Atom, c: char) {
    match a
    case Char(d) => c == d
    case Wildcard => c != '\n'
    case Digit => '0' <= c <= '9'
  }

  /** The pattern matches the characters of s starting at index i. */
  predicate MatchesAt(s: string, i: nat, p: Regex) {
    i + |p| <= |s| && forall k :: 0 <= k < |p| ==> AtomMatches(p[k], s[i + k])
  }

  /** re.search(p, s) is not None. */
  predicate Search(s: string, p: Regex) {
    exists i: nat :: i <= |s| && MatchesAt(s, i, p)
  }

  /** The regular expression that matches t and nothing else (t has no metacharacter). */
  function Literal(t: string): (p: Regex)
    ensures |p| == |t|
    ensures forall k :: 0 <= k < |t| ==> p[k] == Char(t[k])
  {
    seq(|t|, k requires 0 <= k < |t| => Char(t[k]))
  }

  /** Searching for a literal is the substring test. */
  lemma SearchLiteral(s: string, t: string)
    ensures Search(s, Literal(t)) <==> Contains(s, t)
  {
    var p := Literal(t);
    if Search(s, p) {
      var i: nat :| i <= |s| && MatchesAt(s, i, p);
      assert s[i..i + |t|] == t;
      assert OccursAt(s, t, i);
    }
    if Contains(s, t) {
      var i: nat :| i <= |s| && OccursAt(s, t, i);
      forall k | 0 <= k < |p| ensures AtomMatches(p[k], s[i + k]) {
        assert s[i..i + |t|][k] == t[k];
      }
      assert MatchesAt(s, i, p);
    }
  }
}
