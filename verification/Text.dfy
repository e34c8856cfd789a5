/** Models of the Go string functions the rest of the project relies on: `strings.HasPrefix`,
    `HasSuffix`, `Index`, `Contains`, `Split`, `Join` and `ReplaceAll`.  A `char` stands for one
    character of a Go string.  In UTF-8 text these functions find the same occurrences whether they
    look at bytes or at characters; positions and lengths here count characters. */
module Text {

  /** `sub` stands at position `k` of `s`. */
  predicate OccursAt(s: string, sub: string, k: nat) {
    k + |sub| <= |s| && s[k..k + |sub|] == sub
  }

  predicate HasPrefix(s: string, p: string) {
    |p| <= |s| && s[..|p|] == p
  }

  predicate HasSuffix(s: string, p: string) {
    |p| <= |s| && s[|s| - |p|..] == p
  }

  /** The least position not below `from` at which `sub` occurs in `s`, or -1. */
  function IndexFrom(s: string, sub: string, from: nat): (r: int)
    requires from <= |s|
    ensures r == -1 || from <= r
    ensures r >= 0 ==> OccursAt(s, sub, r)
    ensures forall k: nat :: from <= k && (r < 0 || k < r) ==> !OccursAt(s, sub, k)
    decreases |s| - from
  {
    if OccursAt(s, sub, from) then from
    else if from == |s| then -1
    else IndexFrom(s, sub, from + 1)
  }

  /** `strings.Index`: the leftmost occurrence, or -1. */
  function Index(s: string, sub: string): (r: int)
    ensures -1 <= r
    ensures r >= 0 ==> OccursAt(s, sub, r)
    ensures forall k: nat :: r < 0 || k < r ==> !OccursAt(s, sub, k)
  {
    IndexFrom(s, sub, 0)
  }

  predicate Contains(s: string, sub: string) {
    Index(s, sub) >= 0
  }

  /** `strings.Split` for a non-empty separator: cut at the leftmost, non-overlapping occurrences. */
  function Split(s: string, sep: string): (parts: seq<string>)
    requires sep != ""
    ensures |parts| >= 1
    decreases |s|
  {
    var i := Index(s, sep);
    if i < 0 then [s] else [s[..i]] + Split(s[i + |sep|..], sep)
  }

  function Join(parts: seq<string>, sep: string): string {
    if parts == [] then ""
    else if |parts| == 1 then parts[0]
    else parts[0] + sep + Join(parts[1..], sep)
  }

  /** `strings.ReplaceAll` for a non-empty text to replace: one left-to-right scan that never
      looks again at what it has just written. */
  function ReplaceAll(s: string, from: string, to: string): string
    requires from != ""
    decreases |s|
  {
    if s == "" then ""
    else if HasPrefix(s, from) then to + ReplaceAll(s[|from|..], from, to)
    else [s[0]] + ReplaceAll(s[1..], from, to)
  }

  /** Splitting loses nothing: joining the parts again gives the text back. */
  lemma {:induction false} JoinSplit(s: string, sep: string)
    requires sep != ""
    ensures Join(Split(s, sep), sep) == s
    decreases |s|
  {
    var i := Index(s, sep);
    if i >= 0 {
      JoinSplit(s[i + |sep|..], sep);
      assert s == s[..i] + sep + s[i + |sep|..];
      assert Split(s, sep)[1..] == Split(s[i + |sep|..], sep);
    }
  }

  lemma OccursCons(c: char, s: string, sub: string, k: nat)
    ensures OccursAt([c] + s, sub, k + 1) <==> OccursAt(s, sub, k)
  {
    if k + |sub| <= |s| {
      assert ([c] + s)[k + 1..k + 1 + |sub|] == s[k..k + |sub|];
    }
  }

  /** Searching past a first character at which nothing starts. */
  lemma IndexCons(c: char, s: string, sub: string)
    ensures
      var r := Index(s, sub);
      Index([c] + s, sub) == if OccursAt([c] + s, sub, 0) then 0 else if r < 0 then -1 else r + 1
  {
    var r, q := Index(s, sub), Index([c] + s, sub);
    if q > 0 { OccursCons(c, s, sub, q - 1); }
    if r >= 0 { OccursCons(c, s, sub, r); }
  }
}
