/** The path matcher that decides which request paths skip authentication, `pkg/token/token.go`,
    against the declarative meaning of a `*` pattern. */
module Wildcard {
  import opened Text
  import opened Wrappers

  /** What a pattern means: `*` stands for any text, also the empty one, and every other
      character for itself. */
  ghost predicate Glob(s: string, pattern: string)
    decreases |pattern|
  {
    if pattern == "" then s == ""
    else if pattern[0] == '*' then exists k: nat :: k <= |s| && Glob(s[k..], pattern[1..])
    else s != "" && s[0] == pattern[0] && Glob(s[1..], pattern[1..])
  }

  // ---------- the loop of matchWildcard ----------

  /** Where the leftmost, one-after-the-other search for `parts` ends when it starts at `pos`;
      `None` when one of them is missing. */
  datatype Position = Missing | At(pos: nat)

  function Search(s: string, pos: nat, parts: seq<string>): (r: Position)
    requires pos <= |s|
    ensures r.At? ==> pos <= r.pos <= |s|
    decreases |parts|
  {
    if parts == [] then At(pos)
    else
      var i := Index(s[pos..], parts[0]);
      if i < 0 then Missing else Search(s, pos + i + |parts[0]|, parts[1..])
  }

  /** The parts of a pattern between its first and its last `*`. */
  function Middle(parts: seq<string>): seq<string>
    requires |parts| >= 2
  {
    parts[1..|parts| - 1]
  }

  /** What the code accepts, branch by branch. */
  predicate Accepts(s: string, pattern: string) {
    var parts := Split(pattern, "*");
    if |parts| == 1 then s == pattern
    else
      var last := parts[|parts| - 1];
      && HasPrefix(s, parts[0])
      && (last != "" ==> HasSuffix(s, last))
      && Search(s, |parts[0]|, Middle(parts)).At?
  }

  /** The end of the search leaves room for the last part of the pattern. */
  predicate RoomForLast(s: string, pattern: string) {
    var parts := Split(pattern, "*");
    |parts| >= 2 && HasPrefix(s, parts[0]) ==>
      match Search(s, |parts[0]|, Middle(parts))
      case Missing => true
      case At(pos) => pos + |parts[|parts| - 1]| <= |s|
  }

  method MatchWildcard(str: string, pattern: string) returns (ok: bool)
    ensures ok == Accepts(str, pattern)
    ensures Glob(str, pattern) ==> ok
    ensures ok && RoomForLast(str, pattern) ==> Glob(str, pattern)
  {
    AcceptsIsGlobWithRoom(str, pattern);
    var parts := Split(pattern, "*");
    if |parts| == 1 {
      return str == pattern;
    }
    if !HasPrefix(str, parts[0]) {
      return false;
    }
    if |parts[|parts| - 1]| > 0 && !HasSuffix(str, parts[|parts| - 1]) {
      return false;
    }
    ok := SearchMiddle(str, parts);
  }

  /** The loop over the parts between the first and the last one. */
  method SearchMiddle(str: string, parts: seq<string>) returns (found: bool)
    requires |parts| >= 2 && HasPrefix(str, parts[0])
    ensures found == Search(str, |parts[0]|, Middle(parts)).At?
  {
    var currentPos: nat := |parts[0]|;
    ghost var goal := Search(str, currentPos, Middle(parts));
    var i: nat := 1;
    while i < |parts| - 1
      invariant GoesOn(str, currentPos, parts, i, goal)
    {
      var part := parts[i];
      var index := Index(str[currentPos..], part);
      PartFound(str, currentPos, parts, i, goal);
      if part == "" {
        i := i + 1;
        continue;
      }
      if index == -1 {
        return false;
      }
      currentPos := currentPos + index + |part|;
      i := i + 1;
    }
    return true;
  }

  /** From part `i` on the search ends at `goal`. */
  predicate GoesOn(s: string, pos: nat, parts: seq<string>, i: nat, goal: Position) {
    1 <= i <= |parts| - 1 && pos <= |s| && Search(s, pos, parts[i..|parts| - 1]) == goal
  }

  lemma PartFound(s: string, pos: nat, parts: seq<string>, i: nat, goal: Position)
    requires GoesOn(s, pos, parts, i, goal) && i < |parts| - 1
    ensures
      var index := Index(s[pos..], parts[i]);
      if index < 0 then goal == Missing && parts[i] != "" else GoesOn(s, pos + index + |parts[i]|, parts, i + 1, goal)
    ensures parts[i] == "" ==> Index(s[pos..], parts[i]) == 0
  {
    var rest := parts[i + 1..|parts| - 1];
    assert parts[i..|parts| - 1] == [parts[i]] + rest;
    SearchOne(s, pos, parts[i], rest);
    assert OccursAt(s[pos..], "", 0);
  }

  lemma SearchOne(s: string, pos: nat, m: string, back: seq<string>)
    requires pos <= |s|
    ensures
      var i := Index(s[pos..], m);
      Search(s, pos, [m] + back) == if i < 0 then Missing else Search(s, pos + i + |m|, back)
  {
    assert ([m] + back)[1..] == back;
  }

  lemma SearchSkipsEmpty(s: string, pos: nat, parts: seq<string>)
    requires pos <= |s| && parts != [] && parts[0] == ""
    ensures Search(s, pos, parts) == Search(s, pos, parts[1..])
  {
    assert OccursAt(s[pos..], "", 0);
  }

  // ---------- glob on the parts of the pattern ----------

  /** `s` is any text, `parts[0]`, any text, `parts[1]`, ..., and ends with the last part. */
  ghost predicate StarredParts(s: string, parts: seq<string>)
    requires parts != []
    decreases |parts|
  {
    exists k: nat :: OccursAt(s, parts[0], k) &&
      if |parts| == 1 then k + |parts[0]| == |s| else StarredParts(s[k + |parts[0]|..], parts[1..])
  }

  ghost predicate StartsAfter(s: string, parts: seq<string>, k: nat)
    requires parts != []
  {
    && OccursAt(s, parts[0], k)
    && if |parts| == 1 then k + |parts[0]| == |s| else StarredParts(s[k + |parts[0]|..], parts[1..])
  }

  lemma FirstPart(s: string, parts: seq<string>) returns (k: nat)
    requires parts != [] && StarredParts(s, parts)
    ensures StartsAfter(s, parts, k)
  {
    k :| OccursAt(s, parts[0], k) &&
      if |parts| == 1 then k + |parts[0]| == |s| else StarredParts(s[k + |parts[0]|..], parts[1..]);
  }

  ghost predicate GlobParts(s: string, parts: seq<string>)
    requires parts != []
  {
    StartsAfter(s, parts, 0)
  }

  lemma SplitCons(c: char, p: string)
    ensures c == '*' ==> Split([c] + p, "*") == [""] + Split(p, "*")
    ensures c != '*' ==> Split([c] + p, "*") == [[c] + Split(p, "*")[0]] + Split(p, "*")[1..]
  {
    var q := [c] + p;
    IndexCons(c, p, "*");
    var i, j := Index(q, "*"), Index(p, "*");
    assert OccursAt(q, "*", 0) <==> c == '*';
    if c == '*' {
      assert q[1..] == p;
    } else if j >= 0 {
      assert q[i + 1..] == p[j + 1..];
      assert q[..i] == [c] + p[..j];
    }
  }

  lemma GlobPartsCons(c: char, s: string, tail: seq<string>)
    requires tail != [] && s != ""
    ensures GlobParts(s, [[c] + tail[0]] + tail[1..]) <==> s[0] == c && GlobParts(s[1..], tail)
  {
    var first := [c] + tail[0];
    var parts := [first] + tail[1..];
    assert parts[1..] == tail[1..];
    if |s| >= |first| {
      assert s[0..|first|] == [s[0]] + s[1..][0..|tail[0]|];
      assert s[|first|..] == s[1..][|tail[0]|..];
    }
  }

  lemma GlobPartsStar(s: string, tail: seq<string>)
    requires tail != []
    ensures GlobParts(s, [""] + tail) <==> exists k: nat :: k <= |s| && StartsAfter(s, tail, k)
  {
    var parts := [""] + tail;
    assert parts[1..] == tail && s[0..] == s;
    if StarredParts(s, tail) {
      var k := FirstPart(s, tail);
    }
  }

  lemma {:induction false} GlobIsGlobParts(s: string, p: string)
    ensures Glob(s, p) <==> GlobParts(s, Split(p, "*"))
    decreases |p|
  {
    if p == "" {
      assert Split(p, "*") == [""];
    } else {
      assert p == [p[0]] + p[1..];
      SplitCons(p[0], p[1..]);
      var tail := Split(p[1..], "*");
      if p[0] == '*' {
        GlobPartsStar(s, tail);
        forall k: nat | k <= |s|
          ensures Glob(s[k..], p[1..]) <==> StartsAfter(s, tail, k)
        {
          GlobIsGlobParts(s[k..], p[1..]);
          StartsAfterDrop(s, tail, k);
        }
      } else if s != "" {
        GlobIsGlobParts(s[1..], p[1..]);
        GlobPartsCons(p[0], s, tail);
      }
    }
  }

  lemma StartsAfterDrop(s: string, parts: seq<string>, k: nat)
    requires parts != [] && k <= |s|
    ensures StartsAfter(s[k..], parts, 0) <==> StartsAfter(s, parts, k)
  {
    if k + |parts[0]| <= |s| {
      assert s[k..][0..|parts[0]|] == s[k..k + |parts[0]|];
      assert s[k..][|parts[0]|..] == s[k + |parts[0]|..];
    }
  }

  /** Text may be added in front of what a `*` stands for. */
  lemma StarredPartsGrow(s: string, parts: seq<string>, k: nat)
    requires parts != [] && k <= |s| && StarredParts(s[k..], parts)
    ensures StarredParts(s, parts)
  {
    var j := FirstPart(s[k..], parts);
    StartsAfterDrop(s[k..], parts, j);
    assert s[k..][j..] == s[k + j..];
    StartsAfterDrop(s, parts, k + j);
  }

  /** Among the places for the first part, the leftmost one is as good as any. */
  lemma LeftmostIsEnough(t: string, parts: seq<string>)
    requires |parts| >= 2
    ensures
      var i := Index(t, parts[0]);
      StarredParts(t, parts) <==> i >= 0 && StarredParts(t[i + |parts[0]|..], parts[1..])
  {
    var i := Index(t, parts[0]);
    if StarredParts(t, parts) {
      var k := FirstPart(t, parts);
      var rest := t[i + |parts[0]|..];
      assert t[k + |parts[0]|..] == rest[k - i..];
      StarredPartsGrow(rest, parts[1..], k - i);
    } else if i >= 0 && StarredParts(t[i + |parts[0]|..], parts[1..]) {
      assert StartsAfter(t, parts, i);
    }
  }

  /** The search ended at `r`, and behind that there is room for `last` as the end of `s`. */
  ghost predicate EndsWith(s: string, r: Position, last: string) {
    r.At? && r.pos + |last| <= |s| && HasSuffix(s, last)
  }

  /** The leftmost search is complete and, given room for the last part, sound. */
  lemma {:induction false} SearchIsStarred(s: string, pos: nat, front: seq<string>, last: string)
    requires pos <= |s|
    ensures StarredParts(s[pos..], front + [last]) <==> EndsWith(s, Search(s, pos, front), last)
    decreases |front|
  {
    if front == [] {
      assert front + [last] == [last];
      OnePartIsSuffix(s, pos, [last]);
    } else {
      var t, i := s[pos..], Index(s[pos..], front[0]);
      assert (front + [last])[1..] == front[1..] + [last];
      LeftmostIsEnough(t, front + [last]);
      if i >= 0 {
        var next := pos + i + |front[0]|;
        SearchIsStarred(s, next, front[1..], last);
        assert t[i + |front[0]|..] == s[next..];
      }
    }
  }

  lemma OnePartIsSuffix(s: string, pos: nat, parts: seq<string>)
    requires pos <= |s| && |parts| == 1
    ensures StarredParts(s[pos..], parts) <==> pos + |parts[0]| <= |s| && HasSuffix(s, parts[0])
  {
    var t, last := s[pos..], parts[0];
    if StarredParts(t, parts) {
      var k := FirstPart(t, parts);
      assert s[|s| - |last|..] == t[k..k + |last|];
    } else if pos + |last| <= |s| && HasSuffix(s, last) {
      var k := |t| - |last|;
      assert t[k..k + |last|] == s[|s| - |last|..];
      assert OccursAt(t, parts[0], k);
    }
  }

  /** The matcher accepts exactly the texts the pattern means, up to one thing it forgets: the
      last part may overlap what the search already used. */
  lemma AcceptsIsGlobWithRoom(s: string, pattern: string)
    ensures Glob(s, pattern) <==> Accepts(s, pattern) && RoomForLast(s, pattern)
  {
    var parts := Split(pattern, "*");
    GlobIsGlobParts(s, pattern);
    if |parts| == 1 {
      JoinSplit(pattern, "*");
      if HasPrefix(s, parts[0]) { assert s[0..|parts[0]|] == s[..|parts[0]|]; }
    } else if HasPrefix(s, parts[0]) {
      assert parts[1..] == Middle(parts) + [parts[|parts| - 1]];
      SearchIsStarred(s, |parts[0]|, Middle(parts), parts[|parts| - 1]);
      assert s[0..|parts[0]|] == s[..|parts[0]|];
    }
  }

  /** The overlap is real: `a*a` accepts the one-letter text `a`. */
  lemma OverlapAccepted()
    ensures Accepts("a", "a*a") && !Glob("a", "a*a")
  {
    assert "a*a" == ['a'] + ("*" + "a") && "*a" == ['*'] + "a" && "a" == ['a'] + "";
    SplitCons('a', "*a");
    SplitCons('*', "a");
    SplitCons('a', "");
    var parts := Split("a*a", "*");
    assert Split("", "*") == [""];
    assert parts == ["a", "a"];
    AcceptsIsGlobWithRoom("a", "a*a");
  }

  // ---------- patterns that are matched as they are meant ----------

  /** An end of `x` is a beginning of `y`. */
  predicate Overlap(x: string, y: string) {
    exists n :: 0 < n <= |x| && n <= |y| && x[|x| - n..] == y[..n]
  }

  lemma {:induction false} SplitLiteral(x: string, p: string)
    requires '*' !in x
    ensures Split(x + p, "*") == [x + Split(p, "*")[0]] + Split(p, "*")[1..]
    decreases |x|
  {
    var parts := Split(p, "*");
    if x == "" {
      assert x + p == p && x + parts[0] == parts[0];
    } else {
      var t := x[1..];
      SplitLiteral(t, p);
      SplitCons(x[0], t + p);
      ConsTail(x, p);
      ConsTail(x, parts[0]);
    }
  }

  lemma ConsTail(x: string, y: string)
    requires x != ""
    ensures x + y == [x[0]] + (x[1..] + y)
  {
    assert x == [x[0]] + x[1..];
    Assoc([x[0]], x[1..], y);
  }

  lemma OneStarParts(x: string, y: string)
    requires '*' !in x && '*' !in y
    ensures Split(x + ("*" + y), "*") == [x, y]
  {
    SplitLiteral(y, "");
    assert Split("", "*") == [""] && y + "" == y;
    assert "*" + y == ['*'] + y;
    SplitCons('*', y);
    SplitLiteral(x, "*" + y);
    assert x + "" == x;
  }

  lemma AcceptedTooShort(s: string, x: string, y: string)
    requires HasPrefix(s, x) && HasSuffix(s, y) && |s| < |x| + |y|
    ensures Overlap(x, y)
  {
    var n := |x| + |y| - |s|;
    var t := s[|s| - |y|..|x|];
    assert t == s[..|x|][|s| - |y|..] == x[|x| - n..];
    assert t == s[|s| - |y|..][..n] == y[..n];
  }

  function Concat(parts: seq<string>): string {
    if parts == [] then "" else parts[0] + Concat(parts[1..])
  }

  /** The last part in front of the last star that is not empty, or the first one. */
  function Neighbour(first: string, middle: seq<string>): string
    decreases |middle|
  {
    if middle == [] then first
    else if middle[|middle| - 1] != "" then middle[|middle| - 1]
    else Neighbour(first, middle[..|middle| - 1])
  }

  predicate AllEmpty(parts: seq<string>) {
    forall i :: 0 <= i < |parts| ==> parts[i] == ""
  }

  lemma {:induction false} ConcatAppend(a: seq<string>, b: seq<string>)
    ensures Concat(a + b) == Concat(a) + Concat(b)
    decreases |a|
  {
    if a == [] {
      assert a + b == b;
    } else {
      assert (a + b)[1..] == a[1..] + b;
      ConcatAppend(a[1..], b);
      Assoc(a[0], Concat(a[1..]), Concat(b));
    }
  }

  lemma {:induction false} ConcatEmpty(parts: seq<string>)
    requires AllEmpty(parts)
    ensures Concat(parts) == ""
    decreases |parts|
  {
    if parts != [] {
      ConcatEmpty(parts[1..]);
    }
  }

  lemma {:induction false} SearchAppend(s: string, pos: nat, a: seq<string>, b: seq<string>)
    requires pos <= |s|
    ensures Search(s, pos, a + b) ==
            match Search(s, pos, a) { case Missing => Missing case At(next) => Search(s, next, b) }
    decreases |a|
  {
    if a == [] {
      assert a + b == b;
    } else {
      assert (a + b)[1..] == a[1..] + b;
      var i := Index(s[pos..], a[0]);
      if i >= 0 { SearchAppend(s, pos + i + |a[0]|, a[1..], b); }
    }
  }

  lemma {:induction false} SearchEmpty(s: string, pos: nat, parts: seq<string>)
    requires pos <= |s| && AllEmpty(parts)
    ensures Search(s, pos, parts) == At(pos)
    decreases |parts|
  {
    if parts != [] {
      SearchSkipsEmpty(s, pos, parts);
      SearchEmpty(s, pos, parts[1..]);
    }
  }

  predicate EndsAt(s: string, pos: nat, parts: seq<string>, end: nat) {
    pos <= |s| && Search(s, pos, parts) == At(end)
  }

  /** Parts that stand one behind the other are found there. */
  lemma {:induction false} SearchInPlace(s: string, pos: nat, parts: seq<string>)
    requires OccursAt(s, Concat(parts), pos)
    ensures EndsAt(s, pos, parts, pos + |Concat(parts)|)
    decreases |parts|
  {
    if parts != [] {
      var x, rest := parts[0], parts[1..];
      OccursParts(s, pos, x, Concat(rest));
      SearchInPlace(s, pos + |x|, rest);
      FirstInPlace(s, pos, x, rest, pos + |x| + |Concat(rest)|);
      ConcatCons(x, rest);
      assert parts == [x] + rest;
    }
  }

  lemma FirstInPlace(s: string, pos: nat, x: string, rest: seq<string>, end: nat)
    requires pos <= |s| && Index(s[pos..], x) == 0 && EndsAt(s, pos + |x|, rest, end)
    ensures EndsAt(s, pos, [x] + rest, end)
  {
    SearchOne(s, pos, x, rest);
  }

  lemma ConcatCons(x: string, rest: seq<string>)
    ensures Concat([x] + rest) == x + Concat(rest)
  {
    assert ([x] + rest)[1..] == rest;
  }

  lemma OccursParts(s: string, pos: nat, x: string, rest: string)
    requires OccursAt(s, x + rest, pos)
    ensures OccursAt(s, rest, pos + |x|) && Index(s[pos..], x) == 0
  {
    var text := s[pos..pos + |x| + |rest|];
    assert s[pos + |x|..pos + |x| + |rest|] == text[|x|..] == rest;
    assert s[pos..][0..|x|] == text[..|x|] == x;
    assert OccursAt(s[pos..], x, 0);
  }

  /** How the parts in front of the last star split: `front`, the neighbour and empty ones. */
  lemma {:induction false} SplitMiddle(first: string, middle: seq<string>)
    returns (front: seq<string>, back: seq<string>)
    requires !AllEmpty(middle)
    ensures middle == front + [Neighbour(first, middle)] + back && AllEmpty(back) && Neighbour(first, middle) != ""
    decreases |middle|
  {
    var n := |middle| - 1;
    assert middle == middle[..n] + [middle[n]];
    if middle[n] != "" {
      front, back := middle[..n], [];
    } else {
      assert !AllEmpty(middle[..n]) by {
        var i :| 0 <= i < |middle| && middle[i] != "";
        assert middle[..n][i] != "";
      }
      front, back := SplitMiddle(first, middle[..n]);
      back := back + [""];
    }
  }

  lemma {:induction false} NeighbourOfEmpty(first: string, middle: seq<string>)
    requires AllEmpty(middle)
    ensures Neighbour(first, middle) == first
    decreases |middle|
  {
    if middle != [] {
      NeighbourOfEmpty(first, middle[..|middle| - 1]);
    }
  }

  lemma EndsBehind(s: string, start: nat, front: seq<string>, m: string, back: seq<string>)
    requires start <= |s| && AllEmpty(back) && Search(s, start, front + ([m] + back)).At?
    ensures
      var pos := Search(s, start, front + ([m] + back)).pos;
      |m| <= pos && OccursAt(s, m, pos - |m|)
  {
    SearchAppend(s, start, front, [m] + back);
    LastFound(s, Search(s, start, front).pos, m, back);
  }

  lemma LastFound(s: string, at: nat, m: string, back: seq<string>)
    requires at <= |s| && AllEmpty(back) && Search(s, at, [m] + back).At?
    ensures
      var pos := Search(s, at, [m] + back).pos;
      |m| <= pos && OccursAt(s, m, pos - |m|)
  {
    var i := Index(s[at..], m);
    SearchOne(s, at, m, back);
    SearchEmpty(s, at + i + |m|, back);
    OccursBehind(s, at, m, i);
  }

  lemma OccursBehind(s: string, at: nat, m: string, i: nat)
    requires at <= |s| && OccursAt(s[at..], m, i)
    ensures OccursAt(s, m, at + i)
  {
    assert s[at..][i..i + |m|] == s[at + i..at + i + |m|];
  }

  /** The search ends behind the neighbour. */
  lemma SearchEndsBehind(s: string, first: string, middle: seq<string>)
    requires HasPrefix(s, first) && Search(s, |first|, middle).At?
    ensures
      var m, pos := Neighbour(first, middle), Search(s, |first|, middle).pos;
      |m| <= pos && OccursAt(s, m, pos - |m|)
  {
    if AllEmpty(middle) {
      SearchEmpty(s, |first|, middle);
      NeighbourOfEmpty(first, middle);
      assert s[0..|first|] == s[..|first|];
    } else {
      var m := Neighbour(first, middle);
      var front, back := SplitMiddle(first, middle);
      assert middle == front + ([m] + back);
      EndsBehind(s, |first|, front, m, back);
    }
  }

  /** The part in front of the last star can share characters with the last part, or stand inside
      it if it is not the first one. */
  predicate Tangled(first: string, middle: seq<string>, last: string) {
    var m := Neighbour(first, middle);
    Overlap(m, last) || (!AllEmpty(middle) && Contains(last, m))
  }

  lemma Subslice(s: string, a: nat, b: nat, c: nat, d: nat)
    requires a <= b <= |s| && c <= d <= b - a
    ensures s[a..b][c..d] == s[a + c..a + d]
  {
    var t := s[a..b];
    assert forall k :: c <= k < d ==> t[k] == s[a + k];
  }

  /** A text in which `m` ends at `pos`, behind the beginning of `last`. */
  lemma TooShortIsTangled(s: string, m: string, last: string, pos: nat)
    requires |m| <= pos <= |s| && OccursAt(s, m, pos - |m|) && HasSuffix(s, last) && pos + |last| > |s|
    ensures Overlap(m, last) || Contains(last, m)
  {
    var a := |s| - |last|;
    assert last == s[a..|s|] && m == s[pos - |m|..pos];
    if pos - |m| >= a {
      var k := pos - |m| - a;
      Subslice(s, a, |s|, k, k + |m|);
      assert OccursAt(last, m, k);
    } else {
      var n := pos - a;
      Subslice(s, pos - |m|, pos, |m| - n, |m|);
      Subslice(s, a, |s|, 0, n);
      assert m[|m| - n..] == last[..n];
    }
  }

  lemma {:induction false} EndsWithNeighbour(first: string, middle: seq<string>) returns (u: string)
    ensures first + Concat(middle) == u + Neighbour(first, middle)
    decreases |middle|
  {
    if AllEmpty(middle) {
      ConcatEmpty(middle);
      NeighbourOfEmpty(first, middle);
      u := "";
      assert first + "" == first == "" + first;
    } else {
      var m := Neighbour(first, middle);
      var front, back := SplitMiddle(first, middle);
      ConcatAppend(front + [m], back);
      ConcatAppend(front, [m]);
      ConcatEmpty(back);
      assert Concat([m]) == m + Concat([m][1..]) == m;
      u := first + Concat(front);
      assert Concat(middle) == Concat(front) + m + "";
      Assoc(first, Concat(front), m);
    }
  }

  /** All parts in front of `last` one behind the other, and `last` shares its beginning. */
  lemma OverlapText(first: string, middle: seq<string>, last: string) returns (s: string)
    requires Overlap(Neighbour(first, middle), last)
    ensures HasPrefix(s, first) && HasSuffix(s, last)
    ensures Search(s, |first|, middle).At? && Search(s, |first|, middle).pos + |last| > |s|
  {
    var m, c := Neighbour(first, middle), Concat(middle);
    var n :| 0 < n <= |m| && n <= |last| && m[|m| - n..] == last[..n];
    var u := EndsWithNeighbour(first, middle);
    s := first + c + last[n..];
    assert s[..|first|] == first && s[|first|..|first| + |c|] == c;
    SearchInPlace(s, |first|, middle);
    SharedEnd(s, u, m, last, n);
  }

  lemma SharedEnd(s: string, u: string, m: string, last: string, n: nat)
    requires n <= |m| && n <= |last| && m[|m| - n..] == last[..n] && s == u + m + last[n..]
    ensures HasSuffix(s, last)
  {
    var k := |m| - n;
    assert m == m[..k] + m[k..] && last == last[..n] + last[n..];
    assert s == u + m[..k] + last;
    assert s[|u + m[..k]|..] == last;
  }

  /** The parts in front of the neighbour one behind the other, and then `last`, which holds it. */
  lemma InsideText(first: string, middle: seq<string>, last: string) returns (s: string)
    requires !AllEmpty(middle) && Contains(last, Neighbour(first, middle))
    ensures HasPrefix(s, first) && HasSuffix(s, last)
    ensures Search(s, |first|, middle).At? && Search(s, |first|, middle).pos + |last| > |s|
  {
    var m := Neighbour(first, middle);
    var front, back := SplitMiddle(first, middle);
    var c := Concat(front);
    s := first + c + last;
    assert s[..|first|] == first && s[|first|..|first| + |c|] == c;
    SearchInPlace(s, |first|, front);
    assert middle == front + ([m] + back);
    SearchAppend(s, |first|, front, [m] + back);
    assert s[|first| + |c|..] == last && s[|s| - |last|..] == last;
    FoundInLast(s, |first| + |c|, m, back);
  }

  lemma FoundInLast(s: string, pos: nat, m: string, back: seq<string>)
    requires pos <= |s| && AllEmpty(back) && m != "" && Contains(s[pos..], m)
    ensures Search(s, pos, [m] + back).At? && Search(s, pos, [m] + back).pos > pos
  {
    SearchOne(s, pos, m, back);
    SearchEmpty(s, pos + Index(s[pos..], m) + |m|, back);
  }

  /** Any pattern with a `*` is matched as it is meant, on every text, exactly if the part in front of
      the last `*` cannot be found in what the last part stands for. */
  lemma ExactIff(pattern: string)
    requires |Split(pattern, "*")| >= 2
    ensures
      var parts := Split(pattern, "*");
      (forall s :: Accepts(s, pattern) <==> Glob(s, pattern))
      <==> !Tangled(parts[0], Middle(parts), parts[|parts| - 1])
  {
    var parts := Split(pattern, "*");
    var first, middle, last := parts[0], Middle(parts), parts[|parts| - 1];
    if Tangled(first, middle, last) {
      var s;
      if Overlap(Neighbour(first, middle), last) {
        s := OverlapText(first, middle, last);
      } else {
        s := InsideText(first, middle, last);
      }
      AcceptsIsGlobWithRoom(s, pattern);
      assert Accepts(s, pattern) && !Glob(s, pattern);
    } else {
      forall s
        ensures Accepts(s, pattern) <==> Glob(s, pattern)
      {
        AcceptsIsGlobWithRoom(s, pattern);
        if Accepts(s, pattern) { EnoughRoom(s, first, middle, last); }
      }
    }
  }

  lemma EnoughRoom(s: string, first: string, middle: seq<string>, last: string)
    requires HasPrefix(s, first) && Search(s, |first|, middle).At? && (last != "" ==> HasSuffix(s, last))
    requires !Tangled(first, middle, last)
    ensures Search(s, |first|, middle).pos + |last| <= |s|
  {
    var m, pos := Neighbour(first, middle), Search(s, |first|, middle).pos;
    SearchEndsBehind(s, first, middle);
    if last != "" && pos + |last| > |s| {
      if AllEmpty(middle) {
        SearchEmpty(s, |first|, middle);
        AcceptedTooShort(s, first, last);
        NeighbourOfEmpty(first, middle);
      } else {
        TooShortIsTangled(s, m, last, pos);
      }
    }
  }

  /** With one `*`: no end of what stands before it is a beginning of what stands behind it. */
  lemma OneStarExactIff(x: string, y: string)
    requires '*' !in x && '*' !in y
    ensures
      var pattern := x + ("*" + y);
      (forall s :: Accepts(s, pattern) <==> Glob(s, pattern)) <==> !Overlap(x, y)
  {
    OneStarParts(x, y);
    ExactIff(x + ("*" + y));
  }

  // ---------- matchPath ----------

  /** The branches of `matchPath`: an exact path, a suffix slash-star or star taken
      as a literal prefix test, and only then the general matcher. */
  predicate MatchPath(request: string, pattern: string) {
    if request == pattern then true
    else if HasSuffix(pattern, "/*") then HasPrefix(request, pattern[..|pattern| - 2])
    else if HasSuffix(pattern, "*") then HasPrefix(request, pattern[..|pattern| - 1])
    else Contains(pattern, "*") && Accepts(request, pattern)
  }

  function DropStars(p: string): (r: string)
    ensures |r| <= |p|
    ensures '*' in p ==> |r| < |p|
  {
    if p == "" then ""
    else if p[0] == '*' then DropStars(p[1..])
    else [p[0]] + DropStars(p[1..])
  }

  function Count(c: char, s: string): nat {
    if s == "" then 0 else (if s[0] == c then 1 else 0) + Count(c, s[1..])
  }

  lemma {:induction false} GlobLiteral(s: string, x: string, p: string)
    requires '*' !in x
    ensures Glob(s, x + p) <==> HasPrefix(s, x) && Glob(s[|x|..], p)
    decreases |x|
  {
    if x == "" {
      assert x + p == p && s[0..] == s;
    } else {
      assert (x + p)[0] == x[0] && (x + p)[1..] == x[1..] + p;
      if s != "" {
        GlobLiteral(s[1..], x[1..], p);
        if |s| >= |x| {
          assert s[..|x|] == [s[0]] + s[1..][..|x| - 1];
          assert s[|x|..] == s[1..][|x| - 1..];
        }
        assert x == [x[0]] + x[1..];
      }
    }
  }

  lemma GlobStar(s: string)
    ensures Glob(s, "*")
  {
    assert s[|s|..] == "" && "*"[1..] == "";
    assert Glob(s[|s|..], "*"[1..]);
  }

  lemma {:induction false} GlobDropStars(p: string)
    ensures Glob(DropStars(p), p)
    decreases |p|
  {
    if p != "" {
      GlobDropStars(p[1..]);
      var r := DropStars(p);
      if p[0] == '*' {
        assert r[0..] == r;
      } else {
        assert r[1..] == DropStars(p[1..]);
      }
    }
  }

  lemma {:induction false} DropStarsAppend(x: string, y: string)
    ensures DropStars(x + y) == DropStars(x) + DropStars(y)
    decreases |x|
  {
    if x == "" {
      assert x + y == y;
    } else {
      assert (x + y)[1..] == x[1..] + y;
      DropStarsAppend(x[1..], y);
    }
  }

  lemma {:induction false} CountAppend(c: char, x: string, y: string)
    ensures Count(c, x + y) == Count(c, x) + Count(c, y)
    decreases |x|
  {
    if x == "" {
      assert x + y == y;
    } else {
      assert (x + y)[1..] == x[1..] + y;
      CountAppend(c, x[1..], y);
    }
  }

  lemma {:induction false} GlobNeedsLiterals(s: string, p: string, c: char)
    requires c != '*' && Glob(s, p)
    ensures Count(c, p) <= Count(c, s)
    decreases |p|
  {
    if p != "" {
      if p[0] == '*' {
        var k: nat :| k <= |s| && Glob(s[k..], p[1..]);
        GlobNeedsLiterals(s[k..], p[1..], c);
        CountAppend(c, s[..k], s[k..]);
        assert s == s[..k] + s[k..];
      } else {
        GlobNeedsLiterals(s[1..], p[1..], c);
      }
    }
  }

  lemma StarSuffixBranch(x: string, r: string)
    requires !HasSuffix(x, "/")
    ensures MatchPath(r, x + "*") <==> HasPrefix(r, x)
  {
    var pattern := x + "*";
    assert pattern[|pattern| - 1..] == "*" && pattern[..|x|] == x;
    NoSlashStar(x);
  }

  lemma NoSlashStar(x: string)
    requires !HasSuffix(x, "/")
    ensures !HasSuffix(x + "*", "/*")
  {
    var pattern := x + "*";
    if x != "" {
      assert pattern[|pattern| - 2..][0] == x[|x| - 1];
      assert x[|x| - 1..] == [x[|x| - 1]];
    }
  }

  /** Every request is matched as the pattern means it. */
  ghost predicate PathExact(pattern: string) {
    forall r :: MatchPath(r, pattern) <==> Glob(r, pattern)
  }

  /** A pattern that ends in `*` (and not in slash-star) is read as a pattern exactly when that is its
      only `*`: any other one is taken for a literal character. */
  lemma TrailingStarExact(x: string)
    requires !HasSuffix(x, "/")
    ensures PathExact(x + "*") <==> '*' !in x
  {
    if '*' in x {
      var r := DropStars(x + "*");
      GlobDropStars(x + "*");
      DropStarsAppend(x, "*");
      assert DropStars("*") == "";
      StarSuffixBranch(x, r);
      assert !MatchPath(r, x + "*") && Glob(r, x + "*");
    } else {
      forall r
        ensures MatchPath(r, x + "*") <==> Glob(r, x + "*")
      {
        StarSuffixBranch(x, r);
        GlobLiteral(r, x, "*");
        if HasPrefix(r, x) { GlobStar(r[|x|..]); }
      }
    }
  }

  /** A pattern that ends in slash-star always means more than it says: it drops the slash, so for a
      star-free `x` it accepts exactly what `x*` means, and `x` itself in any case. */
  lemma SlashStarDropsSlash(x: string, r: string)
    ensures MatchPath(x, x + "/*") && !Glob(x, x + "/*")
    ensures '*' !in x ==> (MatchPath(r, x + "/*") <==> Glob(r, x + "*"))
  {
    var pattern := x + "/*";
    assert pattern[|pattern| - 2..] == "/*" && pattern[..|pattern| - 2] == x;
    assert x[..|x|] == x;
    CountAppend('/', x, "/*");
    assert Count('/', "/*") == 1 by { assert "/*"[1..] == "*" && "*"[1..] == ""; }
    if Glob(x, pattern) { GlobNeedsLiterals(x, pattern, '/'); }
    if '*' !in x {
      GlobLiteral(r, x, "*");
      if HasPrefix(r, x) { GlobStar(r[|x|..]); }
      if r == pattern { assert r[..|x|] == x; }
    }
  }

  /** Without a star a path is only matched by itself, which is what it means. */
  lemma PlainPath(r: string, pattern: string)
    requires '*' !in pattern
    ensures MatchPath(r, pattern) <==> r == pattern
    ensures Glob(r, pattern) <==> r == pattern
  {
    StarIn(pattern);
    GlobLiteral(r, pattern, "");
    assert pattern + "" == pattern;
    if HasSuffix(pattern, "*") { EndsInStar(pattern); }
    if HasSuffix(pattern, "/*") { SlashStarIsStar(pattern); }
    if HasPrefix(r, pattern) && r[|pattern|..] == "" { assert r == r[..|pattern|] + r[|pattern|..]; }
  }

  lemma StarIn(p: string)
    ensures Contains(p, "*") <==> '*' in p
    ensures '*' in p ==> |Split(p, "*")| >= 2
  {
    var i := Index(p, "*");
    if i >= 0 { assert p[i..i + 1][0] == p[i]; }
    if '*' in p {
      var k :| 0 <= k < |p| && p[k] == '*';
      assert OccursAt(p, "*", k);
    }
  }

  lemma EndsInStar(p: string)
    requires HasSuffix(p, "*")
    ensures p == p[..|p| - 1] + "*" && '*' in p
  {
    assert p[|p| - 1..][0] == p[|p| - 1];
  }

  lemma SlashStarIsStar(p: string)
    requires HasSuffix(p, "/*")
    ensures HasSuffix(p, "*") && p == p[..|p| - 2] + "/*"
  {
    assert p[|p| - 2..][1..] == p[|p| - 1..];
  }

  lemma {:induction false} GlobSelf(p: string)
    ensures Glob(p, p)
    decreases |p|
  {
    if p != "" {
      GlobSelf(p[1..]);
      if p[0] == '*' { assert 1 <= |p| && Glob(p[1..], p[1..]); }
    }
  }

  /** A star that is not at the end: the general matcher decides, also about the pattern itself. */
  lemma InnerStar(r: string, pattern: string)
    requires '*' in pattern && !HasSuffix(pattern, "*")
    ensures MatchPath(r, pattern) <==> Accepts(r, pattern)
  {
    StarIn(pattern);
    if HasSuffix(pattern, "/*") { SlashStarIsStar(pattern); }
    if r == pattern {
      GlobSelf(pattern);
      AcceptsIsGlobWithRoom(pattern, pattern);
    }
  }

  /** Which skip paths are read as they are meant, for every request: those without a star, those
      with one star at the end and no slash before it, and of those with a star elsewhere the ones
      whose last part cannot use again what the part before it has matched. */
  predicate ReadAsMeant(pattern: string) {
    if '*' !in pattern then true
    else if HasSuffix(pattern, "*") then !HasSuffix(pattern, "/*") && '*' !in pattern[..|pattern| - 1]
    else
      var parts := Split(pattern, "*");
      |parts| >= 2 && !Tangled(parts[0], Middle(parts), parts[|parts| - 1])
  }

  lemma PlainPathExact(pattern: string)
    requires '*' !in pattern
    ensures PathExact(pattern)
  {
    forall r
      ensures MatchPath(r, pattern) <==> Glob(r, pattern)
    {
      PlainPath(r, pattern);
    }
  }

  lemma SlashStarNotExact(pattern: string)
    requires HasSuffix(pattern, "/*")
    ensures !PathExact(pattern)
  {
    SlashStarIsStar(pattern);
    var x := pattern[..|pattern| - 2];
    SlashStarDropsSlash(x, "");
    assert MatchPath(x, pattern) && !Glob(x, pattern);
  }

  lemma StarExactIff(pattern: string)
    requires HasSuffix(pattern, "*") && !HasSuffix(pattern, "/*")
    ensures PathExact(pattern) <==> '*' !in pattern[..|pattern| - 1]
  {
    EndsInStar(pattern);
    var x := pattern[..|pattern| - 1];
    if HasSuffix(x, "/") { SlashBeforeStar(x); }
    TrailingStarExact(x);
  }

  lemma InnerStarExactIff(pattern: string)
    requires '*' in pattern && !HasSuffix(pattern, "*") && |Split(pattern, "*")| >= 2
    ensures
      var parts := Split(pattern, "*");
      PathExact(pattern) <==> !Tangled(parts[0], Middle(parts), parts[|parts| - 1])
  {
    forall r
      ensures MatchPath(r, pattern) <==> Accepts(r, pattern)
    {
      InnerStar(r, pattern);
    }
    ExactIff(pattern);
  }

  lemma MatchPathExactIff(pattern: string)
    ensures PathExact(pattern) <==> ReadAsMeant(pattern)
  {
    StarIn(pattern);
    if '*' !in pattern {
      PlainPathExact(pattern);
    } else if !HasSuffix(pattern, "*") {
      InnerStarExactIff(pattern);
    } else if HasSuffix(pattern, "/*") {
      SlashStarNotExact(pattern);
    } else {
      StarExactIff(pattern);
    }
  }

  lemma SlashBeforeStar(x: string)
    requires HasSuffix(x, "/")
    ensures HasSuffix(x + "*", "/*")
  {
    assert (x + "*")[|x| - 1..] == x[|x| - 1..] + "*";
  }
}
