/** Field names of generated structs: `lintFieldName`, which rewrites a rune slice in place while
    the slice shrinks under it, and `FmtFieldName`, which turns any key into a Go identifier
    (pkg/jy2struct).  Names are ASCII. */
module FieldNames {
  import opened Wrappers

  // ---------- characters ----------

  predicate Lower(c: char) { 'a' <= c <= 'z' }
  predicate Upper(c: char) { 'A' <= c <= 'Z' }
  predicate Letter(c: char) { Lower(c) || Upper(c) }
  predicate Digit(c: char) { '0' <= c <= '9' }
  predicate Alnum(c: char) { Letter(c) || Digit(c) }

  function ToUpper(c: char): char {
    if Lower(c) then (c as int - 32) as char else c
  }

  function ToLower(c: char): char {
    if Upper(c) then (c as int + 32) as char else c
  }

  function UpperAll(s: string): string {
    seq(|s|, i requires 0 <= i < |s| => ToUpper(s[i]))
  }

  function LowerAll(s: string): string {
    seq(|s|, i requires 0 <= i < |s| => ToLower(s[i]))
  }

  const INITIALISMS: seq<string> := [
    "API", "ASCII", "CPU", "CSS", "DNS", "EOF", "GUID", "HTML", "HTTP", "HTTPS", "ID", "IP", "JSON",
    "LHS", "QPS", "RAM", "RHS", "RPC", "SLA", "SMTP", "SSH", "TLS", "TTL", "UI", "UID", "UUID", "URI",
    "URL", "UTF8", "VM", "XML", "NTP", "DB"
  ]

  predicate Initialism(s: string) {
    exists i :: 0 <= i < |INITIALISMS| && INITIALISMS[i] == s
  }

  const DIGIT_WORDS: seq<string> := [
    "zero", "one", "two", "three", "four", "five", "six", "seven", "eight", "nine"
  ]

  /** Equal up to case, position by position. */
  ghost predicate SameCase(a: string, b: string) {
    |a| == |b| && forall i :: 0 <= i < |a| ==> ToUpper(a[i]) == ToUpper(b[i])
  }

  // ---------- the scan ----------

  /** How one finished word is written. */
  function Style(w: string): (r: string)
    ensures |r| == |w|
  {
    if Initialism(UpperAll(w)) then UpperAll(w)
    else if LowerAll(w) == w && w != "" then [ToUpper(w[0])] + w[1..]
    else w
  }

  /** Length of the run of underscores at the front. */
  function Underscores(s: string): (n: nat)
    ensures n <= |s| && (n < |s| ==> s[n] != '_')
    ensures forall i :: 0 <= i < n ==> s[i] == '_'
  {
    if s == "" || s[0] != '_' then 0 else 1 + Underscores(s[1..])
  }

  /** How many of the underscores `t` starts with are deleted when they follow `c`. */
  function Deleted(c: char, t: string): (n: nat)
    ensures n <= |t|
  {
    var n := Underscores(t);
    if 0 < n < |t| && Digit(c) && Digit(t[n]) then n - 1 else n
  }

  /** A word ends with the first character of `rest`. */
  predicate Ends(rest: string)
    requires rest != ""
  {
    |rest| == 1 || rest[1] == '_' || (Lower(rest[0]) && !Lower(rest[1]))
  }

  /** What the scan still has to read after that character. */
  function Following(rest: string): (t: string)
    requires rest != ""
    ensures |t| < |rest|
  {
    if |rest| > 1 && rest[1] == '_' then rest[1..][Deleted(rest[0], rest[1..])..] else rest[1..]
  }

  /** What the scan makes of `rest` when `word` is the unfinished word before it. */
  function Scan(word: string, rest: string): string
    decreases |rest|
  {
    if rest == "" then word
    else if Ends(rest) then Style(word + [rest[0]]) + Scan("", Following(rest))
    else Scan(word + [rest[0]], Following(rest))
  }

  predicate AllLower(s: string) {
    forall c <- s :: Lower(c)
  }

  predicate AllUpperOrUnderscore(s: string) {
    forall c <- s :: Upper(c) || c == '_'
  }

  function Prepared(name: string): string {
    if AllUpperOrUnderscore(name) then LowerAll(name) else name
  }

  function Lint(name: string): string {
    if name == "_" then name
    else if AllLower(name) then Style(name)
    else Scan("", Prepared(name))
  }

  /** `lintFieldName`: an empty name is an index out of range in the source.  `runes[..len]` is the
      Go slice; what `copy` moves and what the slice gives up is the tail behind `i`. */
  method LintFieldName(name: string) returns (r: string)
    requires name != ""
    ensures r == Lint(name)
  {
    if name == "_" {
      return name;
    }
    var allLower := true;
    for k := 0 to |name|
      invariant allLower && AllLower(name[..k])
    {
      if !Lower(name[k]) {
        allLower := false;
        break;
      }
    }
    if allLower {
      assert name[..|name|] == name;
      if Initialism(UpperAll(name)) {
        return UpperAll(name);
      }
      LowerIsLower(name);
      return [ToUpper(name[0])] + name[1..];
    }
    var allUpperWithUnderscore := true;
    for k := 0 to |name|
      invariant allUpperWithUnderscore && AllUpperOrUnderscore(name[..k])
    {
      if !Upper(name[k]) && name[k] != '_' {
        allUpperWithUnderscore := false;
        break;
      }
    }
    assert name[..|name|] == name;
    r := ScanInPlace(if allUpperWithUnderscore then LowerAll(name) else name);
  }

  lemma LowerIsLower(s: string)
    requires AllLower(s)
    ensures LowerAll(s) == s
  {
    assert forall i :: 0 <= i < |s| ==> s[i] in s;
  }

  /** Go's `copy` inside one array: the source is read as it was before the first write. */
  method Copy(runes: array<char>, at: nat, src: string)
    requires at + |src| <= runes.Length
    modifies runes
    ensures runes[..at] == old(runes[..at]) && runes[at..at + |src|] == src
    ensures forall k :: at + |src| <= k < runes.Length ==> runes[k] == old(runes[k])
  {
    forall k | at <= k < at + |src| {
      runes[k] := src[k - at];
    }
  }

  /** The slice holds `done`, `word` and `rest`; `w` and `i` are where the last two begin. */
  ghost predicate Holds(runes: array<char>, len: nat, w: nat, i: nat, done: string, word: string, rest: string)
    reads runes
  {
    && len <= runes.Length && runes[..len] == done + word + rest
    && w == |done| && i == w + |word| && len == i + |rest|
  }

  /** What the slice holds before and behind `i`. */
  lemma Apart(runes: array<char>, len: nat, w: nat, i: nat, done: string, word: string, rest: string)
    requires Holds(runes, len, w, i, done, word, rest)
    ensures runes[..i] == done + word && runes[i..len] == rest && runes[..w] == done && runes[w..i] == word
  {
    var s := runes[..len];
    assert s[..i] == done + word && s[i..] == rest && s[..w] == done && s[w..i] == word;
    assert runes[..i] == s[..i] && runes[i..len] == s[i..] && runes[..w] == s[..w] && runes[w..i] == s[w..i];
  }

  lemma Together(runes: array<char>, len: nat, w: nat, i: nat, done: string, word: string, rest: string)
    requires i <= len <= runes.Length && w == |done| && i == w + |word|
    requires runes[..i] == done + word && runes[i..len] == rest
    ensures Holds(runes, len, w, i, done, word, rest)
  {
    assert runes[..len] == runes[..i] + runes[i..len];
  }

  /** The run of underscores behind `i` goes, but for one between two digits. */
  method DropUnderscores(runes: array<char>, len: nat, i: nat, ghost t: string)
    returns (shorter: nat, ghost u: string)
    requires i + 1 < len <= runes.Length && runes[i + 1] == '_' && t == runes[i + 1..len]
    modifies runes
    ensures u == t[Deleted(old(runes[i]), t)..]
    ensures shorter == i + 1 + |u| && shorter <= runes.Length
    ensures runes[..i + 1] == old(runes[..i + 1]) && runes[i + 1..shorter] == u
  {
    var n := CountDeleted(runes, len, i, t);
    u := t[n..];
    var rest := runes[i + n + 1..len];
    assert rest == u;
    Copy(runes, i + 1, rest);
    shorter := len - n;
  }

  method CountDeleted(runes: array<char>, len: nat, i: nat, ghost t: string) returns (n: nat)
    requires i + 1 < len <= runes.Length && runes[i + 1] == '_' && t == runes[i + 1..len]
    ensures n == Deleted(runes[i], t)
  {
    n := 1;
    while i + n + 1 < len && runes[i + n + 1] == '_'
      invariant 1 <= n <= |t| && i + n + 1 <= len
      invariant Underscores(t) == n + Underscores(t[n..])
    {
      assert t[n..][1..] == t[n + 1..];
      n := n + 1;
    }
    assert n == Underscores(t);
    if i + n + 1 < len {
      assert t[n] == runes[i + n + 1];
      if Digit(runes[i]) && Digit(runes[i + n + 1]) {
        n := n - 1;
      }
    }
  }

  /** The look ahead from `i` to the next character, or behind underscores. */
  method LookAhead(runes: array<char>, len: nat, w: nat, i: nat,
                   ghost done: string, ghost word: string, ghost rest: string)
    returns (eow: bool, shorter: nat)
    requires Holds(runes, len, w, i, done, word, rest) && i < len
    modifies runes
    ensures eow == Ends(rest)
    ensures Holds(runes, shorter, w, i + 1, done, word + [rest[0]], Following(rest))
  {
    eow, shorter := false, len;
    ghost var t := rest[1..];
    Apart(runes, len, w, i, done, word, rest);
    NextRune(runes, len, i, done + word, rest);
    if i + 1 == len {
      eow := true;
    } else if runes[i + 1] == '_' {
      eow := true;
      shorter, t := DropUnderscores(runes, len, i, t);
    } else if Lower(runes[i]) && !Lower(runes[i + 1]) {
      eow := true;
    }
    assert t == Following(rest) && eow == Ends(rest);
    Assoc(done, word, [rest[0]]);
    Together(runes, shorter, w, i + 1, done, word + [rest[0]], t);
  }

  lemma NextRune(runes: array<char>, len: nat, i: nat, front: string, rest: string)
    requires i < len <= runes.Length && runes[..i] == front && runes[i..len] == rest
    ensures runes[i] == rest[0] && runes[i + 1..len] == rest[1..] && runes[..i + 1] == front + [rest[0]]
    ensures i + 1 < len ==> runes[i + 1] == rest[1]
  {
    assert runes[i + 1..len] == runes[i..len][1..];
  }

  /** The finished word is restyled where it stands. */
  method Restyle(runes: array<char>, len: nat, w: nat, i: nat,
                 ghost done: string, ghost word: string, ghost rest: string)
    requires Holds(runes, len, w, i, done, word, rest)
    modifies runes
    ensures Holds(runes, len, i, i, done + Style(word), "", rest)
  {
    Apart(runes, len, w, i, done, word, rest);
    Copy(runes, w, Style(runes[w..i]));
    assert runes[..i] == runes[..w] + runes[w..i] == done + Style(word) + "";
    assert runes[i..len] == rest;
    Together(runes, len, i, i, done + Style(word), "", rest);
  }

  method ScanInPlace(name: string) returns (r: string)
    ensures r == Scan("", name)
  {
    var runes := new char[|name|](i requires 0 <= i < |name| => name[i]);
    var len: nat := runes.Length;
    var w, i := 0, 0;
    ghost var done, word, rest := "", "", name;
    while i + 1 <= len
      invariant Holds(runes, len, w, i, done, word, rest)
      invariant rest == "" ==> word == ""
      invariant done + Scan(word, rest) == Scan("", name)
      decreases |rest|
    {
      ghost var longer, t := word + [rest[0]], Following(rest);
      var eow;
      eow, len := LookAhead(runes, len, w, i, done, word, rest);
      i := i + 1;
      if !eow {
        word, rest := longer, t;
        continue;
      }
      Restyle(runes, len, w, i, done, longer, t);
      Assoc(done, Style(longer), Scan("", t));
      done, word, rest := done + Style(longer), "", t;
      w := i;
    }
    assert done + "" + "" == done;
    return runes[..len];
  }

  // ---------- the words of a name ----------

  /** Length of the run without underscores at the front. */
  function Plain(s: string): (n: nat)
    ensures n <= |s| && (n < |s| ==> s[n] == '_')
    ensures forall i :: 0 <= i < n ==> s[i] != '_'
  {
    if s == "" || s[0] == '_' then 0 else 1 + Plain(s[1..])
  }

  /** The maximal underscore-free pieces of a name. */
  function Pieces(s: string): seq<string>
    decreases |s|
  {
    if s == "" then []
    else if s[0] == '_' then Pieces(s[1..])
    else [s[..Plain(s)]] + Pieces(s[Plain(s)..])
  }

  /** The pieces behind a character: one keeps an underscore if that separates two digits. */
  function Behind(c: char, ps: seq<string>): seq<string>
    decreases |ps|
  {
    if ps == [] || ps[0] == "" then ps
    else [Mark(c, ps[0]) + ps[0]] + Behind(ps[0][|ps[0]| - 1], ps[1..])
  }

  function Mark(c: char, p: string): string {
    if p != "" && Digit(c) && Digit(p[0]) then "_" else ""
  }

  /** The chunks a name falls into.  One leading underscore stays with its piece, more of them
      become a chunk of their own. */
  function Chunks(s: string): seq<string> {
    var ps := Pieces(s);
    if Underscores(s) == 0 then Behind('_', ps)
    else if Underscores(s) > 1 || ps == [] || ps[0] == "" then ["_"] + Behind('_', ps)
    else ["_" + ps[0]] + Behind(ps[0][|ps[0]| - 1], ps[1..])
  }

  /** A chunk split behind each lower-case letter that something else follows. */
  function Camel(word: string, p: string): seq<string>
    decreases |p|
  {
    if p == "" then (if word == "" then [] else [word])
    else if |p| > 1 && Lower(p[0]) && !Lower(p[1]) then [word + [p[0]]] + Camel("", p[1..])
    else Camel(word + [p[0]], p[1..])
  }

  function StyleAll(ws: seq<string>): string {
    if ws == [] then "" else Style(ws[0]) + StyleAll(ws[1..])
  }

  function StyleChunks(ps: seq<string>): string {
    if ps == [] then "" else StyleAll(Camel("", ps[0])) + StyleChunks(ps[1..])
  }

  /** Inside a chunk `x` the scan splits like `Camel`; then it looks behind the underscores. */
  lemma {:induction false} ScanChunk(word: string, x: string, y: string)
    requires x != "" && (forall i :: 1 <= i < |x| ==> x[i] != '_') && (y != "" ==> y[0] == '_')
    ensures Scan(word, x + y) == StyleAll(Camel(word, x)) + Scan("", After(x[|x| - 1], y))
    decreases |x|
  {
    assert (x + y)[1..] == x[1..] + y && (x + y)[0] == x[0];
    var longer := word + [x[0]];
    var after := Scan("", After(x[|x| - 1], y));
    if |x| == 1 {
      assert Camel(word, x) == [longer];
      StyleOne(longer, []);
      assert x[1..] + y == y;
      assert Style(longer) + "" == Style(longer);
    } else if Lower(x[0]) && !Lower(x[1]) {
      ScanChunk("", x[1..], y);
      StyleOne(longer, Camel("", x[1..]));
      Assoc(Style(longer), StyleAll(Camel("", x[1..])), after);
    } else {
      ScanChunk(longer, x[1..], y);
    }
  }

  /** What is left for the scan behind a word that ends with `c` before the underscores `y`. */
  function After(c: char, y: string): string {
    if y == "" then "" else y[Deleted(c, y)..]
  }

  lemma StyleOne(w: string, ws: seq<string>)
    ensures StyleAll([w] + ws) == Style(w) + StyleAll(ws)
    ensures [w] + [] == [w] && StyleAll([w]) == Style(w)
  {
    assert ([w] + ws)[1..] == ws;
    assert [w][1..] == [] && Style(w) + "" == Style(w);
  }

  lemma {:induction false} SkipUnderscores(s: string)
    ensures Pieces(s[Underscores(s)..]) == Pieces(s)
    decreases |s|
  {
    if s != "" && s[0] == '_' {
      SkipUnderscores(s[1..]);
      assert s[Underscores(s)..] == s[1..][Underscores(s[1..])..];
    } else {
      assert s[0..] == s;
    }
  }

  /** The scan of `text` is that of these chunks. */
  ghost predicate ScansAs(text: string, chunks: seq<string>) {
    Scan("", text) == StyleChunks(chunks)
  }

  /** The scan over a piece `p`, with an underscore `m` left in front of it or nothing, and what
      follows. */
  lemma {:induction false} ScanPiece(m: string, p: string, y: string, text: string, chunks: seq<string>)
    requires p != "" && (forall i :: 0 <= i < |p| ==> p[i] != '_') && (m == "" || m == "_")
    requires (y != "" ==> y[0] == '_') && text == m + p + y
    requires chunks == [m + p] + Behind(p[|p| - 1], Pieces(y))
    ensures ScansAs(text, chunks)
    decreases |y|, 1
  {
    var c := p[|p| - 1];
    MarkedPiece(m, p);
    AfterIsBehind(c, y);
    ScanOneChunk(m + p, c, y, Behind(c, Pieces(y)));
  }

  lemma MarkedPiece(m: string, p: string)
    requires p != "" && (forall i :: 0 <= i < |p| ==> p[i] != '_') && (m == "" || m == "_")
    ensures m + p != "" && (m + p)[|m + p| - 1] == p[|p| - 1] && forall i :: 1 <= i < |m + p| ==> (m + p)[i] != '_'
  {}

  lemma ScanOneChunk(x: string, c: char, y: string, ps: seq<string>)
    requires x != "" && x[|x| - 1] == c && (forall i :: 1 <= i < |x| ==> x[i] != '_')
    requires (y != "" ==> y[0] == '_') && ScansAs(After(c, y), ps)
    ensures ScansAs(x + y, [x] + ps)
  {
    ScanChunk("", x, y);
    OneChunk(x, ps);
  }

  lemma OneChunk(x: string, ps: seq<string>)
    ensures StyleChunks([x] + ps) == StyleAll(Camel("", x)) + StyleChunks(ps)
  {
    assert ([x] + ps)[1..] == ps;
  }

  lemma FirstPiece(s: string)
    requires s != "" && s[0] != '_'
    ensures Plain(s) > 0 && Pieces(s) != [] && Pieces(s)[0] == s[..Plain(s)] && Pieces(s)[1..] == Pieces(s[Plain(s)..])
  {}

  lemma {:induction false} AfterIsBehind(c: char, y: string)
    requires y != "" ==> y[0] == '_'
    ensures ScansAs(After(c, y), Behind(c, Pieces(y)))
    decreases |y|, 0
  {
    if y != "" {
      SkipUnderscores(y);
      AfterMark(c, y);
      MarkedIsBehind(c, y[Underscores(y)..]);
    }
  }

  lemma AfterMark(c: char, y: string)
    requires y != "" && y[0] == '_'
    ensures var u := y[Underscores(y)..]; |u| < |y| && (u != "" ==> u[0] != '_') && After(c, y) == Mark(c, u) + u
  {}

  lemma {:induction false} MarkedIsBehind(c: char, u: string)
    requires u != "" ==> u[0] != '_'
    ensures ScansAs(Mark(c, u) + u, Behind(c, Pieces(u)))
    decreases |u|, 2
  {
    if u != "" {
      var m, p, t := Mark(c, u), u[..Plain(u)], u[Plain(u)..];
      FirstPiece(u);
      BehindFirst(c, u, p, t);
      assert m + u == m + p + t;
      ScanPiece(m, p, t, m + u, Behind(c, Pieces(u)));
    } else {
      assert "" + "" == "";
    }
  }

  lemma BehindFirst(c: char, u: string, p: string, t: string)
    requires u != "" && u[0] != '_' && p == u[..Plain(u)] && t == u[Plain(u)..] && p != ""
    ensures Behind(c, Pieces(u)) == [Mark(c, u) + p] + Behind(p[|p| - 1], Pieces(t))
  {
    FirstPiece(u);
    assert p[0] == u[0];
  }

  /** The in-place scan computes what the words of the name say. */
  lemma ScanIsWords(s: string)
    ensures Scan("", s) == StyleChunks(Chunks(s))
  {
    var n := Underscores(s);
    var u := s[n..];
    SkipUnderscores(s);
    if n == 0 {
      assert s == u;
      NoLead(s);
    } else if n == 1 && u != "" {
      SingleLead(s, u);
    } else {
      DoubleLead(s, u);
    }
  }

  lemma NoLead(s: string)
    requires Underscores(s) == 0
    ensures Scan("", s) == StyleChunks(Behind('_', Pieces(s)))
  {
    assert Mark('_', s) == "" && "" + s == s;
    MarkedIsBehind('_', s);
  }

  lemma SingleLead(s: string, u: string)
    requires Underscores(s) == 1 && u == s[1..] && u != ""
    ensures Pieces(u) != [] && Pieces(u)[0] != ""
    ensures
      var ps := Pieces(u);
      ScansAs(s, ["_" + ps[0]] + Behind(ps[0][|ps[0]| - 1], ps[1..]))
  {
    FirstPiece(u);
    var p, t := u[..Plain(u)], u[Plain(u)..];
    var ps := Pieces(u);
    assert s == "_" + p + t && p == ps[0] && ps[1..] == Pieces(t);
    ScanPiece("_", p, t, s, ["_" + ps[0]] + Behind(ps[0][|ps[0]| - 1], ps[1..]));
  }

  lemma DoubleLead(s: string, u: string)
    requires 0 < Underscores(s) && s[Underscores(s)..] == u && (u == "" || Underscores(s) > 1)
    ensures Scan("", s) == StyleChunks(["_"] + Behind('_', Pieces(u)))
  {
    var t := s[1..];
    assert s[0] == '_' && "" + ['_'] == "_";
    assert Underscores(t) == Underscores(s) - 1 && t[Underscores(t)..] == u;
    assert t != "" ==> t[0] == '_' by { if |s| > 1 && u != "" { assert t[0] == s[1]; } }
    AfterIsBehind('_', t);
    SkipUnderscores(t);
    assert Style("_") == "_";
    LoneUnderscore(Behind('_', Pieces(u)));
  }

  lemma LoneUnderscore(ps: seq<string>)
    ensures StyleChunks(["_"] + ps) == Style("_") + StyleChunks(ps)
  {
    assert "" + ['_'] == "_" && Camel("_", "") == ["_"] && "_"[1..] == "";
    assert Camel("", "_") == Camel("" + ['_'], "");
    StyleOne("_", []);
    assert (["_"] + ps)[1..] == ps;
  }

  /** Both fast paths are just that: every name gets the treatment of its words. */
  lemma LintIsWords(name: string)
    requires name != ""
    ensures Lint(name) == StyleChunks(Chunks(Prepared(name)))
  {
    ScanIsWords(Prepared(name));
    assert name[0] in name;
    if name == "_" {
      assert Prepared(name) == "_";
    } else if AllLower(name) {
      AllLowerScan("", name);
      assert "" + name == name;
    }
  }

  lemma {:induction false} AllLowerScan(word: string, s: string)
    requires AllLower(s) && s != ""
    ensures Scan(word, s) == Style(word + s)
    decreases |s|
  {
    var longer, t := word + [s[0]], s[1..];
    assert s[0] in s && longer + t == word + s;
    if t == "" {
      assert longer == word + s;
      assert Ends(s) && Following(s) == "" && Scan("", "") == "";
    } else {
      assert s[1] in s;
      assert !Ends(s) && Following(s) == t;
      AllLowerScan(longer, t);
    }
  }

  // ---------- how each word is written ----------

  /** An initialism is written in capitals, any other word without capitals gets one in front, and
      all else stays as it is. */
  predicate Written(w: string, piece: string) {
    if exists k :: 0 <= k < |INITIALISMS| && INITIALISMS[k] == UpperAll(w) then piece == UpperAll(w)
    else if w != "" && forall i :: 0 <= i < |w| ==> !Upper(w[i])
    then |piece| == |w| && piece[0] == ToUpper(w[0]) && piece[1..] == w[1..]
    else piece == w
  }

  predicate WrittenAll(words: seq<string>, pieces: seq<string>) {
    |words| == |pieces| && forall i :: 0 <= i < |words| ==> Written(words[i], pieces[i])
  }

  function Flat(pieces: seq<string>): string {
    if pieces == [] then "" else pieces[0] + Flat(pieces[1..])
  }

  /** The words of all chunks. */
  function Words(chunks: seq<string>): seq<string> {
    if chunks == [] then [] else Camel("", chunks[0]) + Words(chunks[1..])
  }

  /** A word ends between a lower-case letter and anything else. */
  predicate Break(c: char, d: char) {
    Lower(c) && !Lower(d)
  }

  predicate NoBreakIn(w: string) {
    forall i :: 0 <= i < |w| - 1 ==> !Break(w[i], w[i + 1])
  }

  predicate BrokenUp(ws: seq<string>) {
    && (forall i :: 0 <= i < |ws| ==> ws[i] != "" && NoBreakIn(ws[i]))
    && forall i :: 0 <= i < |ws| - 1 ==> BreakBehind(ws, i)
  }

  predicate BreakBehind(ws: seq<string>, i: nat)
    requires i + 1 < |ws|
  {
    ws[i] != "" && ws[i + 1] != "" && Break(ws[i][|ws[i]| - 1], ws[i + 1][0])
  }

  lemma BreaksCons(w: string, ws: seq<string>)
    requires w != "" && NoBreakIn(w) && BrokenUp(ws)
    requires ws != [] ==> ws[0] != "" && Break(w[|w| - 1], ws[0][0])
    ensures BrokenUp([w] + ws)
  {
    var all := [w] + ws;
    forall i | 0 <= i < |all| - 1
      ensures BreakBehind(all, i)
    {
      if i > 0 { assert BreakBehind(ws, i - 1); }
    }
  }

  /** The words of a chunk are the chunk, broken exactly where a lower-case letter is followed by
      something else. */
  lemma {:induction false} CamelBreaks(word: string, p: string)
    requires NoBreakIn(word) && (word != "" && p != "" ==> !Break(word[|word| - 1], p[0]))
    ensures Flat(Camel(word, p)) == word + p && BrokenUp(Camel(word, p))
    ensures word + p != "" ==> Camel(word, p) != [] && Camel(word, p)[0] != "" && Camel(word, p)[0][0] == (word + p)[0]
    decreases |p|
  {
    if p == "" {
      assert word + p == word && word + "" == word;
      if word != "" { assert [word][1..] == [] && Flat([word]) == word + ""; }
    } else {
      var longer, t := word + [p[0]], p[1..];
      assert longer + t == word + p;
      if |p| > 1 && Lower(p[0]) && !Lower(p[1]) {
        CamelBreaks("", t);
        assert "" + t == t;
        BreaksCons(longer, Camel("", t));
        assert ([longer] + Camel("", t))[1..] == Camel("", t);
      } else {
        CamelBreaks(longer, t);
      }
    }
  }

  lemma StyleWritten(w: string)
    ensures Written(w, Style(w))
  {
    if forall i :: 0 <= i < |w| ==> !Upper(w[i]) {
      assert LowerAll(w) == w;
    } else {
      var i :| 0 <= i < |w| && Upper(w[i]);
      assert LowerAll(w)[i] != w[i];
    }
  }

  lemma {:induction false} FlatAppend(a: seq<string>, b: seq<string>)
    ensures Flat(a + b) == Flat(a) + Flat(b)
    decreases |a|
  {
    if a == [] {
      assert a + b == b;
    } else {
      assert (a + b)[1..] == a[1..] + b;
      FlatAppend(a[1..], b);
    }
  }

  lemma {:induction false} WordsWritten(ws: seq<string>) returns (pieces: seq<string>)
    ensures WrittenAll(ws, pieces) && Flat(pieces) == StyleAll(ws)
  {
    if ws == [] {
      pieces := [];
    } else {
      var rest := WordsWritten(ws[1..]);
      StyleWritten(ws[0]);
      pieces := [Style(ws[0])] + rest;
      assert pieces[1..] == rest;
      assert forall i :: 1 <= i < |ws| ==> ws[i] == ws[1..][i - 1] && pieces[i] == rest[i - 1];
    }
  }

  lemma {:induction false} ChunksWritten(chunks: seq<string>) returns (pieces: seq<string>)
    ensures WrittenAll(Words(chunks), pieces) && Flat(pieces) == StyleChunks(chunks)
  {
    if chunks == [] {
      pieces := [];
    } else {
      var first := WordsWritten(Camel("", chunks[0]));
      var rest := ChunksWritten(chunks[1..]);
      pieces := first + rest;
      FlatAppend(first, rest);
      BothWritten(Camel("", chunks[0]), Words(chunks[1..]), first, rest);
    }
  }

  lemma BothWritten(ws: seq<string>, vs: seq<string>, a: seq<string>, b: seq<string>)
    requires WrittenAll(ws, a) && WrittenAll(vs, b)
    ensures WrittenAll(ws + vs, a + b)
  {}

  /** `lintFieldName` writes the words of a name one behind the other, each in its own way.  A name of
      capitals and underscores only is read in lower case. */
  lemma LintWritten(name: string) returns (pieces: seq<string>)
    requires name != ""
    ensures
      var shouted := forall i :: 0 <= i < |name| ==> Upper(name[i]) || name[i] == '_';
      WrittenAll(Words(Chunks(if shouted then LowerAll(name) else name)), pieces)
    ensures Lint(name) == Flat(pieces)
  {
    LintIsWords(name);
    pieces := ChunksWritten(Chunks(Prepared(name)));
    assert AllUpperOrUnderscore(name) <==> forall i :: 0 <= i < |name| ==> Upper(name[i]) || name[i] == '_';
  }

  // ---------- the example in the comment on `FmtFieldName` ----------

  lemma FooID(s: string)
    requires s == "foo_id"
    ensures Fmt(s) == "FooID"
  {
    LintFooID(s);
    FmtOfLetters(s, Lint(s));
  }

  lemma FmtOfLetters(s: string, r: string)
    requires s != "" && Letter(s[0]) && Lint(s) == r
    requires r != "" && forall i :: 0 <= i < |r| ==> Letter(r[i])
    ensures Fmt(s) == r
  {
    assert Clean(r) == r;
  }

  lemma LintFooID(s: string)
    requires s == ['f', 'o', 'o', '_', 'i', 'd']
    ensures Lint(s) == ['F', 'o', 'o', 'I', 'D']
  {
    var foo, id := ['f', 'o', 'o'], ['i', 'd'];
    assert s == foo + (['_'] + id);
    TwoWords(s, foo, id);
    StyleFoo(foo);
    StyleId(id);
  }

  lemma TwoWords(s: string, x: string, y: string)
    requires x != "" && y != "" && AllLower(x) && AllLower(y) && s == x + (['_'] + y)
    ensures Lint(s) == Style(x) + Style(y)
  {
    assert s[0] == x[0] && x[0] in x && y[0] in y && s[|x|] == '_';
    NotAll(s, 0, |x|);
    LowerThenRest("", x, y);
    AllLowerScan("", y);
    assert "" + x == x && "" + y == y;
  }

  lemma NotAll(s: string, i: nat, k: nat)
    requires i < |s| && k < |s| && Lower(s[i]) && !Lower(s[k])
    ensures !AllUpperOrUnderscore(s) && !AllLower(s)
  {
    assert s[i] in s && s[k] in s;
  }

  /** A word of small letters in front of one underscore. */
  lemma {:induction false} LowerThenRest(word: string, x: string, t: string)
    requires x != "" && AllLower(x) && t != "" && t[0] != '_'
    ensures Scan(word, x + (['_'] + t)) == Style(word + x) + Scan("", t)
    decreases |x|
  {
    var s, longer := x + (['_'] + t), word + [x[0]];
    assert x[0] in x;
    SplitFirst(x, ['_'] + t);
    if |x| == 1 {
      assert longer == word + x;
      OverUnderscore(s, t);
    } else {
      assert x[1] in x && longer + x[1..] == word + x;
      InsideWord(s);
      LowerThenRest(longer, x[1..], t);
    }
  }

  lemma SplitFirst(x: string, y: string)
    requires x != ""
    ensures (x + y)[0] == x[0] && (x + y)[1..] == x[1..] + y && (|x| > 1 ==> (x + y)[1] == x[1])
    ensures |x| == 1 ==> x[1..] == "" && "" + y == y
  {}

  lemma InsideWord(s: string)
    requires |s| > 1 && Lower(s[0]) && Lower(s[1])
    ensures !Ends(s) && Following(s) == s[1..]
  {}

  lemma OverUnderscore(s: string, t: string)
    requires |s| > 1 && Lower(s[0]) && s[1..] == ['_'] + t && t != "" && t[0] != '_'
    ensures Ends(s) && Following(s) == t
  {
    assert (['_'] + t)[1..] == t && s[1] == s[1..][0];
    assert Underscores(['_'] + t) == 1;
  }

  lemma StyleFoo(w: string)
    requires w == ['f', 'o', 'o']
    ensures Style(w) == ['F', 'o', 'o']
  {
    var u := UpperAll(w);
    assert u == ['F', 'O', 'O'];
    assert forall i :: 0 <= i < |INITIALISMS| ==> |INITIALISMS[i]| != 3 || INITIALISMS[i][2] != 'O';
    assert LowerAll(w) == w;
  }

  lemma StyleId(w: string)
    requires w == ['i', 'd']
    ensures Style(w) == ['I', 'D']
  {
    assert UpperAll(w) == ['I', 'D'] == INITIALISMS[10];
  }

  // ---------- what linting keeps ----------

  /** The characters that are not underscores, up to case. */
  function Keep(s: string): string {
    if s == "" then "" else (if s[0] == '_' then "" else [ToUpper(s[0])]) + Keep(s[1..])
  }

  /** The scan without any restyling. */
  function Squeeze(s: string): string
    decreases |s|
  {
    if s == "" then "" else [s[0]] + Squeeze(Following(s))
  }

  /** Underscores stand in front or between two digits. */
  ghost predicate Tidy(s: string) {
    forall i :: 0 < i < |s| && s[i] == '_' ==> i + 1 < |s| && Digit(s[i - 1]) && Digit(s[i + 1])
  }

  lemma StyleCase(w: string)
    ensures SameCase(Style(w), w)
  {
    if Initialism(UpperAll(w)) {
      UpperCase(w);
    } else if LowerAll(w) == w && w != "" {
      FirstCase(w);
    }
  }

  lemma UpperCase(w: string)
    ensures SameCase(UpperAll(w), w)
  {}

  lemma FirstCase(w: string)
    requires w != ""
    ensures SameCase([ToUpper(w[0])] + w[1..], w)
  {}

  lemma {:induction false} ScanCase(word: string, rest: string)
    ensures SameCase(Scan(word, rest), word + Squeeze(rest))
    decreases |rest|
  {
    if rest != "" {
      var longer, t := word + [rest[0]], Following(rest);
      Assoc(word, [rest[0]], Squeeze(t));
      if Ends(rest) {
        ScanCase("", t);
        assert "" + Squeeze(t) == Squeeze(t);
        StyleCase(longer);
        JoinCase(Style(longer), longer, Scan("", t), Squeeze(t));
      } else {
        ScanCase(longer, t);
      }
    }
  }

  lemma JoinCase(a: string, b: string, x: string, y: string)
    requires SameCase(a, b) && SameCase(x, y)
    ensures SameCase(a + x, b + y)
  {}

  lemma {:induction false} KeepCase(a: string, b: string)
    requires SameCase(a, b)
    ensures Keep(a) == Keep(b)
  {
    if a != "" {
      assert ToUpper(a[0]) == ToUpper(b[0]);
      KeepCase(a[1..], b[1..]);
    }
  }

  lemma {:induction false} KeepDrop(t: string, n: nat)
    requires n <= Underscores(t)
    ensures Keep(t[n..]) == Keep(t)
  {
    if n > 0 {
      KeepDrop(t[1..], n - 1);
      assert t[n..] == t[1..][n - 1..];
    } else {
      assert t[0..] == t;
    }
  }

  lemma {:induction false} SqueezeKeep(s: string)
    ensures Keep(Squeeze(s)) == Keep(s)
    decreases |s|
  {
    if s != "" {
      var t := s[1..];
      SqueezeKeep(Following(s));
      if t != "" && t[0] == '_' {
        KeepDrop(t, Deleted(s[0], t));
      }
      assert Squeeze(s)[1..] == Squeeze(Following(s));
    }
  }

  lemma {:induction false} SqueezeTidy(s: string)
    ensures Tidy(Squeeze(s))
    decreases |s|
  {
    if s != "" {
      var t := Following(s);
      var r := Squeeze(t);
      SqueezeTidy(t);
      FollowingMark(s);
      assert r != "" ==> r[0] == t[0];
      if |t| > 1 && t[1] != '_' {
        SqueezeTwo(t);
      }
      forall i | 0 < i < |Squeeze(s)| && Squeeze(s)[i] == '_'
        ensures i + 1 < |Squeeze(s)| && Digit(Squeeze(s)[i - 1]) && Digit(Squeeze(s)[i + 1])
      {
        assert Squeeze(s)[i] == r[i - 1];
      }
    }
  }

  lemma SqueezeTwo(t: string)
    requires |t| > 1 && t[1] != '_'
    ensures |Squeeze(t)| > 1 && Squeeze(t)[1] == t[1]
  {
    assert Following(t)[0] == t[1];
    assert Squeeze(t)[1..] == Squeeze(Following(t));
  }

  lemma FollowingMark(s: string)
    requires s != ""
    ensures
      var t := Following(s);
      t != "" && t[0] == '_' ==> |t| > 1 && Digit(s[0]) && Digit(t[1])
  {
  }

  /** `lintFieldName` keeps every character but underscores, up to case and in order, and leaves an
      underscore only in front or between two digits. */
  lemma LintKeeps(name: string)
    requires name != ""
    ensures Keep(Lint(name)) == Keep(name)
    ensures Tidy(Lint(name))
  {
    if name == "_" {
    } else if AllLower(name) {
      StyleKeeps(name);
    } else {
      KeepCase(Prepared(name), name);
      ScanKeeps(Prepared(name));
    }
  }

  lemma StyleKeeps(w: string)
    requires AllLower(w)
    ensures Keep(Style(w)) == Keep(w)
    ensures Tidy(Style(w))
  {
    StyleCase(w);
    KeepCase(Style(w), w);
    assert forall i :: 0 <= i < |w| ==> w[i] in w;
    TidyCase(Style(w), w);
  }

  lemma ScanKeeps(s: string)
    ensures Keep(Scan("", s)) == Keep(s)
    ensures Tidy(Scan("", s))
  {
    ScanCase("", s);
    var r, q := Scan("", s), Squeeze(s);
    assert "" + q == q;
    KeepCase(r, q);
    SqueezeKeep(s);
    SqueezeTidy(s);
    TidyCase(r, q);
  }

  lemma TidyCase(a: string, b: string)
    requires SameCase(a, b) && Tidy(b)
    ensures Tidy(a)
  {
    forall i | 0 < i < |a| && a[i] == '_'
      ensures i + 1 < |a| && Digit(a[i - 1]) && Digit(a[i + 1])
    {
      assert ToUpper(a[i]) == ToUpper(b[i]) && ToUpper(a[i - 1]) == ToUpper(b[i - 1]);
      assert b[i] == '_';
      assert ToUpper(a[i + 1]) == ToUpper(b[i + 1]);
    }
  }

  // ---------- exported identifiers ----------

  /** A Go identifier other packages can see; no underscore at the end. */
  predicate Exported(s: string) {
    && s != ""
    && Upper(s[0])
    && (forall c <- s :: Alnum(c) || c == '_')
    && s[|s| - 1] != '_'
  }

  function Spell(t: string): string
    requires t != ""
  {
    if Digit(t[0]) then DIGIT_WORDS[t[0] as int - '0' as int] + "_" + t[1..] else t
  }

  function Clean(s: string): string {
    seq(|s|, i requires 0 <= i < |s| => if Letter(s[i]) || (Digit(s[i]) && i > 0) then s[i] else '_')
  }

  function TrimLeft(s: string): string {
    if s != "" && s[0] == '_' then TrimLeft(s[1..]) else s
  }

  function TrimRight(s: string): string {
    if s != "" && s[|s| - 1] == '_' then TrimRight(s[..|s| - 1]) else s
  }

  function FromAlnum(s: string): string {
    if s == "" || Alnum(s[0]) then s else FromAlnum(s[1..])
  }

  function Fmt(s: string): string {
    var t := FromAlnum(s);
    if t == "" then "_"
    else
      var r := TrimRight(TrimLeft(Clean(Lint(Spell(t)))));
      if r == "" then "_" else r
  }

  method FmtFieldName(s: string) returns (r: string)
    ensures r == Fmt(s)
  {
    var runes := s;
    while |runes| > 0 && !Letter(runes[0]) && !Digit(runes[0])
      invariant FromAlnum(runes) == FromAlnum(s)
    {
      runes := runes[1..];
    }
    if |runes| == 0 {
      return "_";
    }
    DigitWords();
    var name := LintFieldName(Spell(runes));
    var clean := CleanInPlace(name);
    r := TrimRight(TrimLeft(clean));
    if |r| == 0 {
      return "_";
    }
  }

  method CleanInPlace(name: string) returns (r: string)
    ensures r == Clean(name)
  {
    var clean := new char[|name|](i requires 0 <= i < |name| => name[i]);
    for i := 0 to |name|
      invariant forall k :: 0 <= k < |name| ==> clean[k] == if k < i then Clean(name)[k] else name[k]
    {
      var ok := Letter(clean[i]) || Digit(clean[i]);
      if i == 0 {
        ok := Letter(clean[i]);
      }
      if !ok {
        clean[i] := '_';
      }
    }
    return clean[..];
  }

  lemma DigitWords()
    ensures forall d :: 0 <= d < 10 ==> AllLower(DIGIT_WORDS[d]) && DIGIT_WORDS[d] != ""
  {
  }

  /** A word that starts with a letter starts with a capital once it is styled. */
  lemma StyleFirst(w: string)
    requires w != "" && Letter(w[0]) && (Lower(w[0]) ==> AllLower(w))
    ensures Upper(Style(w)[0])
  {
    if Lower(w[0]) { LowerIsLower(w); }
  }

  lemma {:induction false} ScanFirst(word: string, rest: string)
    requires rest != "" && Letter((word + rest)[0])
    requires Lower((word + rest)[0]) ==> AllLower(word + [rest[0]])
    ensures Scan(word, rest) != "" && Upper(Scan(word, rest)[0])
    decreases |rest|
  {
    var longer := word + [rest[0]];
    assert longer[0] == (word + rest)[0];
    if Ends(rest) {
      StyleFirst(longer);
    } else {
      var t := Following(rest);
      assert (longer + t)[0] == longer[0];
      assert Lower(longer[0]) ==> Lower(rest[0]) by { assert rest[0] in longer; }
      ScanFirst(longer, t);
    }
  }

  lemma LintFirst(name: string)
    requires name != "" && Letter(name[0])
    ensures Lint(name) != "" && Upper(Lint(name)[0])
  {
    if AllLower(name) {
      StyleFirst(name);
    } else {
      var s := Prepared(name);
      assert "" + s == s && "" + [s[0]] == [s[0]];
      ScanFirst("", s);
    }
  }

  /** Letters and digits, up to case. */
  function Content(s: string): string {
    if s == "" then "" else (if Alnum(s[0]) then [ToUpper(s[0])] else "") + Content(s[1..])
  }

  /** The content a field name has to show: a digit in front is spelt out. */
  function Spoken(s: string): string {
    if s == "" then ""
    else if Digit(s[0]) then UpperAll(DIGIT_WORDS[s[0] as int - '0' as int]) + Content(s[1..])
    else if Letter(s[0]) then Content(s)
    else Spoken(s[1..])
  }

  lemma {:induction false} ContentAppend(a: string, b: string)
    ensures Content(a + b) == Content(a) + Content(b)
  {
    if a == "" {
      assert a + b == b;
    } else {
      assert (a + b)[1..] == a[1..] + b && (a + b)[0] == a[0];
      ContentAppend(a[1..], b);
      Assoc(if Alnum(a[0]) then [ToUpper(a[0])] else "", Content(a[1..]), Content(b));
    }
  }

  lemma {:induction false} ContentOfKeep(s: string)
    ensures Content(Keep(s)) == Content(s)
  {
    if s != "" {
      ContentOfKeep(s[1..]);
      if s[0] != '_' {
        assert Keep(s)[0] == ToUpper(s[0]) && Keep(s)[1..] == Keep(s[1..]);
        assert ToUpper(ToUpper(s[0])) == ToUpper(s[0]);
      } else {
        assert Keep(s) == Keep(s[1..]);
      }
    }
  }

  lemma {:induction false} ContentOfLetters(s: string)
    requires AllLower(s)
    ensures Content(s) == UpperAll(s)
  {
    if s != "" {
      assert s[0] in s;
      ContentOfLetters(s[1..]);
    }
  }

  lemma {:induction false} ContentPointwise(a: string, b: string)
    requires |a| == |b| && forall i :: 0 <= i < |a| ==> a[i] == if Alnum(b[i]) then b[i] else '_'
    ensures Content(a) == Content(b)
  {
    if a != "" {
      assert a[0] == if Alnum(b[0]) then b[0] else '_';
      ContentPointwise(a[1..], b[1..]);
    }
  }

  lemma {:induction false} TrimRightKeeps(s: string)
    ensures Content(TrimRight(s)) == Content(s)
    ensures TrimRight(s) <= s
    ensures TrimRight(s) != "" ==> TrimRight(s)[|TrimRight(s)| - 1] != '_'
  {
    if s != "" && s[|s| - 1] == '_' {
      var front := s[..|s| - 1];
      TrimRightKeeps(front);
      ContentAppend(front, "_");
      assert s == front + "_";
    }
  }

  lemma {:induction false} SpokenFromAlnum(s: string)
    ensures Spoken(FromAlnum(s)) == Spoken(s)
    ensures FromAlnum(s) == "" <==> forall c <- s :: !Alnum(c)
  {
    if s != "" && !Alnum(s[0]) {
      SpokenFromAlnum(s[1..]);
      assert forall c :: c in s <==> c == s[0] || c in s[1..];
    } else if s != "" {
      assert s[0] in s;
    }
  }

  lemma SpellContent(t: string)
    requires t != "" && Alnum(t[0])
    ensures Content(Spell(t)) == Spoken(t) && Spell(t) != "" && Letter(Spell(t)[0])
  {
    if Digit(t[0]) {
      DigitWords();
      WordContent(DIGIT_WORDS[t[0] as int - '0' as int], t[1..]);
    }
  }

  lemma WordContent(w: string, t: string)
    requires AllLower(w) && w != ""
    ensures Content(w + "_" + t) == UpperAll(w) + Content(t) && Letter((w + "_" + t)[0])
  {
    ContentOfLetters(w);
    ContentAppend(w + "_", t);
    ContentAppend(w, "_");
    assert Content("_") == "" && Content(w) + "" == Content(w);
    assert w[0] in w;
  }

  /** Every key becomes an exported Go identifier that shows its letters and digits, up to case and
      in order; a key that has none becomes a lone underscore. */
  lemma FmtFieldNameExported(s: string)
    ensures Fmt(s) == "_" <==> forall c <- s :: !Alnum(c)
    ensures Fmt(s) != "_" ==> Exported(Fmt(s))
    ensures Content(Fmt(s)) == Spoken(s)
  {
    SpokenFromAlnum(s);
    var t := FromAlnum(s);
    assert t != "" ==> Alnum(t[0]) by { FromAlnumFirst(s); }
    if t == "" {
      assert Content("_") == "";
    } else {
      SpellContent(t);
      var name := Spell(t);
      var lint := Lint(name);
      LintFirst(name);
      LintKeeps(name);
      ContentOfKeep(lint);
      ContentOfKeep(name);
      var clean := Clean(lint);
      ContentPointwise(clean, lint);
      assert TrimLeft(clean) == clean;
      TrimRightKeeps(clean);
      CleanTrimmed(clean);
    }
  }

  /** What is left of the linted name: its letters and digits where they stand, underscores for all
      else, and nothing of that behind the last letter or digit. */
  lemma FmtOfLint(s: string)
    requires exists c <- s :: Alnum(c)
    ensures FromAlnum(s) != "" && Spell(FromAlnum(s)) != ""
    ensures
      var linted, r := Lint(Spell(FromAlnum(s))), Fmt(s);
      && |r| <= |linted|
      && (forall i :: 0 <= i < |r| ==> r[i] == if Alnum(linted[i]) then linted[i] else '_')
      && (forall i :: |r| <= i < |linted| ==> !Alnum(linted[i]))
  {
    SpokenFromAlnum(s);
    FromAlnumFirst(s);
    var t := FromAlnum(s);
    SpellContent(t);
    LintFirst(Spell(t));
    FmtCleaned(Lint(Spell(t)));
  }

  lemma FmtCleaned(linted: string)
    requires linted != "" && Upper(linted[0])
    ensures
      var r := TrimRight(TrimLeft(Clean(linted)));
      && r != "" && |r| <= |linted|
      && (forall i :: 0 <= i < |r| ==> r[i] == if Alnum(linted[i]) then linted[i] else '_')
      && (forall i :: |r| <= i < |linted| ==> !Alnum(linted[i]))
  {
    var clean := Clean(linted);
    assert TrimLeft(clean) == clean;
    TrimRightNonempty(clean);
    TrimRightCuts(clean);
    var r := TrimRight(clean);
    forall i | |r| <= i < |linted|
      ensures !Alnum(linted[i])
    {
      assert clean[i] == '_';
    }
  }

  lemma {:induction false} TrimRightCuts(s: string)
    ensures TrimRight(s) <= s && forall i :: |TrimRight(s)| <= i < |s| ==> s[i] == '_'
  {
    if s != "" && s[|s| - 1] == '_' { TrimRightCuts(s[..|s| - 1]); }
  }

  lemma {:induction false} FromAlnumFirst(s: string)
    ensures FromAlnum(s) != "" ==> Alnum(FromAlnum(s)[0])
  {
    if s != "" && !Alnum(s[0]) { FromAlnumFirst(s[1..]); }
  }

  lemma CleanTrimmed(s: string)
    requires s != "" && Upper(s[0]) && forall i :: 0 <= i < |s| ==> Alnum(s[i]) || s[i] == '_'
    ensures Exported(TrimRight(s))
  {
    TrimRightKeeps(s);
    TrimRightNonempty(s);
  }

  lemma {:induction false} TrimRightNonempty(s: string)
    requires s != "" && s[0] != '_'
    ensures TrimRight(s) != ""
  {
    if s[|s| - 1] == '_' { TrimRightNonempty(s[..|s| - 1]); }
  }
}
