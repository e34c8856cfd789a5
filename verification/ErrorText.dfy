/** Error codes travel as text (pkg/errcode): `Err` and `ErrToHTTP` print a code and a message,
    `ParseError` reads them back from an error, `parseCodeAndMsg` from a gRPC status. */
module ErrorText {

  import opened Text
  import opened Wrappers

  /** Go's `int` on a 64-bit platform. */
  type Int = x: int | -0x8000_0000_0000_0000 <= x < 0x8000_0000_0000_0000

  const LABEL := "[standard http code]"

  datatype Error = Error(code: Int, msg: string, details: seq<string>, needHTTPCode: bool)

  // ---------- numbers as text ----------

  predicate Digit(c: char) { '0' <= c <= '9' }

  predicate Digits(s: string) {
    s != "" && forall i :: 0 <= i < |s| ==> Digit(s[i])
  }

  function NatText(n: nat): (s: string)
    ensures Digits(s)
  {
    var d := [('0' as int + n % 10) as char];
    if n < 10 then d else NatText(n / 10) + d
  }

  function Value(s: string): nat
    requires s == "" || Digits(s)
  {
    if s == "" then 0
    else
      var last := |s| - 1;
      Value(s[..last]) * 10 + (s[last] as int - '0' as int)
  }

  /** `%d`. */
  function Itoa(n: Int): string {
    if n < 0 then "-" + NatText(-(n as int)) else NatText(n)
  }

  /** `strconv.Atoi`: the number, and whether there was no error.  Text that is no number yields 0,
      a number out of range the nearest one in range. */
  function Atoi(s: string): (Int, bool) {
    var signed := s != "" && (s[0] == '-' || s[0] == '+');
    var t := if signed then s[1..] else s;
    if !Digits(t) then (0, false)
    else
      var v := if signed && s[0] == '-' then -(Value(t) as int) else Value(t);
      if v < -0x8000_0000_0000_0000 then (-0x8000_0000_0000_0000, false)
      else if v >= 0x8000_0000_0000_0000 then (0x7fff_ffff_ffff_ffff, false)
      else (v, true)
  }

  lemma {:induction false} ValueOfText(n: nat)
    ensures Value(NatText(n)) == n
  {
    if n >= 10 {
      ValueOfText(n / 10);
      var s := NatText(n);
      assert s[..|s| - 1] == NatText(n / 10);
    }
  }

  lemma AtoiItoa(n: Int)
    ensures Atoi(Itoa(n)) == (n, true)
    ensures forall i :: 0 <= i < |Itoa(n)| ==> Digit(Itoa(n)[i]) || Itoa(n)[i] == '-'
  {
    ValueOfText(if n < 0 then -(n as int) else n);
    if n < 0 {
      assert Itoa(n)[1..] == NatText(-(n as int));
    }
  }

  // ---------- printing ----------

  function Message(e: Error, msg: seq<string>): string {
    if msg == [] then e.msg else Join(msg, ", ")
  }

  /** `%v` of a list of strings. */
  function Bracketed(details: seq<string>): string {
    "[" + Join(details, " ") + "]"
  }

  /** What both printers start with. */
  function Head(code: Int): string {
    "code = " + Itoa(code) + ", msg = "
  }

  /** What `Err` prints behind that, and what `ErrToHTTP` does. */
  function Tail(e: Error, msg: seq<string>): string {
    Message(e, msg) + if e.details == [] then "" else ", details = " + Bracketed(e.details)
  }

  function TailToHTTP(e: Error, msg: seq<string>): string {
    Message(e, msg) + (if e.details == [] then "" else ", details = " + Join(e.details, ", ")) + LABEL
  }

  function Err(e: Error, msg: seq<string>): string {
    Head(e.code) + Tail(e, msg)
  }

  function ErrToHTTP(e: Error, msg: seq<string>): string {
    Head(e.code) + TailToHTTP(e, msg)
  }

  // ---------- the registry ----------

  class Registry {
    var errCodes: map<Int, Error>
    var httpErrCodes: map<Int, string>

    constructor ()
      ensures errCodes == map[] && httpErrCodes == map[] && Consistent()
    {
      errCodes, httpErrCodes := map[], map[];
    }

    /** Every error is filed under its own code, with its message beside it. */
    ghost predicate Consistent()
      reads this
    {
      && errCodes.Keys == httpErrCodes.Keys
      && forall c <- errCodes :: errCodes[c].code == c && errCodes[c].msg == httpErrCodes[c]
                                 && !errCodes[c].needHTTPCode
    }

    /** A code can be taken only once; the second attempt panics and changes nothing. */
    method NewError(code: Int, msg: string, details: seq<string>) returns (panicked: bool, e: Error)
      requires Consistent()
      modifies this
      ensures Consistent()
      ensures panicked <==> code in old(errCodes)
      ensures e == Error(code, msg, details, false)
      ensures errCodes == if panicked then old(errCodes) else old(errCodes)[code := e]
    {
      e := Error(code, msg, details, false);
      if code in errCodes {
        return true, e;
      }
      httpErrCodes := httpErrCodes[code := msg];
      errCodes := errCodes[code := e];
      return false, e;
    }
  }

  // ---------- reading ----------

  function ParseError(codes: map<Int, Error>, text: string): Error {
    FromSplits(codes, Split(text, ", msg = "), Contains(text, LABEL))
  }

  function FromSplits(codes: map<Int, Error>, splits: seq<string>, labelled: bool): Error
    requires splits != []
  {
    var (code, ok) := Atoi(ReplaceAll(splits[0], "code = ", ""));
    if !ok || code !in codes then Error(-1, "unknown error", [], false)
    else if |splits| > 1 then Error(code, splits[1], [], labelled)
    else codes[code]
  }

  /** `GetErrorCode`; `toHTTP` is the table of `ToHTTPCode`. */
  function GetErrorCode(codes: map<Int, Error>, toHTTP: Int -> Int, text: string): Int {
    var e := ParseError(codes, text);
    if e.needHTTPCode then toHTTP(e.code) else e.code
  }

  function ParseCodeAndMsg(text: string): (Int, string) {
    if text == "" then (-1, text)
    else
      FromParts(text, Split(Last(Split(text, "desc = ")), "msg = "))
  }

  function FromParts(text: string, cm: seq<string>): (Int, string) {
    if |cm| != 2 then (-1, text) else (Atoi(CodeText(cm[0])).0, cm[1])
  }

  function CodeText(s: string): string {
    ReplaceAll(ReplaceAll(s, "code = ", ""), ", ", "")
  }

  // ---------- searching and splitting ----------

  lemma OccursPoint(s: string, sub: string, k: nat, j: nat)
    requires OccursAt(s, sub, k) && j < |sub|
    ensures s[k + j] == sub[j]
  {
    assert s[k..k + |sub|][j] == s[k + j];
  }

  lemma Mismatch(s: string, sub: string, k: nat, j: nat)
    requires j < |sub| && k + j < |s| && s[k + j] != sub[j]
    ensures !OccursAt(s, sub, k)
  {
    assert k + |sub| <= |s| ==> s[k..k + |sub|][j] == s[k + j];
  }

  lemma OccursBehind(a: string, b: string, sub: string, k: nat)
    ensures OccursAt(a + b, sub, |a| + k) <==> OccursAt(b, sub, k)
  {
    if k + |sub| <= |b| {
      assert (a + b)[|a| + k..|a| + k + |sub|] == b[k..k + |sub|];
    }
  }

  lemma OccursBefore(a: string, b: string, sub: string, k: nat)
    requires k + |sub| <= |a|
    ensures OccursAt(a + b, sub, k) <==> OccursAt(a, sub, k)
  {
    assert (a + b)[k..k + |sub|] == a[k..k + |sub|];
  }

  /** Nothing starts in `a`. */
  ghost predicate NoStart(a: string, b: string, sub: string) {
    forall k: nat :: k < |a| ==> !OccursAt(a + b, sub, k)
  }

  lemma NoStartIf(a: string, b: string, sub: string)
    requires sub != "" && sub[0] !in a
    ensures NoStart(a, b, sub)
  {
    forall k: nat | k < |a|
      ensures !OccursAt(a + b, sub, k)
    {
      assert a[k] in a;
      Mismatch(a + b, sub, k, 0);
    }
  }

  lemma ContainsBehind(a: string, b: string, sub: string)
    requires sub != "" && NoStart(a, b, sub)
    ensures Contains(a + b, sub) <==> Contains(b, sub)
  {
    var r, q := Index(a + b, sub), Index(b, sub);
    if r >= 0 { OccursBehind(a, b, sub, r - |a|); }
    if q >= 0 { OccursBehind(a, b, sub, q); }
  }

  /** A character that `sub` does not have keeps what is on its sides apart. */
  lemma ContainsApart(a: string, c: char, b: string, sub: string)
    requires sub != "" && c !in sub
    ensures Contains(a + ([c] + b), sub) <==> Contains(a, sub) || Contains(b, sub)
  {
    var s, cb := a + ([c] + b), [c] + b;
    var p, q := Index(a, sub), Index(b, sub);
    assert sub[0] in sub;
    NoStartIf([c], b, sub);
    ContainsBehind([c], b, sub);
    if p >= 0 {
      OccursBefore(a, cb, sub, p);
    }
    if q >= 0 {
      OccursBehind(a, cb, sub, Index(cb, sub));
    }
    var r := Index(s, sub);
    if r >= 0 {
      OccursApart(a, c, b, sub, r);
    }
  }

  lemma OccursApart(a: string, c: char, b: string, sub: string, r: nat)
    requires c !in sub && OccursAt(a + ([c] + b), sub, r)
    ensures if r <= |a| then OccursAt(a, sub, r) else OccursAt([c] + b, sub, r - |a|)
  {
    var s := a + ([c] + b);
    assert s[|a|] == c;
    if r > |a| {
      OccursBehind(a, [c] + b, sub, r - |a|);
    } else {
      if |a| - r < |sub| {
        OccursPoint(s, sub, r, |a| - r);
      }
      OccursBefore(a, [c] + b, sub, r);
    }
  }

  lemma SplitAt(s: string, sep: string, i: nat)
    requires sep != "" && Index(s, sep) == i
    ensures Split(s, sep) == [s[..i]] + Split(s[i + |sep|..], sep)
  {
  }

  lemma SplitAtLast(s: string, sep: string, i: nat)
    requires sep != "" && Index(s, sep) == i
    ensures Last(Split(s, sep)) == Last(Split(s[i + |sep|..], sep))
  {
    SplitAt(s, sep, i);
    LastBehindOne(s[..i], Split(s[i + |sep|..], sep));
  }

  lemma LastBehindOne(x: string, parts: seq<string>)
    requires parts != []
    ensures Last([x] + parts) == Last(parts)
  {
  }

  function Last(parts: seq<string>): string
    requires parts != []
  {
    parts[|parts| - 1]
  }

  lemma FirstAt(s: string, sep: string, k: nat)
    requires OccursAt(s, sep, k) && forall j: nat :: j < k ==> !OccursAt(s, sep, j)
    ensures Index(s, sep) == k
  {
  }

  lemma SplitFirst(a: string, sep: string, b: string)
    requires sep != "" && NoStart(a, sep + b, sep)
    ensures Split(a + (sep + b), sep) == [a] + Split(b, sep)
  {
    var s := a + (sep + b);
    SepOccurs(a, sep, b);
    FirstAt(s, sep, |a|);
    SplitAt(s, sep, |a|);
    assert s[..|a|] == a;
  }

  lemma SepOccurs(a: string, sep: string, b: string)
    ensures OccursAt(a + (sep + b), sep, |a|) && (a + (sep + b))[|a| + |sep|..] == b
  {
    assert (a + (sep + b))[|a|..|a| + |sep|] == sep;
  }

  /** A separator whose first character does not come again in it cannot overlap itself. */
  predicate Marked(sep: string) {
    sep != "" && forall i :: 0 < i < |sep| ==> sep[i] != sep[0]
  }

  lemma NoOverlap(s: string, sep: string, i: nat, j: nat)
    requires Marked(sep) && OccursAt(s, sep, i) && OccursAt(s, sep, j) && i < j
    ensures i + |sep| <= j
  {
    OccursPoint(s, sep, j, 0);
    if j < i + |sep| {
      OccursPoint(s, sep, i, j - i);
    }
  }

  lemma OccursShift(s: string, sep: string, from: nat, k: nat)
    requires from <= k && OccursAt(s, sep, k)
    ensures OccursAt(s[from..], sep, k - from)
    ensures s[from..][k - from + |sep|..] == s[k + |sep|..]
  {
    assert s[from..][k - from..k - from + |sep|] == s[k..k + |sep|];
  }

  /** What comes before a separator has no influence on the last part. */
  lemma {:induction false} LastBehind(s: string, sep: string, k: nat, t: string)
    requires Marked(sep) && OccursAt(s, sep, k) && s[k + |sep|..] == t
    ensures Last(Split(s, sep)) == Last(Split(t, sep))
    decreases k
  {
    var next := SkipPart(s, sep, k);
    if next <= k {
      OccursShift(s, sep, next, k);
      LastBehind(s[next..], sep, k - next, t);
    }
  }

  lemma SkipPart(s: string, sep: string, k: nat) returns (next: nat)
    requires Marked(sep) && OccursAt(s, sep, k)
    ensures 0 < next <= |s| && (next <= k || next == k + |sep|)
    ensures Last(Split(s, sep)) == Last(Split(s[next..], sep))
  {
    var i := LeftmostBefore(s, sep, k);
    SplitAtLast(s, sep, i);
    return i + |sep|;
  }

  lemma LeftmostBefore(s: string, sep: string, k: nat) returns (i: nat)
    requires Marked(sep) && OccursAt(s, sep, k)
    ensures i == Index(s, sep) && OccursAt(s, sep, i) && (i == k || i + |sep| <= k)
  {
    i := Index(s, sep);
    if i < k {
      NoOverlap(s, sep, i, k);
    }
  }

  lemma {:induction false} SplitCount(s: string, sep: string)
    requires sep != ""
    ensures |Split(s, sep)| == 1 <==> !Contains(s, sep)
    ensures !Contains(s, sep) ==> Split(s, sep) == [s]
    ensures forall i :: 0 <= i < |Split(s, sep)| ==> |Split(s, sep)[i]| <= |s|
    ensures Contains(s, sep) ==> |Last(Split(s, sep))| < |s|
    decreases |s|
  {
    var i := Index(s, sep);
    if i >= 0 {
      SplitAt(s, sep, i);
      SplitCount(s[i + |sep|..], sep);
    }
  }

  lemma NotPrefix(s: string, p: string)
    requires s != "" && p != "" && s[0] != p[0]
    ensures !HasPrefix(s, p)
  {
    assert |p| <= |s| ==> s[..|p|][0] == s[0];
  }

  lemma {:induction false} ReplaceNone(s: string, from: string, to: string)
    requires from != "" && from[0] !in s
    ensures ReplaceAll(s, from, to) == s
  {
    if s != "" {
      assert s[0] in s;
      NotPrefix(s, from);
      assert from[0] !in s[1..];
      ReplaceNone(s[1..], from, to);
    }
  }

  lemma {:induction false} ReplaceLast(a: string, from: string)
    requires from != "" && from[0] !in a
    ensures ReplaceAll(a + from, from, "") == a
    decreases |a|
  {
    if a == "" {
      assert a + from == from && from[|from|..] == "";
    } else {
      var s := a + from;
      assert s[0] == a[0] && s[1..] == a[1..] + from && a[0] in a;
      NotPrefix(s, from);
      assert from[0] !in a[1..];
      ReplaceLast(a[1..], from);
    }
  }

  // ---------- round trips ----------

  /** Both printed forms give their code and the rest of the text back. */
  lemma ParsePrinted(codes: map<Int, Error>, code: Int, tail: string)
    requires code in codes
    ensures
      ParseError(codes, Head(code) + tail) ==
      Error(code, Split(tail, ", msg = ")[0], [], Contains(Head(code) + tail, LABEL))
  {
    SplitPrinted(code, tail);
    CodeIsRead(code);
    assert (["code = " + Itoa(code)] + Split(tail, ", msg = "))[1] == Split(tail, ", msg = ")[0];
  }

  lemma SplitPrinted(code: Int, tail: string)
    ensures Split(Head(code) + tail, ", msg = ") == ["code = " + Itoa(code)] + Split(tail, ", msg = ")
  {
    var n, sep := Itoa(code), ", msg = ";
    var a := "code = " + n;
    AtoiItoa(code);
    NotAmong(',', "code = ", n, "");
    assert a + "" == a && a + "" + ("" + sep) + tail == Head(code) + tail;
    NoStartIf(a, sep + tail, sep);
    SplitFirst(a, sep, tail);
    Regroup("code = ", n, "", sep, tail);
  }

  lemma CodeIsRead(code: Int)
    ensures Atoi(ReplaceAll("code = " + Itoa(code), "code = ", "")) == (code, true)
  {
    AtoiItoa(code);
    ReplaceNone(Itoa(code), "code = ", "");
    ReplaceFirst("code = ", Itoa(code));
  }

  /** The code survives `Err`, unless message or details show the label; then it comes back as an
      HTTP status. */
  lemma ErrCode(codes: map<Int, Error>, toHTTP: Int -> Int, e: Error, msg: seq<string>)
    requires e.code in codes
    ensures
      GetErrorCode(codes, toHTTP, Err(e, msg)) ==
      if Contains(Message(e, msg), LABEL) || (e.details != [] && Contains(Bracketed(e.details), LABEL))
      then toHTTP(e.code) else e.code
  {
    ParsePrinted(codes, e.code, Tail(e, msg));
    HeadHasNoLabel(e.code, Tail(e, msg));
    var m, b := Message(e, msg), Bracketed(e.details);
    assert m + "" == m;
    LabelInDetails(m, b);
  }

  lemma LabelInDetails(m: string, b: string)
    ensures Contains(m + (", details = " + b), LABEL) <==> Contains(m, LABEL) || Contains(b, LABEL)
  {
    var gap := " details = ";
    assert ", details = " + b == [','] + (gap + b);
    ContainsApart(m, ',', gap + b, LABEL);
    NoStartIf(gap, b, LABEL);
    ContainsBehind(gap, b, LABEL);
  }

  lemma HeadHasNoLabel(code: Int, tail: string)
    ensures Contains(Head(code) + tail, LABEL) <==> Contains(tail, LABEL)
  {
    BracketFree(code);
    NoStartIf(Head(code), tail, LABEL);
    ContainsBehind(Head(code), tail, LABEL);
  }

  lemma BracketFree(code: Int)
    ensures LABEL[0] !in Head(code)
  {
    AtoiItoa(code);
    assert '[' !in "code = " && '[' !in ", msg = ";
  }

  /** `ErrToHTTP` always comes back as an HTTP status. */
  lemma ErrToHTTPCode(codes: map<Int, Error>, toHTTP: Int -> Int, e: Error, msg: seq<string>)
    requires e.code in codes
    ensures GetErrorCode(codes, toHTTP, ErrToHTTP(e, msg)) == toHTTP(e.code)
  {
    var tail := TailToHTTP(e, msg);
    ParsePrinted(codes, e.code, tail);
    HeadHasNoLabel(e.code, tail);
    ContainsEnd(Message(e, msg) + (if e.details == [] then "" else ", details = " + Join(e.details, ", ")), LABEL);
  }

  lemma ContainsEnd(x: string, sub: string)
    ensures Contains(x + sub, sub)
  {
    assert (x + sub)[|x|..|x| + |sub|] == sub;
    assert OccursAt(x + sub, sub, |x|);
  }

  /** Details can spell the label although no detail contains it. */
  lemma DetailsSpellLabel()
    ensures Contains(Bracketed(["standard http", "code"]), LABEL)
  {
    var d := ["standard http", "code"];
    assert d[1..] == ["code"];
    assert Join(d, " ") == "standard http" + " " + "code";
    assert Bracketed(d) == LABEL;
    assert OccursAt(LABEL, LABEL, 0);
  }

  lemma {:induction false} FirstPart(t: string, m: string, sep: string)
    requires sep != "" && m <= t
    requires t != m ==> !OccursAt(t, sep, |m|)
    ensures Split(t, sep)[0] == m <==> t == m && !Contains(m, sep)
  {
    var i := Index(t, sep);
    SplitCount(t, sep);
    if i >= 0 {
      SplitAt(t, sep, i);
      assert |t[..i]| == i;
    }
  }

  /** The message survives `Err` exactly if there are no details, which are taken for a part of it,
      and it does not contain the separator itself. */
  lemma ErrMessageIff(codes: map<Int, Error>, e: Error, msg: seq<string>)
    requires e.code in codes
    ensures
      ParseError(codes, Err(e, msg)).msg == Message(e, msg)
      <==> e.details == [] && !Contains(Message(e, msg), ", msg = ")
  {
    var m, t, sep := Message(e, msg), Tail(e, msg), ", msg = ";
    ParsePrinted(codes, e.code, t);
    assert m + "" == m;
    if e.details != [] {
      assert t[|m| + 2] == 'd';
      Mismatch(t, sep, |m|, 2);
    }
    FirstPart(t, m, sep);
  }

  /** `ErrToHTTP` leaves its label in the message: at best message and label are read together. */
  lemma LabelStays(codes: map<Int, Error>, e: Error, msg: seq<string>)
    requires e.code in codes
    ensures ParseError(codes, ErrToHTTP(e, msg)).msg != Message(e, msg)
    ensures
      ParseError(codes, ErrToHTTP(e, msg)).msg == Message(e, msg) + LABEL
      <==> e.details == [] && !Contains(Message(e, msg), ", msg = ")
  {
    var m, sep := Message(e, msg), ", msg = ";
    ParsePrinted(codes, e.code, TailToHTTP(e, msg));
    if e.details == [] {
      assert m + "" == m;
      BareLabel(m);
    } else {
      LabelBehindDetails(m, Join(e.details, ", "));
    }
  }

  lemma BareLabel(m: string)
    ensures Split(m + LABEL, ", msg = ")[0] != m
    ensures Split(m + LABEL, ", msg = ")[0] == m + LABEL <==> !Contains(m, ", msg = ")
  {
    var t, sep := m + LABEL, ", msg = ";
    assert t[|m|] == '[';
    Mismatch(t, sep, |m|, 0);
    FirstPart(t, m, sep);
    FirstPart(t, t, sep);
    LabelHasNoSep(m);
  }

  lemma LabelHasNoSep(m: string)
    ensures Contains(m + LABEL, ", msg = ") <==> Contains(m, ", msg = ")
  {
    var sep, rest := ", msg = ", LABEL[1..];
    assert m + LABEL == m + (['['] + rest);
    ContainsApart(m, '[', rest, sep);
    if Contains(rest, sep) { ContainsFirst(rest, sep); }
  }

  lemma LabelBehindDetails(m: string, d: string)
    ensures Split(m + (", details = " + d) + LABEL, ", msg = ")[0] != m
    ensures Split(m + (", details = " + d) + LABEL, ", msg = ")[0] != m + LABEL
  {
    var t, sep := m + (", details = " + d) + LABEL, ", msg = ";
    assert t[|m|] == ',' && t[|m| + 2] == 'd' && m <= t;
    Mismatch(t, sep, |m|, 2);
    FirstPart(t, m, sep);
    FirstIsPrefix(t, sep);
    assert (m + LABEL)[|m|] == '[';
  }

  lemma FirstIsPrefix(t: string, sep: string)
    requires sep != ""
    ensures Split(t, sep)[0] <= t
  {
    if Contains(t, sep) {
      SplitAt(t, sep, Index(t, sep));
    }
  }

  lemma ContainsFirst(s: string, sub: string)
    requires sub != "" && Contains(s, sub)
    ensures sub[0] in s
  {
    OccursPoint(s, sub, Index(s, sub), 0);
  }

  /** A status text, whatever stands before its last description, gives code and message back
      exactly if the message contains neither of the two separators. */
  lemma StatusTextIff(before: string, code: Int, m: string)
    ensures
      var text := before + ("desc = " + (Head(code) + m));
      ParseCodeAndMsg(text) == (code, m) <==> !Contains(m, "desc = ") && !Contains(m, "msg = ")
  {
    var t, sep := Head(code) + m, "desc = ";
    SepOccurs(before, sep, t);
    LastDescription(before + (sep + t), t, |before|);
    StatusPart(before + (sep + t), code, m);
  }

  /** Of a status text only what follows the last "desc = " is read. */
  lemma LastDescription(text: string, t: string, k: nat)
    requires OccursAt(text, "desc = ", k) && text[k + |"desc = "|..] == t
    ensures ParseCodeAndMsg(text) == FromParts(text, Split(Last(Split(t, "desc = ")), "msg = "))
  {
    LastBehind(text, "desc = ", k, t);
    StatusIs(text, Last(Split(t, "desc = ")));
  }

  lemma StatusIs(text: string, part: string)
    requires text != "" && Last(Split(text, "desc = ")) == part
    ensures ParseCodeAndMsg(text) == FromParts(text, Split(part, "msg = "))
  {
  }

  lemma StatusPart(text: string, code: Int, m: string)
    requires |text| > |m|
    ensures
      FromParts(text, Split(Last(Split(Head(code) + m, "desc = ")), "msg = ")) == (code, m)
      <==> !Contains(m, "desc = ") && !Contains(m, "msg = ")
  {
    HeadHasNoDesc(code, m);
    if Contains(m, "desc = ") {
      LastOfTail(Head(code), m, "desc = ");
      StatusTangled(text, code, m);
    } else {
      SplitCount(Head(code) + m, "desc = ");
      StatusPlain(text, code, m);
    }
  }

  lemma StatusPlain(text: string, code: Int, m: string)
    requires |text| > |m|
    ensures FromParts(text, Split(Head(code) + m, "msg = ")) == (code, m) <==> !Contains(m, "msg = ")
  {
    SplitHead(code, m);
    CodeOfHead(code);
    SplitCount(m, "msg = ");
    OneIsWhole(text, m, code, "code = " + Itoa(code) + ", ", Split(m, "msg = "));
  }

  lemma StatusTangled(text: string, code: Int, m: string)
    requires |text| > |m| && Contains(m, "desc = ")
    ensures FromParts(text, Split(Last(Split(m, "desc = ")), "msg = ")) != (code, m)
  {
    TangledPart(text, m, "desc = ", "msg = ", code);
  }

  lemma TangledPart(text: string, m: string, sep: string, sep2: string, code: Int)
    requires |text| > |m| && sep != "" && sep2 != "" && Contains(m, sep)
    ensures FromParts(text, Split(Last(Split(m, sep)), sep2)) != (code, m)
  {
    SplitCount(m, sep);
    ShorterParts(text, m, Last(Split(m, sep)), sep2);
  }

  lemma ShorterParts(text: string, m: string, last: string, sep2: string)
    requires |text| > |m| > |last| && sep2 != ""
    ensures FromParts(text, Split(last, sep2)).1 != m
  {
    SplitCount(last, sep2);
    NoneIsWhole(text, m, Split(last, sep2));
  }

  lemma OneIsWhole(text: string, m: string, code: Int, head: string, parts: seq<string>)
    requires |text| > |m| && Atoi(CodeText(head)) == (code, true)
    requires parts != [] && (|parts| == 1 ==> parts == [m])
    ensures FromParts(text, [head] + parts) == (code, m) <==> |parts| == 1
  {
  }

  lemma NoneIsWhole(text: string, m: string, parts: seq<string>)
    requires |text| > |m| && forall i :: 0 <= i < |parts| ==> |parts[i]| < |m|
    ensures FromParts(text, parts).1 != m
  {
  }

  /** The third character is the only 'd', and the fifth a space. */
  predicate OneD(h: string) {
    |h| > 4 && h[4] == ' ' && forall k :: 0 <= k < |h| && k != 2 ==> h[k] != 'd'
  }

  lemma OneDStays(x: string, y: string)
    requires OneD(x) && 'd' !in y
    ensures OneD(x + y)
  {}

  lemma HeadChars(code: Int)
    ensures OneD(Head(code))
  {
    var n := Itoa(code);
    AtoiItoa(code);
    OneDStays("code = ", n);
    OneDStays("code = " + n, ", msg = ");
  }

  lemma HeadHasNoDesc(code: Int, m: string)
    ensures NoStart(Head(code), m, "desc = ")
    ensures Contains(Head(code) + m, "desc = ") <==> Contains(m, "desc = ")
  {
    HeadChars(code);
    OneCandidate(Head(code), m, "desc = ");
    ContainsBehind(Head(code), m, "desc = ");
  }

  /** The only place in `h` where the text could start is ruled out by its third character. */
  lemma OneCandidate(h: string, m: string, sub: string)
    requires |sub| > 2 && |h| > 4 && h[4] != sub[2]
    requires forall k :: 0 <= k < |h| && k != 2 ==> h[k] != sub[0]
    ensures NoStart(h, m, sub)
  {
    Mismatch(h + m, sub, 2, 2);
    forall k: nat | k < |h| && k != 2
      ensures !OccursAt(h + m, sub, k)
    {
      Mismatch(h + m, sub, k, 0);
    }
  }

  /** If `m` contains the separator and nothing starts before it, the last part lies in `m`. */
  lemma LastOfTail(h: string, m: string, sep: string)
    requires sep != "" && Contains(m, sep) && NoStart(h, m, sep)
    ensures Last(Split(h + m, sep)) == Last(Split(m, sep))
  {
    var i := Index(m, sep);
    IndexBehind(h, m, sep);
    TailSlice(h, m, i + |sep|);
    SameLast(h + m, |h| + i, m, i, sep);
  }

  lemma SameLast(s: string, i: nat, t: string, j: nat, sep: string)
    requires sep != "" && Index(s, sep) == i && Index(t, sep) == j && s[i + |sep|..] == t[j + |sep|..]
    ensures Last(Split(s, sep)) == Last(Split(t, sep))
  {
    SplitAtLast(s, sep, i);
    SplitAtLast(t, sep, j);
  }

  lemma TailSlice(h: string, m: string, j: nat)
    requires j <= |m|
    ensures (h + m)[|h| + j..] == m[j..]
  {
  }

  lemma IndexBehind(h: string, m: string, sep: string)
    requires sep != "" && Contains(m, sep) && NoStart(h, m, sep)
    ensures Index(h + m, sep) == |h| + Index(m, sep)
  {
    OccursBehind(h, m, sep, Index(m, sep));
    OccursBehind(h, m, sep, Index(h + m, sep) - |h|);
  }

  /** The printed text splits at its own "msg = " before anything in the message. */
  lemma SplitHead(code: Int, m: string)
    ensures Split(Head(code) + m, "msg = ") == ["code = " + Itoa(code) + ", "] + Split(m, "msg = ")
  {
    var n, sep := Itoa(code), "msg = ";
    var a := "code = " + n + ", ";
    AtoiItoa(code);
    NotAmong('m', "code = ", n, ", ");
    NoStartIf(a, sep + m, sep);
    SplitFirst(a, sep, m);
    HeadRegroup(code, m);
  }

  lemma HeadRegroup(code: Int, m: string)
    ensures Head(code) + m == ("code = " + Itoa(code) + ", ") + ("msg = " + m)
  {
    Regroup("code = ", Itoa(code), ", ", "msg = ", m);
    assert ", msg = " == ", " + "msg = ";
  }

  lemma NotAmong(c: char, x: string, y: string, z: string)
    requires c !in x && c !in y && c !in z
    ensures c !in x + y + z
  {
  }

  lemma Regroup(x: string, y: string, z: string, sep: string, m: string)
    ensures (x + y + (z + sep)) + m == (x + y + z) + (sep + m)
  {
  }

  lemma CodeOfHead(code: Int)
    ensures Atoi(CodeText("code = " + Itoa(code) + ", ")) == (code, true)
  {
    var n := Itoa(code);
    AtoiItoa(code);
    Stripped("code = ", n, ", ");
  }

  lemma Stripped(name: string, n: string, comma: string)
    requires name != "" && name[0] !in n && name[0] !in comma && comma != "" && comma[0] !in n
    ensures ReplaceAll(ReplaceAll(name + n + comma, name, ""), comma, "") == n
  {
    var rest := n + comma;
    ReplaceNone(rest, name, "");
    ReplaceFirst(name, rest);
    assert name + rest == name + n + comma;
    ReplaceLast(n, comma);
  }

  lemma ReplaceFirst(from: string, rest: string)
    requires from != ""
    ensures ReplaceAll(from + rest, from, "") == ReplaceAll(rest, from, "")
  {
    var s := from + rest;
    assert s[..|from|] == from && s[|from|..] == rest;
    assert "" + ReplaceAll(rest, from, "") == ReplaceAll(rest, from, "");
  }

  // ---------- the printed text, and text that is none ----------

  /** What is printed, with `m` the message of the error or the given ones in its place. */
  lemma PrintedText(e: Error, msg: seq<string>, m: string)
    requires m == if |msg| == 0 then e.msg else if |msg| == 1 then msg[0] else Join(msg, ", ")
    ensures Err(e, msg) == "code = " + Itoa(e.code) + ", msg = " + Shown(m, e.details, ", details = [", " ", "]")
    ensures ErrToHTTP(e, msg) == "code = " + Itoa(e.code) + ", msg = "
                                 + (Shown(m, e.details, ", details = ", ", ", "") + "[standard http code]")
  {
    PrintedTail(e, msg, m);
  }

  lemma PrintedTail(e: Error, msg: seq<string>, m: string)
    requires m == if |msg| == 0 then e.msg else if |msg| == 1 then msg[0] else Join(msg, ", ")
    ensures Tail(e, msg) == Shown(m, e.details, ", details = [", " ", "]")
    ensures TailToHTTP(e, msg) == Shown(m, e.details, ", details = ", ", ", "") + LABEL
  {
    assert m + "" == m && m == Message(e, msg);
    if e.details != [] {
      InBrackets(m, ", details = ", Join(e.details, " "));
      assert ", details = " + "[" == ", details = [";
      Bare(m, ", details = ", Join(e.details, ", "));
    }
  }

  lemma InBrackets(m: string, a: string, d: string)
    ensures m + (a + ("[" + d + "]")) == m + (a + "[") + d + "]"
  {}

  lemma Bare(m: string, a: string, d: string)
    ensures m + (a + d) == m + a + d + ""
  {}

  function Shown(m: string, details: seq<string>, open: string, sep: string, close: string): string {
    if details == [] then m else m + open + Join(details, sep) + close
  }

  /** A printed code that nobody has registered is read as -1. */
  lemma Unregistered(codes: map<Int, Error>, toHTTP: Int -> Int, e: Error, msg: seq<string>)
    requires e.code !in codes
    ensures GetErrorCode(codes, toHTTP, Err(e, msg)) == -1 == GetErrorCode(codes, toHTTP, ErrToHTTP(e, msg))
    ensures ParseError(codes, Err(e, msg)).msg == "unknown error"
  {
    SplitPrinted(e.code, Tail(e, msg));
    SplitPrinted(e.code, TailToHTTP(e, msg));
    CodeIsRead(e.code);
  }

  /** A code without a message is the registered error, or none. */
  lemma BareCode(codes: map<Int, Error>, code: Int)
    ensures
      var e := ParseError(codes, "code = " + Itoa(code));
      if code in codes then e == codes[code] else e.code == -1 && !e.needHTTPCode
  {
    var text, n := "code = " + Itoa(code), Itoa(code);
    AtoiItoa(code);
    NotAmong(',', "code = ", n, "");
    assert text + "" == text;
    if Contains(text, ", msg = ") { ContainsFirst(text, ", msg = "); }
    CodeIsRead(code);
  }

  /** Text without a digit is no error code. */
  lemma NoDigitNoCode(codes: map<Int, Error>, toHTTP: Int -> Int, text: string)
    requires forall c <- text :: !Digit(c)
    ensures GetErrorCode(codes, toHTTP, text) == -1
  {
    var first := Split(text, ", msg = ")[0];
    FirstIsPrefix(text, ", msg = ");
    var t := ReplaceAll(first, "code = ", "");
    forall c | c in first
      ensures !Digit(c)
    {
      var i :| 0 <= i < |first| && first[i] == c;
      assert text[i] == c;
    }
    Removing(first, "code = ");
    NoNumber(t);
  }

  lemma {:induction false} Removing(s: string, from: string)
    requires from != ""
    ensures forall c <- ReplaceAll(s, from, "") :: c in s
    decreases |s|
  {
    if s != "" {
      if HasPrefix(s, from) {
        Removing(s[|from|..], from);
        assert "" + ReplaceAll(s[|from|..], from, "") == ReplaceAll(s[|from|..], from, "");
      } else {
        Removing(s[1..], from);
      }
    }
  }

  lemma NoNumber(t: string)
    requires forall c <- t :: !Digit(c)
    ensures !Atoi(t).1
  {
    var signed := t != "" && (t[0] == '-' || t[0] == '+');
    var u := if signed then t[1..] else t;
    if u != "" { assert u[0] == t[if signed then 1 else 0]; }
  }

  predicate EndsFrom(s: string, k: nat, x: string) {
    k <= |s| && s[k..] == x
  }

  lemma EndsFurther(s: string, n: nat, j: nat, x: string)
    requires n <= |s| && EndsFrom(s[n..], j, x)
    ensures EndsFrom(s, n + j, x)
  {
    assert s[n..][j..] == s[n + j..];
  }

  predicate LastPart(s: string, sep: string, x: string) {
    sep != "" && Last(Split(s, sep)) == x
  }

  lemma OnlyPart(s: string, sep: string, x: string)
    requires LastPart(s, sep, x) && !Contains(s, sep)
    ensures x == s
  {}

  lemma LastPartBehind(s: string, sep: string, x: string) returns (n: nat)
    requires LastPart(s, sep, x) && Contains(s, sep)
    ensures 0 < n <= |s| && LastPart(s[n..], sep, x)
  {
    n := Index(s, sep) + |sep|;
    SplitAtLast(s, sep, Index(s, sep));
  }

  lemma {:induction false} LastIsSuffix(s: string, sep: string, x: string) returns (k: nat)
    requires LastPart(s, sep, x)
    ensures EndsFrom(s, k, x)
    decreases |s|
  {
    if Contains(s, sep) {
      var n := LastPartBehind(s, sep, x);
      var j := LastIsSuffix(s[n..], sep, x);
      EndsFurther(s, n, j, x);
      k := n + j;
    } else {
      OnlyPart(s, sep, x);
      k := 0;
    }
  }

  /** A status text without a message is handed back whole, with the code -1. */
  lemma StatusWithout(text: string)
    requires !Contains(text, "msg = ")
    ensures ParseCodeAndMsg(text) == (-1, text)
  {
    var part := Last(Split(text, "desc = "));
    var k := LastIsSuffix(text, "desc = ", part);
    if Contains(part, "msg = ") {
      var i := Index(part, "msg = ");
      assert text == text[..k] + part;
      OccursBehind(text[..k], part, "msg = ", i);
    }
  }
}
