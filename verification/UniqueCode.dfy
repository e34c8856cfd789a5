/** `NewCode` of pkg/id/code.go: a short code computed from a 64-bit number, with Go's 64-bit and
    8-bit wrap-around written out.  A decoder is given, and with it the exact condition under
    which two numbers share a code. */
module UniqueCode {
  import opened Wrappers
  import opened Numbers

  const TWO_64: nat := 0x1_0000_0000_0000_0000

  /** `CodeOptions`.  The option setters never store an empty alphabet or a length below one. */
  datatype Options = Options(chars: seq<char>, n1: int, n2: int, l: int, salt: nat) {
    predicate Valid() {
      |chars| >= 1 && l >= 1 && salt < TWO_64
    }
  }

  function ToUint64(n: int): nat {
    n % TWO_64
  }

  function ToByte(n: int): nat {
    n % 256
  }

  // ---------- what NewCode computes ----------

  function Enlarge(id: nat, o: Options): nat {
    (id * ToUint64(o.n1) + o.salt) % TWO_64
  }

  /** One entry of `slIdx`, in byte arithmetic; `x0` is entry 0. */
  function Mix(x: nat, i: nat, x0: nat, c: nat): (r: nat)
    requires ToByte(c) > 0
    ensures r < ToByte(c) <= c
  {
    ByteBelow(c);
    ((ToByte(x) + ToByte(ToByte(i) * x0)) % 256) % ToByte(c)
  }

  lemma ByteBelow(c: nat)
    ensures ToByte(c) <= c
  {
  }

  /** `slIdx` after the first loop, from the base-`c` digits of the enlarged number. */
  function Diffuse(d: seq<nat>, c: nat): (r: seq<nat>)
    requires ToByte(c) > 0
    ensures |r| == |d| && InBase(r, c)
  {
    seq(|d|, i requires 0 <= i < |d| => Mix(d[i], i, Mix(d[0], 0, 0, c), c))
  }

  /** The entry of `slIdx` that becomes character `i` of the code. */
  function Source(i: nat, o: Options): (j: nat)
    requires o.Valid() && ToByte(o.l) > 0
    ensures j < o.l
  {
    ByteBelow(o.l);
    ToByte(ToByte(i) * ToByte(o.n2)) % ToByte(o.l)
  }

  function Spell(d: seq<nat>, o: Options): (code: string)
    requires o.Valid() && ToByte(o.l) > 0 && ToByte(|o.chars|) > 0 && |d| == o.l
    ensures |code| == o.l && forall i :: 0 <= i < |code| ==> code[i] in o.chars
  {
    var s := Diffuse(d, |o.chars|);
    seq(o.l, i requires 0 <= i < o.l => o.chars[s[Source(i, o)]])
  }

  /** `None` is the run-time panic of a division by a byte that has wrapped to zero. */
  function Code(id: nat, o: Options): Option<string>
    requires o.Valid()
  {
    if ToByte(|o.chars|) == 0 || ToByte(o.l) == 0 then None
    else Some(Spell(Digits(Enlarge(id, o), |o.chars|, o.l), o))
  }

  lemma MixFirst(x: nat, y: nat, z: nat, c: nat)
    requires ToByte(c) > 0
    ensures Mix(x, 0, y, c) == Mix(x, 0, z, c)
  {
    assert ToByte(0) * y == 0 == ToByte(0) * z;
  }

  /** What the digit loop has to have written when it reaches entry `i`. */
  ghost predicate Filled(slIdx: seq<nat>, d: seq<nat>, c: nat, i: nat)
    requires ToByte(c) > 0
  {
    i <= |slIdx| == |d| && forall j :: 0 <= j < i ==> slIdx[j] == Diffuse(d, c)[j]
  }

  lemma FillNext(slIdx: seq<nat>, d: seq<nat>, c: nat, i: nat, x0: nat)
    requires ToByte(c) > 0 && Filled(slIdx, d, c, i) && i < |d|
    requires i > 0 ==> x0 == slIdx[0]
    ensures Filled(slIdx[i := Mix(d[i], i, x0, c)], d, c, i + 1)
  {
    if i == 0 {
      MixFirst(d[0], x0, Mix(d[0], 0, 0, c), c);
    } else {
      MixFirst(d[0], 0, Mix(d[0], 0, 0, c), c);
    }
  }

  lemma NextDigit(d: seq<nat>, id: nat, c: nat, l: nat, i: nat)
    requires c > 0 && i < l == |d| && d[i..] == Digits(id, c, l - i)
    ensures d[i] == id % c && id / c >= 0 && d[i + 1..] == Digits(id / c, c, l - i - 1)
  {
    assert d[i..][0] == d[i] && d[i..][1..] == d[i + 1..];
  }

  method NewCode(id0: nat, o: Options) returns (r: Option<string>)
    requires o.Valid() && id0 < TWO_64
    ensures r == Code(id0, o)
  {
    var id: nat := Enlarge(id0, o);
    var c := |o.chars|;
    if ToByte(c) == 0 {
      return None;
    }
    ghost var d := Digits(id, c, o.l);
    var slIdx := new nat[o.l](_ => 0);
    for i := 0 to o.l
      invariant d[i..] == Digits(id, c, o.l - i)
      invariant Filled(slIdx[..], d, c, i)
    {
      ghost var was := slIdx[..];
      NextDigit(d, id, c, o.l, i);
      slIdx[i] := ToByte(id % c);
      ghost var x0 := slIdx[0];
      slIdx[i] := ((slIdx[i] + ToByte(ToByte(i) * slIdx[0])) % 256) % ToByte(c);
      FillNext(was, d, c, i, x0);
      assert slIdx[..] == was[i := Mix(d[i], i, x0, c)];
      id := id / c;
    }
    if ToByte(o.l) == 0 {
      return None;
    }
    assert slIdx[..] == Diffuse(d, c);
    ghost var spelled := Spell(d, o);
    var code: string := [];
    for i := 0 to o.l
      invariant code == spelled[..i]
    {
      var idx := ToByte(ToByte(i) * ToByte(o.n2)) % ToByte(o.l);
      assert idx == Source(i, o);
      code := code + [o.chars[slIdx[idx]]];
    }
    assert spelled[..o.l] == spelled;
    return Some(code);
  }

  // ---------- which settings spell without loss ----------

  predicate Distinct(chars: seq<char>) {
    forall i, j :: 0 <= i < j < |chars| ==> chars[i] != chars[j]
  }

  /** The byte addition of the diffusion step does no harm: it cannot overflow, or the overflow is a
      multiple of the number of characters. */
  predicate CarryFree(c: nat, l: nat) {
    c > 0 && (256 % c == 0 || l * (c - 1) <= 255)
  }

  predicate SourcesDistinct(o: Options)
    requires o.Valid() && ToByte(o.l) > 0
  {
    forall i, j :: 0 <= i < j < o.l ==> Source(i, o) != Source(j, o)
  }

  predicate NoPanic(o: Options) {
    o.Valid() && ToByte(|o.chars|) > 0 && ToByte(o.l) > 0
  }

  /** Exactly the settings under which different digits are spelled differently, see
      `SpellInjectiveIff`. */
  predicate Readable(o: Options) {
    var c := |o.chars|;
    && NoPanic(o)
    && (c == 1 || (c <= 255 && Distinct(o.chars) && CarryFree(c, o.l) && SourcesDistinct(o)))
  }

  function Abs(x: int): nat {
    if x < 0 then -x else x
  }

  /** A multiplier without a common divisor with the number of characters. */
  predicate Coprime(o: Options) {
    Gcd(Abs(o.n1), |o.chars|) == 1
  }

  /** Exactly the settings under which as many numbers as there are codes get different ones, see
      `CodesUniqueIff`. */
  predicate Sound(o: Options) {
    Readable(o) && Coprime(o)
  }

  /** How many codes there are. */
  function Count(o: Options): (m: nat)
    requires o.Valid()
    ensures m > 0
  {
    Pow(|o.chars|, o.l)
  }

  // ---------- the diffusion step can be undone ----------

  function Undiffuse(s: seq<nat>, c: nat): (d: seq<nat>)
    requires c > 0
    ensures |d| == |s| && InBase(d, c)
  {
    seq(|s|, i requires 0 <= i < |s| => ((if i == 0 then s[0] else s[i] - ToByte(i) * s[0]) % c) as nat)
  }

  lemma NoOverflow(x: nat, i: nat, x0: nat, c: nat, l: nat)
    requires x < c && x0 < c && i < l && l * (c - 1) <= 255
    ensures x + i * x0 <= 255
  {
    MulMonotone(i, l - 1, x0);
    MulMonotone(x0, c - 1, l - 1);
    assert (l - 1) * (c - 1) == l * (c - 1) - (c - 1);
  }

  lemma ByteSmall(x: nat)
    requires x <= 255
    ensures ToByte(x) == x
  {
  }

  /** Reducing modulo 256 first does no harm for a divisor of 256. */
  lemma ModThroughByte(a: int, c: int)
    requires c > 0 && 256 % c == 0
    ensures (a % 256) % c == a % c
  {
    var q := a / 256;
    CongBy(a, a % 256, c, q * (256 / c));
    CongIffMod(a, a % 256, c);
  }

  lemma MixByDivisor(x: nat, i: nat, x0: nat, c: nat)
    requires 0 < c <= 255 && 256 % c == 0 && x < c && x0 < c
    ensures Mix(x, i, x0, c) == (x + ToByte(i) * x0) % c
  {
    var p := ToByte(i) * x0;
    MulSign(ToByte(i), x0 + 1);
    ByteSmall(x);
    ByteSmall(c);
    AddByte(x, p, c);
  }

  lemma AddByte(x: nat, p: nat, c: nat)
    requires c > 0 && 256 % c == 0
    ensures ((x + ToByte(p)) % 256) % c == (x + p) % c
  {
    var q := ToByte(p);
    ModThroughByte(x + q, c);
    ModThroughByte(p, c);
    ModOfMod(q, x, c);
    ModOfMod(p, x, c);
  }

  lemma MixWithoutOverflow(x: nat, i: nat, x0: nat, c: nat, l: nat)
    requires 0 < c <= 255 && x < c && x0 < c && i < l <= 255 && l * (c - 1) <= 255
    ensures Mix(x, i, x0, c) == (x + i * x0) % c
  {
    NoOverflow(x, i, x0, c, l);
    var p := i * x0;
    MulSign(i, x0 + 1);
    ByteSmall(x);
    ByteSmall(i);
    ByteSmall(c);
    ByteSmall(p);
    ByteSmall(x + p);
  }

  lemma MixClean(x: nat, i: nat, x0: nat, c: nat, l: nat)
    requires 0 < c <= 255 && x < c && x0 < c && i < l && CarryFree(c, l)
    ensures Mix(x, i, x0, c) == (x + ToByte(i) * x0) % c
  {
    if 256 % c == 0 {
      MixByDivisor(x, i, x0, c);
    } else {
      LengthFits(c, l);
      MixWithoutOverflow(x, i, x0, c, l);
      ByteSmall(i);
    }
  }

  lemma LengthFits(c: nat, l: nat)
    requires c > 1 && l * (c - 1) <= 255
    ensures l <= 255
  {
    MulMonotone(1, c - 1, l);
  }

  lemma MulMonotone(x: nat, y: nat, z: nat)
    requires x <= y
    ensures x * z <= y * z && z * x <= z * y
  {
  }

  lemma DiffuseClean(d: seq<nat>, c: nat, i: nat)
    requires 0 < c <= 255 && InBase(d, c) && CarryFree(c, |d|) && i < |d|
    ensures Diffuse(d, c)[i] == (d[i] + ToByte(i) * d[0]) % c
    ensures Diffuse(d, c)[0] == d[0]
  {
    MixClean(d[0], 0, 0, c, |d|);
    MixClean(d[0], 0, d[0], c, |d|);
    MixClean(d[i], i, d[0], c, |d|);
    DivModUnique(d[0], c, 0, d[0]);
    assert ToByte(0) == 0 && 0 * d[0] == 0;
  }

  lemma AddThenSubtract(x: int, y: int, c: int)
    requires c > 0 && 0 <= x < c
    ensures ((x + y) % c - y) % c == x
    ensures ((x - y) % c + y) % c == x
  {
    ModOfMod(x + y, -y, c);
    ModOfMod(x - y, y, c);
    DivModUnique(x, c, 0, x);
  }

  lemma ModOfMod(x: int, y: int, c: int)
    requires c > 0
    ensures (x % c + y) % c == (x + y) % c
  {
    CongMod(x, c);
    CongShift(x, x % c, c, y);
    CongIffMod(x + y, x % c + y, c);
  }

  lemma UndiffuseDiffuse(d: seq<nat>, c: nat)
    requires 0 < c <= 255 && InBase(d, c) && CarryFree(c, |d|)
    ensures Undiffuse(Diffuse(d, c), c) == d
  {
    var s := Diffuse(d, c);
    forall i | 0 <= i < |d|
      ensures Undiffuse(s, c)[i] == d[i]
    {
      DiffuseClean(d, c, i);
      UndiffuseAt(d[i], s[i], ToByte(i) * d[0], c);
      DivModUnique(d[0], c, 0, d[0]);
    }
  }

  lemma UndiffuseAt(x: nat, r: int, p: int, c: nat)
    requires x < c && r == (x + p) % c
    ensures (r - p) % c == x
  {
    AddThenSubtract(x, p, c);
  }

  lemma DiffuseUndiffuse(s: seq<nat>, c: nat)
    requires 0 < c <= 255 && InBase(s, c) && CarryFree(c, |s|)
    ensures Diffuse(Undiffuse(s, c), c) == s
  {
    var d := Undiffuse(s, c);
    forall i | 0 <= i < |s|
      ensures Diffuse(d, c)[i] == s[i]
    {
      DiffuseClean(d, c, i);
      DivModUnique(s[0], c, 0, s[0]);
      AddThenSubtract(s[i], ToByte(i) * s[0], c);
    }
  }

  // ---------- the confusion step ----------

  function Sources(o: Options): (s: seq<nat>)
    requires o.Valid() && ToByte(o.l) > 0
    ensures |s| == o.l && forall i :: 0 <= i < o.l ==> s[i] == Source(i, o) < o.l
  {
    seq(o.l, i requires 0 <= i < o.l => Source(i, o))
  }

  function SetOf(s: seq<nat>): set<nat> {
    set x | x in s
  }

  predicate NoRepeat(s: seq<nat>) {
    forall i, j :: 0 <= i < j < |s| ==> s[i] != s[j]
  }

  lemma {:induction false} SetSize(s: seq<nat>)
    ensures |SetOf(s)| <= |s| && (|SetOf(s)| == |s| <==> NoRepeat(s))
    decreases |s|
  {
    if s != [] {
      var t, x := s[..|s| - 1], s[|s| - 1];
      SetSize(t);
      assert s == t + [x];
      SetSnoc(t, x);
      RepeatSnoc(t, x);
    }
  }

  lemma SetSnoc(t: seq<nat>, x: nat)
    ensures SetOf(t + [x]) == SetOf(t) + {x} && (x in t <==> x in SetOf(t))
  {}

  lemma RepeatSnoc(t: seq<nat>, x: nat)
    ensures NoRepeat(t + [x]) <==> NoRepeat(t) && x !in t
  {
    var s := t + [x];
    if x in t {
      var i :| 0 <= i < |t| && t[i] == x;
      assert s[i] == s[|t|];
    } else if !NoRepeat(t) {
      var i, j :| 0 <= i < j < |t| && t[i] == t[j];
      assert s[i] == s[j];
    }
  }

  function Below(n: nat): (r: set<nat>)
    ensures |r| == n && forall x: nat :: x in r <==> x < n
  {
    if n == 0 then {} else Below(n - 1) + {n - 1}
  }

  lemma {:induction false} SubsetSize(a: set<nat>, b: set<nat>)
    requires a <= b
    ensures |a| <= |b| && (|a| == |b| ==> a == b)
    decreases |a|
  {
    if a != {} {
      var x :| x in a;
      SubsetSize(a - {x}, b - {x});
      assert a == (a - {x}) + {x} && b == (b - {x}) + {x};
    }
  }

  /** Numbers below their own number are without repetition exactly if they are all there. */
  lemma NoRepeatIffAll(s: seq<nat>)
    requires forall i :: 0 <= i < |s| ==> s[i] < |s|
    ensures NoRepeat(s) <==> forall p: nat :: p < |s| ==> p in s
  {
    SetSize(s);
    SubsetSize(SetOf(s), Below(|s|));
    if NoRepeat(s) {
      forall p: nat | p < |s|
        ensures p in s
      {
        assert p in Below(|s|) && p in SetOf(s);
      }
    }
    if forall p: nat :: p < |s| ==> p in s {
      assert SetOf(s) == Below(|s|);
    }
  }

  lemma SamePlace(s: seq<nat>, i: nat, j: nat)
    requires NoRepeat(s) && i < |s| && j < |s| && s[i] == s[j]
    ensures i == j
  {
  }

  function Find(s: seq<nat>, p: nat): (i: nat)
    ensures p in s ==> i < |s| && s[i] == p
  {
    if s == [] || s[0] == p then 0 else 1 + Find(s[1..], p)
  }

  /** Where entry `p` of `slIdx` ends up in the code. */
  function Emitted(p: nat, o: Options): (i: nat)
    requires Readable(o) && p < o.l
    ensures i < o.l
  {
    var i := Find(Sources(o), p);
    if i < o.l then i else 0
  }

  lemma SourceIsPermutation(p: nat, o: Options)
    requires Readable(o) && SourcesDistinct(o) && p < o.l
    ensures Source(Emitted(p, o), o) == p
    ensures Emitted(Source(p, o), o) == p
  {
    var s := Sources(o);
    assert NoRepeat(s);
    NoRepeatIffAll(s);
    assert p in s && s[p] in s;
    SamePlace(s, Find(s, s[p]), p);
  }

  // ---------- reading a code back ----------

  function IndexOf(chars: seq<char>, x: char): (i: nat)
    requires x in chars
    ensures i < |chars| && chars[i] == x
  {
    if chars[0] == x then 0 else 1 + IndexOf(chars[1..], x)
  }

  predicate IsCode(code: string, o: Options) {
    |code| == o.l && forall i :: 0 <= i < |code| ==> code[i] in o.chars
  }

  function Scrambled(code: string, o: Options): (s: seq<nat>)
    requires Readable(o) && IsCode(code, o)
    ensures |s| == o.l && InBase(s, |o.chars|)
    ensures forall p :: 0 <= p < o.l ==> o.chars[s[p]] == code[Emitted(p, o)]
  {
    seq(o.l, p requires 0 <= p < o.l => IndexOf(o.chars, code[Emitted(p, o)]))
  }

  /** The digits a code was spelled from: undo the permutation, the alphabet and the diffusion. */
  function Read(code: string, o: Options): (d: seq<nat>)
    requires Readable(o) && IsCode(code, o)
    ensures |d| == o.l && InBase(d, |o.chars|)
  {
    Undiffuse(Scrambled(code, o), |o.chars|)
  }

  lemma ReadSpell(d: seq<nat>, o: Options)
    requires Readable(o) && |d| == o.l && InBase(d, |o.chars|)
    ensures Read(Spell(d, o), o) == d
  {
    if |o.chars| == 1 {
      AllZero(Read(Spell(d, o), o), d);
    } else {
      var code, s := Spell(d, o), Diffuse(d, |o.chars|);
      var t := Scrambled(code, o);
      forall p | 0 <= p < o.l
        ensures t[p] == s[p]
      {
        SourceIsPermutation(p, o);
        assert code[Emitted(p, o)] == o.chars[s[p]];
      }
      assert t == s;
      UndiffuseDiffuse(d, |o.chars|);
    }
  }

  lemma AllZero(d: seq<nat>, e: seq<nat>)
    requires |d| == |e| && InBase(d, 1) && InBase(e, 1)
    ensures d == e
  {
    assert forall i :: 0 <= i < |d| ==> d[i] == 0 == e[i];
  }

  lemma SpellRead(code: string, o: Options)
    requires Readable(o) && IsCode(code, o)
    ensures Spell(Read(code, o), o) == code
  {
    if |o.chars| > 1 {
      DiffuseUndiffuse(Scrambled(code, o), |o.chars|);
    }
    forall i | 0 <= i < o.l
      ensures Spell(Read(code, o), o)[i] == code[i]
    {
      if |o.chars| == 1 {
        assert code[i] == o.chars[0] == Spell(Read(code, o), o)[i];
      } else {
        SourceIsPermutation(i, o);
      }
    }
  }

  // ---------- and all others lose something ----------

  function Zeros(l: nat): (z: seq<nat>)
    ensures |z| == l && forall i :: 0 <= i < l ==> z[i] == 0
  {
    seq(l, _ => 0)
  }

  /** Two digit sequences that are spelled alike. */
  predicate Alike(d: seq<nat>, e: seq<nat>, o: Options)
    requires NoPanic(o)
  {
    && |d| == |e| == o.l && InBase(d, |o.chars|) && InBase(e, |o.chars|)
    && d != e && Spell(d, o) == Spell(e, o)
  }

  /** With a zero in front, or nothing behind, the diffusion step changes nothing. */
  lemma DiffusePlain(d: seq<nat>, c: nat)
    requires 0 < c <= 255 && InBase(d, c) && d != [] && (d[0] == 0 || |d| == 1)
    ensures Diffuse(d, c) == d
  {
    ByteSmall(c);
    forall i | 0 <= i < |d|
      ensures Diffuse(d, c)[i] == d[i]
    {
      MixNothing(d[0], 0, 0, c);
      MixNothing(d[i], i, if i == 0 then d[0] else 0, c);
    }
  }

  lemma MixNothing(x: nat, i: nat, x0: nat, c: nat)
    requires 0 < c <= 255 && x < c && (i == 0 || x0 == 0)
    ensures ToByte(c) > 0 && Mix(x, i, x0, c) == x
  {
    ByteSmall(c);
    ByteSmall(x);
    assert ToByte(i) * x0 == 0;
    DivModUnique(x, c, 0, x);
  }

  lemma RepeatedChar(o: Options) returns (d: seq<nat>, e: seq<nat>)
    requires NoPanic(o) && |o.chars| <= 255 && !Distinct(o.chars)
    ensures Alike(d, e, o)
  {
    var a, b :| 0 <= a < b < |o.chars| && o.chars[a] == o.chars[b];
    var p := if o.l == 1 then 0 else 1;
    d, e := Zeros(o.l)[p := a], Zeros(o.l)[p := b];
    DiffusePlain(d, |o.chars|);
    DiffusePlain(e, |o.chars|);
    assert d[p] != e[p];
    forall i | 0 <= i < o.l
      ensures Spell(d, o)[i] == Spell(e, o)[i]
    {
      assert Source(i, o) != p ==> d[Source(i, o)] == e[Source(i, o)];
    }
  }

  lemma UnusedEntry(o: Options) returns (d: seq<nat>, e: seq<nat>)
    requires NoPanic(o) && 2 <= |o.chars| <= 255 && !SourcesDistinct(o)
    ensures Alike(d, e, o)
  {
    var p := Unused(o);
    d, e := Zeros(o.l), Zeros(o.l)[p := 1];
    DiffusePlain(d, |o.chars|);
    DiffusePlain(e, |o.chars|);
    assert d[p] != e[p];
    forall k | 0 <= k < o.l
      ensures Spell(d, o)[k] == Spell(e, o)[k]
    {
      assert Source(k, o) != p && e[Source(k, o)] == d[Source(k, o)];
    }
  }

  lemma Unused(o: Options) returns (p: nat)
    requires NoPanic(o) && !SourcesDistinct(o)
    ensures 0 < p < o.l && forall k :: 0 <= k < o.l ==> Source(k, o) != p
  {
    var s := Sources(o);
    var i, j :| 0 <= i < j < o.l && Source(i, o) == Source(j, o);
    assert s[i] == s[j];
    NoRepeatIffAll(s);
    p :| p < o.l && p !in s;
    FirstStays(o);
    assert s[0] == 0;
    forall k | 0 <= k < o.l
      ensures Source(k, o) != p
    {
      assert s[k] in s;
    }
  }

  lemma FirstStays(o: Options)
    requires NoPanic(o)
    ensures Source(0, o) == 0
  {
    ByteSmall(0);
    assert ToByte(0) * ToByte(o.n2) == 0;
    DivModUnique(0, ToByte(o.l), 0, 0);
  }

  /** Where the byte addition first overflows: entry `i`, with the greatest digit in front. */
  lemma FirstOverflow(c: nat, l: nat) returns (i: nat)
    requires 2 <= c <= 255 && l * (c - 1) > 255
    ensures 0 < i < l && i * (c - 1) <= 255 < (i + 1) * (c - 1)
  {
    i := 0;
    assert (0 + 1) * (c - 1) <= 255 && 0 * (c - 1) == 0;
    FactorBelow(0, l, c - 1);
    while (i + 1) * (c - 1) <= 255
      invariant i * (c - 1) <= 255 && i < l
      invariant i == 0 ==> (i + 1) * (c - 1) <= 255
      decreases l - i
    {
      FactorBelow(i + 1, l, c - 1);
      i := i + 1;
    }
  }

  lemma FactorBelow(a: nat, b: nat, z: nat)
    requires a * z < b * z
    ensures a < b
  {
    if b <= a { MulMonotone(b, a, z); }
  }

  /** Two digits that the overflow maps to one, for `k` added in a byte. */
  lemma OverflowPair(c: nat, k: nat) returns (x: nat, y: nat)
    requires 2 <= c <= 255 && 256 % c != 0 && k <= 255 && k + (c - 1) >= 256
    ensures x < y < c && ((x + k) % 256) % c == ((y + k) % 256) % c
  {
    var r, w := 256 % c, 256 - k;
    if r >= w {
      x, y := 0, r;
      FarOverflow(c, k, r, w);
    } else {
      x, y := w - r, w;
      NearOverflow(c, k, r, w);
    }
  }

  lemma FarOverflow(c: nat, k: nat, r: nat, w: nat)
    requires 2 <= c <= 255 && r == 256 % c && k <= 255 && w == 256 - k <= r
    ensures ((0 + k) % 256) % c == r - w == ((r + k) % 256) % c
  {
    var q := 256 / c;
    assert 256 == r + c * q;
    DivModUnique(k, 256, 0, k);
    DivModUnique(k, c, q, r - w);
    DivModUnique(r + k, 256, 1, r - w);
    DivModUnique(r - w, c, 0, r - w);
  }

  lemma NearOverflow(c: nat, k: nat, r: nat, w: nat)
    requires 2 <= c <= 255 && r == 256 % c && 0 < r < w == 256 - k < c
    ensures ((w - r + k) % 256) % c == 0 == ((w + k) % 256) % c
  {
    var q := 256 / c;
    assert 256 == r + c * q;
    DivModUnique(w - r + k, 256, 0, 256 - r);
    DivModUnique(256 - r, c, q, 0);
    DivModUnique(w + k, 256, 1, 0);
    DivModUnique(0, c, 0, 0);
  }

  lemma OverflowLoses(o: Options) returns (d: seq<nat>, e: seq<nat>)
    requires NoPanic(o) && 2 <= |o.chars| <= 255 && !CarryFree(|o.chars|, o.l)
    ensures Alike(d, e, o)
  {
    var c := |o.chars|;
    var i := FirstOverflow(c, o.l);
    var k := i * (c - 1);
    IndexBelow(i, c);
    assert (i + 1) * (c - 1) == k + (c - 1);
    var x, y := OverflowPair(c, k);
    var z := Zeros(o.l)[0 := c - 1];
    d, e := z[i := x], z[i := y];
    SameMix(c, i, x, y, k);
    DiffuseDiffers(z, c, i, x, y);
    assert d[i] != e[i];
  }

  lemma IndexBelow(i: nat, c: nat)
    requires c >= 2 && i * (c - 1) <= 255
    ensures i <= 255
  {
    MulMonotone(1, c - 1, i);
  }

  /** An entry of `slIdx` when no operand is cut to a byte. */
  lemma MixIs(x: nat, i: nat, x0: nat, c: nat, k: nat)
    requires x <= 255 && i <= 255 && 0 < c <= 255 && k == i * x0 <= 255
    ensures ToByte(c) == c && Mix(x, i, x0, c) == ((x + k) % 256) % c
  {
    ByteSmall(x);
    ByteSmall(i);
    ByteSmall(c);
    ByteSmall(k);
  }

  lemma SameMix(c: nat, i: nat, x: nat, y: nat, k: nat)
    requires 2 <= c <= 255 && i <= 255 && k == i * (c - 1) <= 255 && x < c && y < c
    requires ((x + k) % 256) % c == ((y + k) % 256) % c
    ensures ToByte(c) > 0 && Mix(x, i, c - 1, c) == Mix(y, i, c - 1, c)
  {
    MixIs(x, i, c - 1, c, k);
    MixIs(y, i, c - 1, c, k);
  }

  lemma DiffuseDiffers(z: seq<nat>, c: nat, i: nat, x: nat, y: nat)
    requires 2 <= c <= 255 && 0 < i < |z| && z[0] == c - 1 && ToByte(c) > 0
    requires Mix(x, i, c - 1, c) == Mix(y, i, c - 1, c)
    ensures Diffuse(z[i := x], c) == Diffuse(z[i := y], c)
  {
    MixNothing(c - 1, 0, 0, c);
  }

  /** More than 255 characters: the first digit is cut to a byte and back to less than that. */
  lemma AlphabetTooLong(o: Options) returns (d: seq<nat>, e: seq<nat>)
    requires NoPanic(o) && |o.chars| > 255
    ensures Alike(d, e, o)
  {
    var b := ToByte(|o.chars|);
    d, e := Zeros(o.l), Zeros(o.l)[0 := b];
    assert d[0] != e[0];
    MixCut(|o.chars|);
    assert Diffuse(d, |o.chars|) == Diffuse(e, |o.chars|);
  }

  lemma MixCut(c: nat)
    requires ToByte(c) > 0
    ensures Mix(ToByte(c), 0, 0, c) == 0 == Mix(0, 0, 0, c)
  {
    var b := ToByte(c);
    ByteSmall(b);
    ByteSmall(0);
    DivModUnique(b, b, 1, 0);
    DivModUnique(0, b, 0, 0);
  }

  /** Different digits are spelled differently exactly under the readable settings. */
  lemma SpellInjectiveIff(o: Options)
    requires NoPanic(o)
    ensures (forall d, e :: !Alike(d, e, o)) <==> Readable(o)
  {
    var c := |o.chars|;
    if Readable(o) {
      forall d, e
        ensures !Alike(d, e, o)
      {
        if Alike(d, e, o) {
          ReadSpell(d, o);
          ReadSpell(e, o);
        }
      }
    } else if c > 255 {
      var d, e := AlphabetTooLong(o);
    } else if !Distinct(o.chars) {
      var d, e := RepeatedChar(o);
    } else if !CarryFree(c, o.l) {
      var d, e := OverflowLoses(o);
    } else {
      var d, e := UnusedEntry(o);
    }
  }

  /** The documented way to distinct positions: a multiplier without a common divisor with the
      length, as long as the byte product does not overflow. */
  lemma CoprimeSources(o: Options)
    requires o.Valid() && o.l <= 255 && Gcd(ToByte(o.n2), o.l) == 1 && (o.l - 1) * ToByte(o.n2) <= 255
    ensures ToByte(o.l) > 0 && SourcesDistinct(o)
  {
    var n, l := ToByte(o.n2), o.l;
    var inv := Inverse(n, l, 1);
    ByteSmall(l);
    assert Pow(l, 1) == l * Pow(l, 0) == l;
    forall i, j | 0 <= i < j < l
      ensures Source(i, o) != Source(j, o)
    {
      SourceClean(i, o);
      SourceClean(j, o);
      OneWay(i, n, inv, l);
      OneWay(j, n, inv, l);
    }
  }

  lemma SourceClean(i: nat, o: Options)
    requires o.Valid() && o.l <= 255 && (o.l - 1) * ToByte(o.n2) <= 255 && i < o.l
    ensures ToByte(o.l) > 0 && Source(i, o) == (i * ToByte(o.n2)) % o.l
  {
    var n := ToByte(o.n2);
    MulMonotone(i, o.l - 1, n);
    ByteSmall(i);
    ByteSmall(o.l);
    ByteSmall(i * n);
  }

  lemma OneWay(p: nat, a: int, b: int, l: nat)
    requires p < l && Cong(a * b, 1, l)
    ensures (((p * a) % l) * b) % l == p
  {
    CongMod(p * a, l);
    CongMul(p * a, (p * a) % l, l, b);
    UndoFactor(a, b, p, l);
    CongSym(b * (p * a), b * ((p * a) % l), l);
    CongTrans(b * ((p * a) % l), b * (p * a), p, l);
    assert b * ((p * a) % l) == ((p * a) % l) * b;
    CongIffMod(((p * a) % l) * b, p, l);
    DivModUnique(p, l, 0, p);
  }

  // ---------- which numbers share a code ----------

  /** How often the 64-bit arithmetic wraps for a number; a negative multiplier wraps downwards. */
  function Wraps(id: nat, o: Options): int {
    (id * o.n1 + o.salt) / TWO_64
  }

  lemma EnlargeExact(id: nat, o: Options)
    ensures id * o.n1 == Enlarge(id, o) + Wraps(id, o) * TWO_64 - o.salt
  {
    var u, t := ToUint64(o.n1), id * o.n1 + o.salt;
    var q := o.n1 / TWO_64;
    assert o.n1 == u + TWO_64 * q;
    assert id * o.n1 == id * u + id * q * TWO_64 by { assert id * (TWO_64 * q) == id * q * TWO_64; }
    CongBy(t, id * u + o.salt, TWO_64, id * q);
    CongIffMod(t, id * u + o.salt, TWO_64);
  }

  /** Sound settings never panic. */
  lemma CodeIs(x: nat, o: Options)
    requires NoPanic(o)
    ensures Code(x, o) == Some(Spell(Digits(Enlarge(x, o), |o.chars|, o.l), o))
  {
  }

  /** Codes agree exactly when the enlarged numbers agree modulo the number of codes.  This
      holds of any two 64-bit numbers, wrapped or not. */
  lemma SameCodeIff(x: nat, y: nat, o: Options)
    requires Readable(o)
    ensures Code(x, o).Some?
    ensures Code(x, o) == Code(y, o) <==> Enlarge(x, o) % Count(o) == Enlarge(y, o) % Count(o)
  {
    var c := |o.chars|;
    var d, e := Digits(Enlarge(x, o), c, o.l), Digits(Enlarge(y, o), c, o.l);
    ReadSpell(d, o);
    ReadSpell(e, o);
    SameDigits(Enlarge(x, o), Enlarge(y, o), c, o.l);
  }

  /** The inverse of the multiplier modulo the number of codes. */
  function MulInverse(o: Options): (r: int)
    requires o.Valid() && Coprime(o)
    ensures Cong(o.n1 * r, 1, Count(o))
  {
    var r := Inverse(Abs(o.n1), |o.chars|, o.l);
    if o.n1 < 0 then
      assert o.n1 * -r == Abs(o.n1) * r;
      -r
    else r
  }

  /** The uniqueness promise: among numbers for which the 64-bit arithmetic wraps equally often,
      codes agree exactly for numbers congruent modulo the number of codes. */
  lemma UniqueModuloCount(x: nat, y: nat, o: Options)
    requires Sound(o) && Wraps(x, o) == Wraps(y, o)
    ensures Code(x, o) == Code(y, o) <==> x % Count(o) == y % Count(o)
  {
    var n, m := o.n1, Count(o);
    SameCodeIff(x, y, o);
    EnlargeExact(x, o);
    EnlargeExact(y, o);
    CongIffMod(Enlarge(x, o), Enlarge(y, o), m);
    CongShift(Enlarge(x, o), Enlarge(y, o), m, Wraps(x, o) * TWO_64 - o.salt);
    CongCancel(n, MulInverse(o), x, y, m);
    CongIffMod(x, y, m);
  }

  /** Undo the affine step for an enlarged number that is known modulo the number of codes. */
  function Shrink(e: nat, wraps: int, o: Options): (r: nat)
    requires o.Valid() && Coprime(o)
    ensures r < Count(o)
  {
    (((e + wraps * TWO_64 - o.salt) * MulInverse(o)) % Count(o)) as nat
  }

  /** The explicit decoder, for a number whose arithmetic wrapped `wraps` times. */
  function Decode(code: string, o: Options, wraps: int): (r: nat)
    requires Sound(o) && IsCode(code, o)
    ensures r < Count(o)
  {
    Shrink(Value(Read(code, o), |o.chars|), wraps, o)
  }

  lemma UndoEnlarge(n: int, inv: int, x: int, e: int, k: int, m: int)
    requires m > 0 && Cong(n * inv, 1, m) && x * n == e + k
    ensures ((e % m + k) * inv) % m == x % m
  {
    CongMod(e, m);
    CongShift(e, e % m, m, k);
    CongMul(e + k, e % m + k, m, inv);
    UndoFactor(n, inv, x, m);
    CongSym(inv * (e + k), inv * (e % m + k), m);
    CongTrans(inv * (e % m + k), inv * (x * n), x, m);
    assert inv * (e % m + k) == (e % m + k) * inv;
    CongIffMod((e % m + k) * inv, x, m);
  }

  lemma RedoEnlarge(n: int, inv: int, x: int, v: int, e: int, k: int, m: int)
    requires m > 0 && Cong(n * inv, 1, m) && x * n == e + k
    requires ((v + k) * inv) % m == x % m
    ensures v % m == e % m
  {
    CongIffMod((v + k) * inv, x, m);
    CongMul((v + k) * inv, x, m, n);
    assert inv * n == n * inv && n * x == e + k;
    UndoFactor(inv, n, v + k, m);
    CongSym(n * ((v + k) * inv), v + k, m);
    CongTrans(v + k, n * ((v + k) * inv), e + k, m);
    CongShift(v, e, m, k);
    CongIffMod(v, e, m);
  }

  lemma ShrinkEnlarged(x: nat, o: Options)
    requires Sound(o)
    ensures Shrink(Enlarge(x, o) % Count(o), Wraps(x, o), o) == x % Count(o)
  {
    var n, k := o.n1, Wraps(x, o) * TWO_64 - o.salt;
    EnlargeExact(x, o);
    UndoEnlarge(n, MulInverse(o), x, Enlarge(x, o), k, Count(o));
  }

  lemma EnlargedFromShrunk(x: nat, v: nat, o: Options)
    requires o.Valid() && Coprime(o) && v < Count(o) && x % Count(o) == Shrink(v, Wraps(x, o), o)
    ensures Enlarge(x, o) % Count(o) == v
  {
    var n, k, m := o.n1, Wraps(x, o) * TWO_64 - o.salt, Count(o);
    EnlargeExact(x, o);
    RedoEnlarge(n, MulInverse(o), x, v, Enlarge(x, o), k, m);
    DivModUnique(v, m, 0, v);
  }

  lemma ValueOfSpelled(e: nat, o: Options)
    requires Readable(o)
    ensures Value(Read(Spell(Digits(e, |o.chars|, o.l), o), o), |o.chars|) == e % Count(o)
  {
    ReadSpell(Digits(e, |o.chars|, o.l), o);
    ValueOfDigits(e, |o.chars|, o.l);
  }

  /** The decoder recovers the number modulo the number of codes. */
  lemma DecodeCode(x: nat, o: Options)
    requires Sound(o)
    ensures Decode(Code(x, o).value, o, Wraps(x, o)) == x % Count(o)
  {
    CodeIs(x, o);
    ValueOfSpelled(Enlarge(x, o), o);
    ShrinkEnlarged(x, o);
  }

  /** Every code of the right length is produced exactly once by any run of consecutive numbers
      as long as the number of codes, if the arithmetic does not wrap within the run. */
  lemma EveryCodeOnce(start: nat, code: string, o: Options) returns (x: nat)
    requires Sound(o) && IsCode(code, o)
    requires Wraps(start, o) == Wraps(start + Count(o) - 1, o)
    ensures start <= x < start + Count(o) && Code(x, o) == Some(code)
    ensures forall y | start <= y < start + Count(o) && Code(y, o) == Some(code) :: y == x
  {
    var c, m, w := |o.chars|, Count(o), Wraps(start, o);
    var r := Decode(code, o, w);
    x := start + (r - start) % m;
    InResidue(start, r, m);
    DivModUnique(r, m, 0, r);
    forall y | start <= y < start + m && Code(y, o) == Some(code)
      ensures y == x
    {
      TellsNumber(start, y, code, o);
      OneInRun(start, x, y, m);
    }
    StillWraps(start, x, start + m - 1, o);
    CodeOfDecoded(x, code, o);
  }

  /** Within the run a code tells the number, modulo the number of codes. */
  lemma TellsNumber(start: nat, y: nat, code: string, o: Options)
    requires Sound(o) && IsCode(code, o) && Wraps(start, o) == Wraps(start + Count(o) - 1, o)
    requires start <= y < start + Count(o) && Code(y, o) == Some(code)
    ensures y % Count(o) == Decode(code, o, Wraps(start, o))
  {
    StillWraps(start, y, start + Count(o) - 1, o);
    DecodeCode(y, o);
  }

  lemma InResidue(start: int, r: int, m: nat)
    requires m > 0
    ensures (start + (r - start) % m) % m == r % m
  {
    CongMod(r - start, m);
    CongSym(r - start, (r - start) % m, m);
    CongShift((r - start) % m, r - start, m, start);
    CongIffMod(start + (r - start) % m, r, m);
  }

  lemma OneInRun(start: int, x: int, y: int, m: nat)
    requires start <= x < start + m && start <= y < start + m && x % m == y % m
    ensures x == y
  {
    CongIffMod(y, x, m);
    CongSmall(y, x, m);
  }

  lemma WrapsBetween(x: nat, y: nat, z: nat, o: Options)
    requires x <= y <= z
    ensures if o.n1 >= 0 then Wraps(x, o) <= Wraps(y, o) <= Wraps(z, o) else Wraps(x, o) >= Wraps(y, o) >= Wraps(z, o)
  {
    WrapsGrow(x, y, o);
    WrapsGrow(y, z, o);
  }

  lemma WrapsGrow(x: nat, y: nat, o: Options)
    requires x <= y
    ensures if o.n1 >= 0 then Wraps(x, o) <= Wraps(y, o) else Wraps(x, o) >= Wraps(y, o)
  {
    MulMonotone(x, y, Abs(o.n1));
    if o.n1 >= 0 {
      DivMonotone(x * o.n1 + o.salt, y * o.n1 + o.salt, TWO_64);
    } else {
      assert x * o.n1 == -(x * Abs(o.n1)) && y * o.n1 == -(y * Abs(o.n1));
      DivMonotone(y * o.n1 + o.salt, x * o.n1 + o.salt, TWO_64);
    }
  }

  lemma DivMonotone(a: int, b: int, m: int)
    requires m > 0 && a <= b
    ensures a / m <= b / m
  {
    var p, q := a / m, b / m;
    assert a == p * m + a % m && b == q * m + b % m;
    assert (p - q - 1) * m == p * m - q * m - m;
    MulSign(p - q - 1, m);
  }

  lemma CodeOfDecoded(x: nat, code: string, o: Options)
    requires Sound(o) && IsCode(code, o) && x % Count(o) == Decode(code, o, Wraps(x, o))
    ensures Code(x, o) == Some(code)
  {
    var c := |o.chars|;
    var d, e := Read(code, o), Enlarge(x, o);
    ValueSmall(d, c);
    EnlargedFromShrunk(x, Value(d, c), o);
    ValueOfDigits(e, c, o.l);
    DigitsOfValue(Digits(e, c, o.l), c);
    DigitsOfValue(d, c);
    SpellRead(code, o);
  }

  // ---------- the settings under which codes are unique ----------

  lemma {:induction false} GcdDivides(a: nat, b: nat)
    requires a > 0 || b > 0
    ensures var g := Gcd(a, b); g > 0 && a % g == 0 && b % g == 0
    decreases b
  {
    if b == 0 {
      DivModUnique(a, a, 1, 0);
      DivModUnique(0, a, 0, 0);
    } else {
      GcdDivides(b, a % b);
      SumDivides(b, a / b, a % b, Gcd(a, b));
      assert a == b * (a / b) + a % b;
    }
  }

  lemma SumDivides(b: nat, q: nat, r: nat, g: nat)
    requires g > 0 && b % g == 0 && r % g == 0
    ensures (b * q + r) % g == 0
  {
    var x, y := b / g, r / g;
    assert b * q + r == g * (x * q + y) by {
      assert b == g * x && r == g * y;
      assert (g * x) * q == g * (x * q);
    }
    DivModUnique(b * q + r, g, x * q + y, 0);
  }

  /** Two numbers with equally many wraps whose distance times the multiplier is a multiple of the
      number of codes. */
  lemma SameCodeAt(x: nat, y: nat, o: Options, q: int)
    requires NoPanic(o) && Wraps(x, o) == Wraps(y, o) && (y - x) * o.n1 == q * Count(o)
    ensures Code(x, o) == Code(y, o)
  {
    EnlargeExact(x, o);
    EnlargeExact(y, o);
    assert (y - x) * o.n1 == y * o.n1 - x * o.n1;
    CongBy(Enlarge(y, o), Enlarge(x, o), Count(o), q);
    CongIffMod(Enlarge(y, o), Enlarge(x, o), Count(o));
    SameDigits(Enlarge(x, o), Enlarge(y, o), |o.chars|, o.l);
  }

  lemma DivisorParts(n: nat, c: nat, l: nat) returns (g: nat, a: nat, k: nat)
    requires c > 0 && l > 0 && Gcd(n, c) != 1
    ensures g > 1 && n == g * a && Pow(c, l) == g * k
  {
    g := Gcd(n, c);
    GcdDivides(n, c);
    var b, p := c / g, Pow(c, l - 1);
    a, k := n / g, b * p;
    MulAssoc(g, b, p);
  }

  lemma MulAssoc(g: int, b: int, p: int)
    ensures (g * b) * p == g * (b * p)
  {}

  /** With a common divisor two numbers of a run share a code. */
  lemma SharedDivisor(start: nat, o: Options) returns (y: nat)
    requires NoPanic(o) && !Coprime(o) && Wraps(start, o) == Wraps(start + Count(o) - 1, o)
    ensures start < y < start + Count(o) && Code(start, o) == Code(y, o)
  {
    var m := Count(o);
    var g, a, k := DivisorParts(Abs(o.n1), |o.chars|, o.l);
    SmallerFactor(g, k, m);
    y := start + k;
    StillWraps(start, y, start + m - 1, o);
    var q := SignedTimes(y - start, k, g, a, o.n1, m);
    SameCodeAt(start, y, o, q);
  }

  lemma StillWraps(x: nat, y: nat, z: nat, o: Options)
    requires x <= y <= z && Wraps(x, o) == Wraps(z, o)
    ensures Wraps(y, o) == Wraps(x, o)
  {
    WrapsBetween(x, y, z, o);
  }

  lemma SignedTimes(d: int, k: int, g: int, a: int, n: int, m: int) returns (q: int)
    requires d == k && Abs(n) == g * a && m == g * k
    ensures d * n == q * m
  {
    q := if n >= 0 then a else -a;
    assert k * (g * a) == a * (g * k);
    if n < 0 { assert k * n == -(k * Abs(n)) && q * m == -(a * m); }
  }

  lemma SmallerFactor(g: nat, k: nat, m: nat)
    requires g > 1 && m > 0 && m == g * k
    ensures 0 < k < m
  {
    if k > 0 { MulMonotone(2, g, k); }
  }

  /** In a run without a wrap some number has any given digits. */
  lemma NumberWith(start: nat, d: seq<nat>, o: Options) returns (x: nat)
    requires NoPanic(o) && Coprime(o) && Wraps(start, o) == Wraps(start + Count(o) - 1, o)
    requires |d| == o.l && InBase(d, |o.chars|)
    ensures start <= x < start + Count(o) && Digits(Enlarge(x, o), |o.chars|, o.l) == d
  {
    var c, m, w := |o.chars|, Count(o), Wraps(start, o);
    var v := Value(d, c);
    ValueSmall(d, c);
    var r := Shrink(v, w, o);
    x := start + (r - start) % m;
    InResidue(start, r, m);
    DivModUnique(r, m, 0, r);
    WrapsBetween(start, x, start + m - 1, o);
    EnlargedFromShrunk(x, v, o);
    DivModUnique(v, m, 0, v);
    SameDigits(Enlarge(x, o), v, c, o.l);
    DigitsOfValue(d, c);
  }

  lemma UnreadableShares(start: nat, o: Options) returns (x: nat, y: nat)
    requires NoPanic(o) && Coprime(o) && !Readable(o) && Wraps(start, o) == Wraps(start + Count(o) - 1, o)
    ensures start <= x < y < start + Count(o) && Code(x, o) == Code(y, o)
  {
    SpellInjectiveIff(o);
    var d, e :| Alike(d, e, o);
    x := NumberWith(start, d, o);
    y := NumberWith(start, e, o);
    if x > y { x, y := y, x; }
  }

  /** A run of as many numbers as there are codes, in which the arithmetic does not wrap, gets
      pairwise different codes exactly under the sound settings. */
  lemma CodesUniqueIff(start: nat, o: Options)
    requires NoPanic(o) && Wraps(start, o) == Wraps(start + Count(o) - 1, o)
    ensures (forall x, y | start <= x < y < start + Count(o) :: Code(x, o) != Code(y, o)) <==> Sound(o)
  {
    if Sound(o) {
      forall x, y | start <= x < y < start + Count(o)
        ensures Code(x, o) != Code(y, o)
      {
        WrapsBetween(start, x, start + Count(o) - 1, o);
        WrapsBetween(start, y, start + Count(o) - 1, o);
        UniqueModuloCount(x, y, o);
        if x % Count(o) == y % Count(o) { OneInRun(start, x, y, Count(o)); }
      }
    } else if !Coprime(o) {
      var y := SharedDivisor(start, o);
    } else {
      var x, y := UnreadableShares(start, o);
    }
  }

  // ---------- codes longer than 64 bits ----------

  /** The entries of `slIdx` can be read off a code. */
  lemma SpellShows(d: seq<nat>, e: seq<nat>, o: Options)
    requires NoPanic(o) && Distinct(o.chars) && SourcesDistinct(o) && |d| == |e| == o.l && Spell(d, o) == Spell(e, o)
    ensures Diffuse(d, |o.chars|) == Diffuse(e, |o.chars|)
  {
    var s, t, from := Diffuse(d, |o.chars|), Diffuse(e, |o.chars|), Sources(o);
    assert NoRepeat(from);
    NoRepeatIffAll(from);
    forall p: nat | p < o.l
      ensures s[p] == t[p]
    {
      assert p in from;
      var i :| 0 <= i < |from| && from[i] == p;
      assert Spell(d, o)[i] == o.chars[s[p]] && Spell(e, o)[i] == o.chars[t[p]];
    }
  }

  lemma DiffusePrefix(d: seq<nat>, c: nat, k: nat)
    requires ToByte(c) > 0 && 0 < k <= |d|
    ensures Diffuse(d[..k], c) == Diffuse(d, c)[..k]
  {}

  lemma {:induction false} DigitsPrefix(e: nat, c: nat, k: nat, l: nat)
    requires c > 0 && k <= l
    ensures Digits(e, c, l)[..k] == Digits(e, c, k)
    decreases l
  {
    if k > 0 {
      DigitsPrefix(e / c, c, k - 1, l - 1);
      assert Digits(e, c, l)[..k] == [e % c] + Digits(e / c, c, l - 1)[..k - 1];
    }
  }

  /** If `k` digits hold every 64-bit number, byte overflow behind them does no harm: two numbers
      share a code exactly if the 64-bit arithmetic makes them the same. */
  lemma LongCodesIff(x: nat, y: nat, o: Options, k: nat)
    requires NoPanic(o) && |o.chars| <= 255 && Distinct(o.chars) && SourcesDistinct(o)
    requires 0 < k <= o.l && Pow(|o.chars|, k) >= TWO_64 && CarryFree(|o.chars|, k)
    ensures Code(x, o) == Code(y, o) <==> ((x - y) * o.n1) % TWO_64 == 0
  {
    var c := |o.chars|;
    SameEnlarged(x, y, o);
    if Code(x, o) == Code(y, o) {
      var d, e := Digits(Enlarge(x, o), c, o.l), Digits(Enlarge(y, o), c, o.l);
      SpellShows(d, e, o);
      DiffusePrefix(d, c, k);
      DiffusePrefix(e, c, k);
      UndiffuseDiffuse(d[..k], c);
      UndiffuseDiffuse(e[..k], c);
      DigitsPrefix(Enlarge(x, o), c, k, o.l);
      DigitsPrefix(Enlarge(y, o), c, k, o.l);
      SameDigits(Enlarge(x, o), Enlarge(y, o), c, k);
      DivModUnique(Enlarge(x, o), Pow(c, k), 0, Enlarge(x, o));
      DivModUnique(Enlarge(y, o), Pow(c, k), 0, Enlarge(y, o));
    }
  }

  lemma SameEnlarged(x: nat, y: nat, o: Options)
    ensures Enlarge(x, o) == Enlarge(y, o) <==> ((x - y) * o.n1) % TWO_64 == 0
  {
    var d := Wraps(x, o) - Wraps(y, o);
    EnlargeExact(x, o);
    EnlargeExact(y, o);
    assert (x - y) * o.n1 == x * o.n1 - y * o.n1 == Enlarge(x, o) - Enlarge(y, o) + d * TWO_64;
    CongBy((x - y) * o.n1, Enlarge(x, o) - Enlarge(y, o), TWO_64, d);
    CongIffMod((x - y) * o.n1, Enlarge(x, o) - Enlarge(y, o), TWO_64);
    if Enlarge(x, o) != Enlarge(y, o) { NotMultiple(Enlarge(x, o) - Enlarge(y, o), TWO_64); }
  }

  lemma NotMultiple(a: int, m: int)
    requires m > 0 && -m < a < m && a != 0
    ensures a % m != 0
  {}

  // ---------- the 64-bit wrap inside a run of numbers ----------

  /** The distance at which a number repeats the code of one before, if the arithmetic wraps `k`
      times between them. */
  function RepeatDistance(k: int, o: Options): (r: nat)
    requires Sound(o)
    ensures r < Count(o)
  {
    ((k * TWO_64 * MulInverse(o)) % Count(o)) as nat
  }

  /** Any two numbers, whatever the settings and however often the arithmetic wraps. */
  lemma CrossWraps(x: nat, y: nat, o: Options)
    requires Sound(o)
    ensures Code(x, o) == Code(y, o) <==> (y - x) % Count(o) == RepeatDistance(Wraps(y, o) - Wraps(x, o), o)
  {
    var n, m, k := o.n1, Count(o), Wraps(y, o) - Wraps(x, o);
    SameCodeIff(x, y, o);
    EnlargeExact(x, o);
    EnlargeExact(y, o);
    CongIffMod(Enlarge(y, o), Enlarge(x, o), m);
    CongShift(Enlarge(y, o), Enlarge(x, o), m, k * TWO_64 - Enlarge(x, o));
    assert Enlarge(y, o) + k * TWO_64 - Enlarge(x, o) == (y - x) * n;
    ScaledDistance(y - x, k * TWO_64, n, MulInverse(o), m);
  }

  lemma ScaledDistance(d: int, t: int, n: int, inv: int, m: int)
    requires m > 0 && Cong(n * inv, 1, m)
    ensures Cong(d * n, t, m) <==> d % m == (t * inv) % m
  {
    CongCancel(n, inv, d, t * inv, m);
    assert inv * n == n * inv && n * (t * inv) == (t * inv) * n;
    UndoFactor(inv, n, t, m);
    CongSym((t * inv) * n, t, m);
    if Cong(d * n, t, m) { CongTrans(d * n, t, (t * inv) * n, m); }
    if Cong(d * n, (t * inv) * n, m) { CongTrans(d * n, (t * inv) * n, t, m); }
    CongIffMod(d, t * inv, m);
  }

  /** The first number of a run whose arithmetic does not wrap as often as at the start. */
  lemma FirstWrap(start: nat, end: nat, o: Options) returns (b: nat)
    requires start < end && Abs(Wraps(end, o) - Wraps(start, o)) == 1
    ensures start < b <= end && Wraps(b, o) == Wraps(end, o) && Wraps(b - 1, o) == Wraps(start, o)
  {
    b := start + 1;
    WrapsBetween(start, b, end, o);
    while Wraps(b, o) == Wraps(start, o)
      invariant start < b <= end && Wraps(b - 1, o) == Wraps(start, o)
      invariant Wraps(b, o) == Wraps(start, o) || Wraps(b, o) == Wraps(end, o)
      decreases end - b
    {
      b := b + 1;
      WrapsBetween(start, b, end, o);
    }
  }

  lemma OneOfTwo(start: nat, x: nat, end: nat, o: Options)
    requires start <= x <= end && Abs(Wraps(end, o) - Wraps(start, o)) <= 1
    ensures Wraps(x, o) == Wraps(start, o) || Wraps(x, o) == Wraps(end, o)
  {
    WrapsBetween(start, x, end, o);
  }

  /** The numbers of a run get pairwise different codes exactly when the 64-bit arithmetic does
      not wrap inside the run, or the run is too short for the repeat distance. */
  lemma RunUniqueIff(start: nat, n: nat, o: Options)
    requires Sound(o) && 1 <= n <= Count(o)
    requires Abs(Wraps(start + n - 1, o) - Wraps(start, o)) <= 1
    ensures
      var k := Wraps(start + n - 1, o) - Wraps(start, o);
      (forall x, y | start <= x < y < start + n :: Code(x, o) != Code(y, o)) <==>
      k == 0 || RepeatDistance(k, o) == 0 || n <= RepeatDistance(k, o)
  {
    var end, k := start + n - 1, Wraps(start + n - 1, o) - Wraps(start, o);
    var r := RepeatDistance(k, o);
    if k == 0 || r == 0 || n <= r {
      forall x, y | start <= x < y < start + n
        ensures Code(x, o) != Code(y, o)
      {
        RunPair(start, x, y, end, o);
      }
    } else {
      var b := FirstWrap(start, end, o);
      var y := if b >= start + r then b else start + r;
      OneOfTwo(start, y - r, b - 1, o);
      WrapsBetween(b, y, end, o);
      CrossWraps(y - r, y, o);
      DivModUnique(r, Count(o), 0, r);
    }
  }

  lemma RunPair(start: nat, x: nat, y: nat, end: nat, o: Options)
    requires Sound(o) && start <= x < y <= end < start + Count(o)
    requires Abs(Wraps(end, o) - Wraps(start, o)) <= 1
    requires
      var k := Wraps(end, o) - Wraps(start, o);
      k == 0 || RepeatDistance(k, o) == 0 || end - start < RepeatDistance(k, o)
    ensures Code(x, o) != Code(y, o)
  {
    var k := Wraps(end, o) - Wraps(start, o);
    OneOfTwo(start, x, end, o);
    OneOfTwo(start, y, end, o);
    WrapsBetween(start, x, y, o);
    WrapsBetween(x, y, end, o);
    CrossWraps(x, y, o);
    DivModUnique(y - x, Count(o), 0, y - x);
    assert RepeatDistance(0, o) == 0 by { DivModUnique(0, Count(o), 0, 0); assert 0 * TWO_64 * MulInverse(o) == 0; }
  }

  // ---------- the settings in use ----------

  const DEFAULT_CHARS := "23456789ABCDEFGHJKLMNPQRSTVWXY"
  const RID_CHARS := "abcdefghijklmnopqrstuvwxyz1234567890"

  function DefaultOptions(): Options {
    Options(DEFAULT_CHARS, 17, 5, 8, 123567369)
  }

  function RidOptions(salt: nat): Options {
    Options(RID_CHARS, 17, 5, 6, salt)
  }

  /** Characters in strictly ascending order are distinct. */
  lemma {:induction false} AscendingDistinct(s: seq<char>, i: nat, j: nat)
    requires forall k :: 0 <= k < |s| - 1 ==> s[k] < s[k + 1]
    requires i < j < |s|
    ensures s[i] < s[j]
    decreases j
  {
    if i < j - 1 {
      AscendingDistinct(s, i, j - 1);
    }
  }

  lemma DefaultDistinct()
    ensures Distinct(DEFAULT_CHARS)
  {
    var s := DEFAULT_CHARS;
    assert forall k :: 0 <= k < 29 ==> s[k] < s[k + 1];
    forall i, j | 0 <= i < j < |s|
      ensures s[i] != s[j]
    {
      AscendingDistinct(s, i, j);
    }
  }

  /** Letters and figures in order, with the zero behind. */
  predicate LettersAndFigures(s: string) {
    && |s| == 36 && s[0] == 'a' && s[25] == 'z' && s[26] == '1' && s[34] == '9' && s[35] == '0'
    && (forall k :: 0 <= k < 25 ==> s[k] < s[k + 1])
    && (forall k :: 26 <= k < 34 ==> s[k] < s[k + 1])
  }

  lemma LettersAndFiguresDiffer(s: string)
    requires LettersAndFigures(s)
    ensures Distinct(s)
  {
    forall i, j | 0 <= i < j < |s|
      ensures s[i] != s[j]
    {
      if j < 26 {
        AscendingDistinct(s[..26], i, j);
      } else if 26 <= i && j < 35 {
        AscendingDistinct(s[26..35], i - 26, j - 26);
      } else {
        if 0 < i < 26 { AscendingDistinct(s[..26], 0, i); }
        if 26 < i { AscendingDistinct(s[26..35], 0, i - 26); }
        if 26 <= j < 34 { AscendingDistinct(s[26..35], j - 26, 8); }
      }
    }
  }

  lemma RidDistinct()
    ensures Distinct(RID_CHARS)
  {
    assert LettersAndFigures(RID_CHARS);
    LettersAndFiguresDiffer(RID_CHARS);
  }

  lemma GcdsInUse()
    ensures Gcd(17, 30) == 1 && Gcd(5, 8) == 1 && Gcd(17, 36) == 1 && Gcd(5, 6) == 1
  {
    assert Gcd(1, 0) == 1;
    assert Gcd(4, 1) == 1 && Gcd(2, 1) == 1 && Gcd(5, 1) == 1;
    assert Gcd(13, 4) == 1 && Gcd(3, 2) == 1 && Gcd(17, 2) == 1 && Gcd(6, 5) == 1;
    assert Gcd(17, 13) == 1 && Gcd(5, 3) == 1 && Gcd(36, 17) == 1;
    assert Gcd(30, 17) == 1 && Gcd(8, 5) == 1;
  }

  lemma PowStep(c: nat, l: nat, p: nat)
    requires Pow(c, l) == p
    ensures Pow(c, l + 1) == c * p
  {
  }

  lemma SoundBy(o: Options, c: nat)
    requires o.Valid() && Distinct(o.chars) && |o.chars| == c <= 255 && o.l <= 255
    requires o.n1 >= 0 && Gcd(o.n1, c) == 1
    requires 0 <= o.n2 <= 255 && Gcd(o.n2, o.l) == 1
    requires o.l * (c - 1) <= 255 && (o.l - 1) * o.n2 <= 255
    ensures Sound(o)
  {
    ByteSmall(o.n2);
    ByteSmall(c);
    CoprimeSources(o);
  }

  lemma DefaultSound()
    ensures Sound(DefaultOptions()) && Count(DefaultOptions()) == 656_100_000_000
  {
    DefaultDistinct();
    GcdsInUse();
    SoundBy(DefaultOptions(), 30);
    PowStep(30, 0, 1);
    PowStep(30, 1, 30);
    PowStep(30, 2, 900);
    PowStep(30, 3, 27_000);
    PowStep(30, 4, 810_000);
    PowStep(30, 5, 24_300_000);
    PowStep(30, 6, 729_000_000);
    PowStep(30, 7, 21_870_000_000);
  }

  lemma RidSound(salt: nat)
    requires salt < TWO_64
    ensures Sound(RidOptions(salt)) && Count(RidOptions(salt)) == 2_176_782_336
  {
    RidDistinct();
    GcdsInUse();
    SoundBy(RidOptions(salt), 36);
    PowStep(36, 0, 1);
    PowStep(36, 1, 36);
    PowStep(36, 2, 1_296);
    PowStep(36, 3, 46_656);
    PowStep(36, 4, 1_679_616);
    PowStep(36, 5, 60_466_176);
  }

  lemma EnlargeIs(id: nat, o: Options, t: nat, e: nat, w: nat)
    requires 0 <= o.n1 <= 255 && id * o.n1 == t && t + o.salt == e + TWO_64 * w && e < TWO_64
    ensures Enlarge(id, o) == e
  {
    DivModUnique(o.n1, TWO_64, 0, o.n1);
    DivModUnique(t + o.salt, TWO_64, w, e);
  }

  /** Resource identifiers use a machine hash as salt, so the wrap does occur: with this salt two
      counters far below the number of codes get the same identifier. */
  lemma RidCollision()
    ensures var o := RidOptions(TWO_64 - 1);
            Sound(o) && 149_860_352 < Count(o) && Code(0, o) == Code(149_860_352, o)
  {
    var o := RidOptions(TWO_64 - 1);
    RidSound(TWO_64 - 1);
    EnlargeIs(0, o, 0, TWO_64 - 1, 0);
    EnlargeIs(149_860_352, o, 2_547_625_984, 2_547_625_983, 1);
    SameCodeIff(0, 149_860_352, o);
    DivModUnique(TWO_64 - 1, 2_176_782_336, 8_474_317_238, 370_843_647);
    DivModUnique(2_547_625_983, 2_176_782_336, 1, 370_843_647);
  }

  function ByteChars(): string {
    seq(200, i requires 0 <= i < 200 => i as char)
  }

  /** Co-prime multipliers alone are not enough: with 200 characters and length 2 the byte
      addition of the diffusion step overflows and two small numbers collide. */
  lemma ByteOverflowCollides()
    ensures var o := Options(ByteChars(), 1, 1, 2, 0);
            o.Valid() && Distinct(o.chars) && Gcd(Abs(o.n1), 200) == 1 && Gcd(ToByte(o.n2), o.l) == 1 &&
            20_100 < 31_300 < Count(o) && Code(20_100, o) == Code(31_300, o)
  {
    var o := Options(ByteChars(), 1, 1, 2, 0);
    assert Gcd(1, 0) == 1 && Gcd(200, 1) == 1 && Gcd(2, 1) == 1;
    DivModUnique(1, TWO_64, 0, 1);
    ByteSmall(1);
    PowStep(200, 0, 1);
    PowStep(200, 1, 200);
    EnlargeIs(20_100, o, 20_100, 20_100, 0);
    EnlargeIs(31_300, o, 31_300, 31_300, 0);
    TwoDigits(100);
    TwoDigits(156);
    TwoMixed([100, 100], 100, 200);
    TwoMixed([100, 156], 156, 200);
  }

  lemma TwoDigits(x: nat)
    requires x < 200
    ensures Digits(100 + 200 * x, 200, 2) == [100, x]
  {
    assert Digits(x, 200, 1) == [x % 200] + Digits(x / 200, 200, 0);
  }

  lemma TwoEntries(d: seq<nat>, c: nat, m0: nat, m1: nat)
    requires |d| == 2 && ToByte(c) > 0
    requires Mix(d[0], 0, 0, c) == m0 && Mix(d[0], 0, m0, c) == m0 && Mix(d[1], 1, m0, c) == m1
    ensures Diffuse(d, c) == [m0, m1]
  {
  }

  lemma TwoMixed(d: seq<nat>, x: nat, c: nat)
    requires d == [100, x] && c == 200 && (x == 100 || x == 156)
    ensures ToByte(c) > 0 && Diffuse(d, c) == [100, 0]
  {
    MixIs(100, 0, 0, c, 0);
    MixIs(100, 0, 100, c, 0);
    MixIs(x, 1, 100, c, 100);
    LastMixed(x, c);
    TwoEntries(d, c, 100, 0);
  }

  lemma LastMixed(x: nat, c: nat)
    requires c == 200 && (x == 100 || x == 156)
    ensures ((100 + 0) % 256) % c == 100 && ((x + 100) % 256) % c == 0
  {}
}
