/** `mergeElements` and `mergeObjects` of pkg/jy2struct: a list of JSON or YAML values is folded
    into one value that shows the shape of all of them.  The two functions call each other on
    their own results; what makes that end is a bound on the size of these results. */
module JsonMerge {

  /** A decoded document.  `kind` is the Go type of a scalar; `anyKeys` tells a
      `map[interface{}]interface{}` from a `map[string]interface{}`. */
  datatype Json =
    | Null
    | Scalar(kind: string, text: string)
    | Arr(elems: seq<Json>)
    | Obj(anyKeys: bool, fields: map<string, Json>)

  /** Equality of `reflect.TypeOf`. */
  predicate SameType(a: Json, b: Json) {
    match (a, b)
    case (Null, Null) => true
    case (Scalar(j, _), Scalar(k, _)) => j == k
    case (Arr(_), Arr(_)) => true
    case (Obj(j, _), Obj(k, _)) => j == k
    case _ => false
  }

  // ---------- size ----------

  ghost function Total(m: map<string, nat>): nat
    decreases |m|
  {
    if m == map[] then 0
    else
      var k :| k in m;
      assert |m - {k}| < |m| by { assert (m - {k}).Keys == m.Keys - {k}; }
      m[k] + Total(m - {k})
  }

  ghost function Sizes(j: Json): map<string, nat>
    requires j.Obj?
    decreases j, 0
  {
    map k | k in j.fields :: Size(j.fields[k])
  }

  ghost function Size(j: Json): (n: nat)
    ensures n >= 1
    decreases j
  {
    match j
    case Null => 1
    case Scalar(_, _) => 1
    case Arr(es) => 1 + SizeAll(es)
    case Obj(_, _) => 1 + Total(Sizes(j))
  }

  ghost function SizeAll(es: seq<Json>): nat
    decreases es
  {
    if es == [] then 0 else Size(es[0]) + SizeAll(es[1..])
  }

  lemma {:induction false} TotalRemove(m: map<string, nat>, k: string)
    requires k in m
    ensures Total(m) == m[k] + Total(m - {k})
    decreases |m|
  {
    var j :| j in m && Total(m) == m[j] + Total(m - {j});
    if j != k {
      assert (m - {j}).Keys == m.Keys - {j};
      assert (m - {k}).Keys == m.Keys - {k};
      TotalRemove(m - {j}, k);
      TotalRemove(m - {k}, j);
      assert m - {j} - {k} == m - {k} - {j};
    }
  }

  function At(m: map<string, nat>, k: string): nat {
    if k in m then m[k] else 0
  }

  /** A map bounded key by key by two others has at most the total of both. */
  lemma {:induction false} TotalBound(r: map<string, nat>, a: map<string, nat>, b: map<string, nat>)
    requires forall k <- r :: (k in a || k in b) && r[k] <= At(a, k) + At(b, k)
    ensures Total(r) <= Total(a) + Total(b)
    decreases |r|
  {
    if r != map[] {
      var k :| k in r;
      var r', a', b' := r - {k}, a - {k}, b - {k};
      assert r'.Keys == r.Keys - {k};
      TotalBound(r', a', b');
      TotalRemove(r, k);
      if k in a { TotalRemove(a, k); } else { assert a' == a; }
      if k in b { TotalRemove(b, k); } else { assert b' == b; }
    }
  }

  lemma FieldSmaller(j: Json, k: string)
    requires j.Obj? && k in j.fields
    ensures Size(j.fields[k]) < Size(j)
  {
    TotalRemove(Sizes(j), k);
  }

  lemma {:induction false} SizeAllAppend(a: seq<Json>, b: seq<Json>)
    ensures SizeAll(a + b) == SizeAll(a) + SizeAll(b)
    decreases |a|
  {
    if a == [] {
      assert a + b == b;
    } else {
      assert (a + b)[1..] == a[1..] + b;
      SizeAllAppend(a[1..], b);
    }
  }

  // ---------- the merge ----------

  /** `mergeObjects`, as a value.  The result is never larger than what went in. */
  function Merge(a: Json, b: Json): (r: Json)
    ensures Size(r) <= Size(a) + Size(b)
    decreases Size(a) + Size(b), 0, 1
  {
    if a.Null? then b
    else if b.Null? then a
    else if !SameType(a, b) then Null
    else
      match a
      case Scalar(_, _) => a
      case Arr(es) =>
        SizeAllAppend(es, b.elems);
        Arr(MergeAll(es + b.elems))
      case Obj(any, _) =>
        var fields := MergeFields(a, b);
        MergedSize(a, b, fields);
        Obj(any, fields)
  }

  function MergeFields(a: Json, b: Json): (fields: map<string, Json>)
    requires a.Obj? && b.Obj?
    ensures fields.Keys == a.fields.Keys + b.fields.Keys
    ensures forall k <- fields :: Size(fields[k]) <= SizeAt(a, k) + SizeAt(b, k)
    decreases Size(a) + Size(b), 0, 0
  {
    map k | k in a.fields.Keys + b.fields.Keys ::
      if k !in b.fields then a.fields[k]
      else if k !in a.fields then b.fields[k]
      else
        FieldSmaller(a, k);
        FieldSmaller(b, k);
        Merge(a.fields[k], b.fields[k])
  }

  ghost function SizeAt(j: Json, k: string): nat
    requires j.Obj?
  {
    At(Sizes(j), k)
  }

  lemma MergedSize(a: Json, b: Json, fields: map<string, Json>)
    requires a.Obj? && b.Obj? && fields.Keys == a.fields.Keys + b.fields.Keys
    requires forall k <- fields :: Size(fields[k]) <= SizeAt(a, k) + SizeAt(b, k)
    ensures Size(Obj(a.anyKeys, fields)) <= Size(a) + Size(b)
  {
    TotalBound(Sizes(Obj(a.anyKeys, fields)), Sizes(a), Sizes(b));
  }

  /** `mergeElements` on a list: everything folded into the first element. */
  function MergeAll(es: seq<Json>): (r: seq<Json>)
    ensures SizeAll(r) <= SizeAll(es)
    decreases SizeAll(es), |es| + 1, 0
  {
    if es == [] then [] else [Fold(es[0], es[1..])]
  }

  function Fold(acc: Json, es: seq<Json>): (r: Json)
    ensures Size(r) <= Size(acc) + SizeAll(es)
    decreases Size(acc) + SizeAll(es), |es|, 2
  {
    if es == [] then acc else Fold(Merge(acc, es[0]), es[1..])
  }

  /** `mergeElements`: the loop rewrites element 0 and the result is the slice that holds it. */
  method MergeElements(i: Json) returns (r: Json)
    ensures r == if i.Arr? then Arr(MergeAll(i.elems)) else i
    decreases Size(i), 1
  {
    if !i.Arr? {
      return i;
    }
    var elems := i.elems;
    var l := |elems|;
    if l == 0 {
      return i;
    }
    ghost var goal := Fold(elems[0], elems[1..]);
    for j := 1 to l
      invariant |elems| == l && elems[1..] == i.elems[1..]
      invariant Fold(elems[0], elems[j..]) == goal
      invariant Size(elems[0]) + SizeAll(elems[j..]) <= SizeAll(i.elems)
    {
      assert elems[j..][1..] == elems[j + 1..];
      var merged := MergeObjects(elems[0], elems[j]);
      ghost var rest := elems[j + 1..];
      elems := elems[0 := merged];
      assert elems[j + 1..] == rest;
    }
    return Arr(elems[0..1]);
  }

  /** `mergeObjects`.  Go iterates over the second map in an arbitrary order. */
  method MergeObjects(o1: Json, o2: Json) returns (r: Json)
    ensures r == Merge(o1, o2)
    decreases Size(o1) + Size(o2), 0
  {
    if o1.Null? {
      return o2;
    }
    if o2.Null? {
      return o1;
    }
    if !SameType(o1, o2) {
      return Null;
    }
    match o1 {
      case Scalar(_, _) => return o1;
      case Arr(es) =>
        SizeAllAppend(es, o2.elems);
        r := MergeElements(Arr(es + o2.elems));
      case Obj(any, fields) =>
        var i := fields;
        var todo := o2.fields.Keys;
        ghost var goal := MergeFields(o1, o2);
        while todo != {}
          invariant todo <= o2.fields.Keys
          invariant i.Keys == fields.Keys + (o2.fields.Keys - todo)
          invariant forall k <- i :: i[k] == if k in todo then fields[k] else goal[k]
          decreases todo
        {
          var k :| k in todo;
          if k in i {
            FieldSmaller(o1, k);
            FieldSmaller(o2, k);
            var v := MergeObjects(i[k], o2.fields[k]);
            i := i[k := v];
          } else {
            i := i[k := o2.fields[k]];
          }
          todo := todo - {k};
        }
        assert i == goal;
        return Obj(any, i);
    }
  }

  // ---------- what the merged value shows ----------

  lemma {:induction false} FoldAppend(acc: Json, p: seq<Json>, q: seq<Json>)
    ensures Fold(acc, p + q) == Fold(Fold(acc, p), q)
    decreases |p|
  {
    if p == [] {
      assert p + q == q;
    } else {
      assert (p + q)[1..] == p[1..] + q;
      FoldAppend(Merge(acc, p[0]), p[1..], q);
    }
  }

  /** Objects of one kind, and nulls. */
  predicate Objects(any: bool, es: seq<Json>) {
    forall i :: 0 <= i < |es| ==> ObjectOrNull(any, es[i])
  }

  predicate ObjectOrNull(any: bool, j: Json) {
    j.Null? || (j.Obj? && j.anyKeys == any)
  }

  function KeysOf(j: Json): set<string> {
    if j.Obj? then j.fields.Keys else {}
  }

  function AllKeys(es: seq<Json>): set<string> {
    if es == [] then {} else KeysOf(es[0]) + AllKeys(es[1..])
  }

  /** The values stored under one key, in list order. */
  function Column(k: string, es: seq<Json>): seq<Json> {
    if es == [] then [] else Cell(k, es[0]) + Column(k, es[1..])
  }

  function Cell(k: string, j: Json): seq<Json> {
    if j.Obj? && k in j.fields then [j.fields[k]] else []
  }

  lemma CellMerge(any: bool, k: string, a: Json, b: Json)
    requires ObjectOrNull(any, a) && ObjectOrNull(any, b)
    ensures Cell(k, Merge(a, b)) ==
      if Cell(k, a) == [] then Cell(k, b)
      else if Cell(k, b) == [] then Cell(k, a)
      else [Merge(Cell(k, a)[0], Cell(k, b)[0])]
  {
    if a.Obj? && b.Obj? {
      assert Merge(a, b).fields == MergeFields(a, b);
    }
  }

  /** `r` is `es` merged column by column: its keys are those of all objects together, and under
      each key stands the merge of everything that stood under it. */
  ghost predicate ByColumn(any: bool, es: seq<Json>, r: Json) {
    && ObjectOrNull(any, r)
    && KeysOf(r) == AllKeys(es)
    && forall k <- KeysOf(r) :: [r.fields[k]] == MergeAll(Column(k, es))
  }

  lemma {:induction false} FoldByColumn(any: bool, acc: Json, es: seq<Json>)
    requires ObjectOrNull(any, acc) && Objects(any, es)
    ensures ByColumn(any, [acc] + es, Fold(acc, es))
    decreases |es|
  {
    if es == [] {
      OneByColumn(any, acc);
      assert [acc] + es == [acc];
    } else {
      FoldByColumn(any, Merge(acc, es[0]), es[1..]);
      ByColumnStep(any, acc, es[0], es[1..], Fold(acc, es));
      assert [es[0]] + es[1..] == es;
    }
  }

  lemma OneByColumn(any: bool, a: Json)
    requires ObjectOrNull(any, a)
    ensures ByColumn(any, [a], a)
  {
    assert [a][1..] == [];
    forall k <- KeysOf(a)
      ensures [a.fields[k]] == MergeAll(Column(k, [a]))
    {
      assert Column(k, [a]) == [a.fields[k]] + Column(k, []);
    }
  }

  lemma ByColumnStep(any: bool, a: Json, b: Json, es: seq<Json>, r: Json)
    requires ObjectOrNull(any, a) && ObjectOrNull(any, b) && ByColumn(any, [Merge(a, b)] + es, r)
    ensures ByColumn(any, [a] + ([b] + es), r)
  {
    KeysStep(any, a, b, es);
    forall k {
      ColumnStep(any, k, a, b, es);
    }
    ByColumnSame(any, [Merge(a, b)] + es, [a] + ([b] + es), r);
  }

  lemma ByColumnSame(any: bool, p: seq<Json>, q: seq<Json>, r: Json)
    requires ByColumn(any, p, r) && AllKeys(p) == AllKeys(q)
    requires forall k :: MergeAll(Column(k, p)) == MergeAll(Column(k, q))
    ensures ByColumn(any, q, r)
  {
  }

  lemma KeysStep(any: bool, a: Json, b: Json, es: seq<Json>)
    requires ObjectOrNull(any, a) && ObjectOrNull(any, b)
    ensures AllKeys([Merge(a, b)] + es) == AllKeys([a] + ([b] + es))
  {
    var m := Merge(a, b);
    assert ([m] + es)[1..] == es && ([b] + es)[1..] == es && ([a] + ([b] + es))[1..] == [b] + es;
    assert KeysOf(m) == KeysOf(a) + KeysOf(b);
  }

  lemma ColumnStep(any: bool, k: string, a: Json, b: Json, es: seq<Json>)
    requires ObjectOrNull(any, a) && ObjectOrNull(any, b)
    ensures MergeAll(Column(k, [Merge(a, b)] + es)) == MergeAll(Column(k, [a] + ([b] + es)))
  {
    var m, c, ca, cb := Merge(a, b), Column(k, es), Cell(k, a), Cell(k, b);
    CellMerge(any, k, a, b);
    assert ([m] + es)[1..] == es && ([b] + es)[1..] == es && ([a] + ([b] + es))[1..] == [b] + es;
    if ca != [] && cb != [] {
      assert (Cell(k, m) + c)[1..] == c && (ca + (cb + c))[1..] == cb + c && (cb + c)[1..] == c;
    } else {
      assert Cell(k, m) + c == ca + (cb + c);
    }
  }

  /** The key-set promise for a list of objects, and the same for everything below the keys. */
  lemma ObjectsMerge(any: bool, es: seq<Json>)
    requires es != [] && Objects(any, es)
    ensures ByColumn(any, es, MergeAll(es)[0])
  {
    assert [es[0]] + es[1..] == es;
    FoldByColumn(any, es[0], es[1..]);
  }

  // ---------- mixed lists ----------

  /** All elements that are not null have one type. */
  predicate Uniform(es: seq<Json>) {
    forall i, j :: 0 <= i < j < |es| ==> es[i].Null? || es[j].Null? || SameType(es[i], es[j])
  }

  /** Merging keeps what it has exactly if there is no conflict of types; a conflict yields null,
      which the next value replaces. */
  lemma MergeKeepsIff(a: Json, b: Json)
    requires !a.Null?
    ensures SameType(Merge(a, b), a) <==> b.Null? || SameType(a, b)
    ensures !b.Null? && !SameType(a, b) ==> Merge(a, b) == Null
  {
  }

  lemma MergeAllSnoc(es: seq<Json>, x: Json)
    requires es != []
    ensures MergeAll(es + [x])[0] == Merge(MergeAll(es)[0], x)
  {
    assert (es + [x])[1..] == es[1..] + [x];
    FoldAppend(es[0], es[1..], [x]);
    assert Fold(MergeAll(es)[0], [x]) == Fold(Merge(MergeAll(es)[0], x), [x][1..]);
  }

  /** A list without conflict merges into a value of its type. */
  lemma {:induction false} UniformType(es: seq<Json>, i: nat)
    requires i < |es| && Uniform(es) && !es[i].Null?
    ensures SameType(MergeAll(es)[0], es[i])
    decreases |es|
  {
    if |es| > 1 {
      var front, last := es[..|es| - 1], es[|es| - 1];
      assert es == front + [last];
      MergeAllSnoc(front, last);
      assert forall j :: 0 <= j < |front| ==> front[j] == es[j];
      var r := MergeAll(front)[0];
      if j :| 0 <= j < |front| && !front[j].Null? {
        var k := if i < |front| then i else j;
        UniformType(front, k);
        assert front[k] == es[k] && (k != i ==> SameType(es[k], es[i]));
        if !last.Null? && k < |front| { assert SameType(es[k], es[|es| - 1]); }
        SameTypeTrans(r, es[k], last);
        MergeKeepsIff(r, last);
        SameTypeTrans(Merge(r, last), r, es[k]);
        SameTypeTrans(Merge(r, last), es[k], es[i]);
      } else {
        AllNull(front);
        SameTypeTrans(last, last, last);
      }
    } else {
      assert es[1..] == [] && i == 0;
      assert MergeAll(es)[0] == es[0];
      SameTypeTrans(es[0], es[0], es[0]);
    }
  }

  lemma SameTypeTrans(a: Json, b: Json, c: Json)
    ensures SameType(a, b) && SameType(b, c) ==> SameType(a, c)
    ensures SameType(a, a)
  {
  }

  lemma {:induction false} AllNull(es: seq<Json>)
    requires es != [] && forall j :: 0 <= j < |es| ==> es[j].Null?
    ensures MergeAll(es)[0] == Null
    decreases |es|
  {
    if |es| > 1 {
      var front := es[..|es| - 1];
      AllNull(front);
      MergeAllSnoc(front, es[|es| - 1]);
      assert es == front + [es[|es| - 1]];
    }
  }

  /** The result is the merge of the elements from `n` on, among which there is no conflict. */
  ghost predicate Forgets(es: seq<Json>, n: nat)
    requires es != []
  {
    && n <= |es| && Uniform(es[n..])
    && (n > 0 ==> MergeAll(es[..n])[0] == Null)
    && MergeAll(es)[0] == if n == |es| then Null else MergeAll(es[n..])[0]
  }

  /** In a list of mixed types everything up to the last conflict is forgotten: the result is the
      merge of the elements behind some point, behind which there is no conflict. */
  lemma {:induction false} LastConflict(es: seq<Json>) returns (n: nat)
    requires es != []
    ensures n <= |es| && Uniform(es[n..])
    ensures n > 0 ==> MergeAll(es[..n])[0] == Null
    ensures MergeAll(es)[0] == if n == |es| then Null else MergeAll(es[n..])[0]
    ensures Uniform(es) ==> n == 0
    decreases |es|
  {
    if |es| == 1 {
      assert es[0..] == es;
      return 0;
    }
    var front, last := es[..|es| - 1], es[|es| - 1];
    assert es == front + [last];
    n := LastConflict(front);
    UniformTail(es, front, n);
    UniformTail(es, es, n);
    assert es[n..] == front[n..] + [last];
    if n == |front| {
      AllForgotten(front, last);
    } else if Uniform(es[n..]) {
      GoesOn(front, last, n);
    } else {
      ConflictsNow(front, last, n);
      n := |es|;
    }
    assert Forgets(es, n);
  }

  lemma AllForgotten(front: seq<Json>, last: Json)
    requires front != [] && Forgets(front, |front|)
    ensures Forgets(front + [last], |front|)
  {
    var es := front + [last];
    MergeAllSnoc(front, last);
    MergeOne(last);
    assert es[|front|..] == [last] && es[..|front|] == front;
  }

  lemma GoesOn(front: seq<Json>, last: Json, n: nat)
    requires front != [] && Forgets(front, n) && n < |front| && Uniform(front[n..] + [last])
    ensures Forgets(front + [last], n)
  {
    var es := front + [last];
    MergeAllSnoc(front, last);
    MergeAllSnoc(front[n..], last);
    assert es[n..] == front[n..] + [last] && es[..n] == front[..n];
  }

  lemma ConflictsNow(front: seq<Json>, last: Json, n: nat)
    requires front != [] && Forgets(front, n) && n < |front| && !Uniform(front[n..] + [last])
    ensures Forgets(front + [last], |front| + 1)
  {
    var es := front + [last];
    MergeAllSnoc(front, last);
    ConflictWithLast(front[n..], last);
    assert es[..|es|] == es && es[|es|..] == [];
  }

  lemma MergeOne(x: Json)
    ensures MergeAll([x])[0] == x && Merge(Null, x) == x && Uniform([x])
  {
    assert [x][1..] == [];
  }

  lemma UniformTail(es: seq<Json>, front: seq<Json>, n: nat)
    requires n <= |front| && front <= es
    ensures Uniform(es) ==> Uniform(front) && Uniform(front[n..])
  {
    assert forall i :: 0 <= i < |front| ==> front[i] == es[i];
  }

  lemma ConflictWithLast(u: seq<Json>, last: Json)
    requires u != [] && Uniform(u) && !Uniform(u + [last])
    ensures Merge(MergeAll(u)[0], last) == Null
  {
    var es := u + [last];
    var i, j :| 0 <= i < j < |es| && !es[i].Null? && !es[j].Null? && !SameType(es[i], es[j]);
    assert u == es[..|u|];
    assert j == |u|;
    UniformType(u, i);
  }

  function One(k: string, j: Json): Json {
    Obj(false, map[k := j])
  }

  lemma OneMerge(k: string, x: Json, y: Json)
    ensures Merge(One(k, x), One(k, y)) == One(k, Merge(x, y))
  {
    assert MergeFields(One(k, x), One(k, y)) == map[k := Merge(x, y)];
  }

  lemma MergeThree(a: Json, b: Json, c: Json)
    ensures MergeAll([a, b, c]) == [Merge(Merge(a, b), c)]
  {
    assert [a, b, c][1..] == [b, c] && [b, c][1..] == [c] && [c][1..] == [];
    calc {
      Fold(a, [b, c]);
      Fold(Merge(a, b), [c]);
      Fold(Merge(Merge(a, b), c), []);
      Merge(Merge(a, b), c);
    }
  }

  /** The loss is real and reaches lists of objects, which is all the caller's own test for one
      type lets through: whatever `x` showed under the key is gone. */
  lemma KeysForgotten(k: string, x: Json, y: Json, z: Json)
    requires !x.Null? && !y.Null? && !SameType(x, y)
    ensures Objects(false, [One(k, x), One(k, y), One(k, z)])
    ensures MergeAll([One(k, x), One(k, y), One(k, z)]) == [One(k, z)]
  {
    OneMerge(k, x, y);
    OneMerge(k, Null, z);
    MergeThree(One(k, x), One(k, y), One(k, z));
  }

  // ---------- the type of a merged value ----------

  /** What `reflect.TypeOf` tells apart. */
  datatype GoType = NilType | Basic(kind: string) | SliceType | StringMap | AnyMap

  function TypeOf(j: Json): GoType {
    match j
    case Null => NilType
    case Scalar(kind, _) => Basic(kind)
    case Arr(_) => SliceType
    case Obj(anyKeys, _) => if anyKeys then AnyMap else StringMap
  }

  /** Null gives way to the other value, equal types stay, and different ones become null. */
  lemma MergedType(a: Json, b: Json)
    ensures TypeOf(Merge(a, b)) ==
            if a.Null? then TypeOf(b)
            else if b.Null? || TypeOf(a) == TypeOf(b) then TypeOf(a) else NilType
  {
    assert SameType(a, b) <==> TypeOf(a) == TypeOf(b);
  }

  // ---------- which scalar is shown ----------

  /** The first value of a list that is not null. */
  function First(es: seq<Json>): Json {
    if es == [] then Null else if es[0].Null? then First(es[1..]) else es[0]
  }

  lemma {:induction false} ScalarStays(a: Json, es: seq<Json>)
    requires a.Scalar? && forall e <- es :: e.Null? || (e.Scalar? && e.kind == a.kind)
    ensures Fold(a, es) == a
    decreases |es|
  {
    if es != [] {
      assert es[0] in es;
      ScalarStays(a, es[1..]);
    }
  }

  lemma {:induction false} ScalarAfterNulls(es: seq<Json>, kind: string)
    requires forall e <- es :: e.Null? || (e.Scalar? && e.kind == kind)
    ensures Fold(Null, es) == First(es)
    decreases |es|
  {
    if es != [] {
      assert es[0] in es;
      if es[0].Null? { ScalarAfterNulls(es[1..], kind); } else { ScalarStays(es[0], es[1..]); }
    }
  }

  /** A list of scalars of one type, and of nulls, shows the first scalar. */
  lemma FirstScalar(es: seq<Json>, kind: string)
    requires es != [] && forall e <- es :: e.Null? || (e.Scalar? && e.kind == kind)
    ensures MergeAll(es) == [First(es)]
  {
    assert es[0] in es;
    if es[0].Null? { ScalarAfterNulls(es[1..], kind); } else { ScalarStays(es[0], es[1..]); }
  }

  // ---------- nothing lost, exactly ----------

  /** One step into a document: a field, or the elements of a list. */
  datatype Step = Key(k: string) | Elem

  function Elems(es: seq<Json>): seq<Json> {
    if es == [] then [] else (if es[0].Arr? then es[0].elems else []) + Elems(es[1..])
  }

  function Down(es: seq<Json>, step: Step): seq<Json> {
    match step
    case Key(k) => Column(k, es)
    case Elem => Elems(es)
  }

  /** All values that stand at a path in one of the documents. */
  function Along(es: seq<Json>, path: seq<Step>): seq<Json>
    decreases |path|
  {
    if path == [] then es else Along(Down(es, path[0]), path[1..])
  }

  /** Every type that occurs at the path in `es` occurs there in `r`. */
  ghost predicate ShownAt(es: seq<Json>, r: Json, path: seq<Step>) {
    forall x <- Along(es, path) :: x.Null? || exists y <- Along([r], path) :: SameType(y, x)
  }

  function Live(es: seq<Json>): seq<Json> {
    if es == [] then [] else (if es[0].Null? then [] else [es[0]]) + Live(es[1..])
  }

  /** No conflict of types among values that are merged, at any depth.  A value that meets only
      nulls is not merged with anything. */
  ghost predicate Harmony(es: seq<Json>)
    decreases SizeAll(es)
  {
    |Live(es)| <= 1 ||
    (DownSmaller(es, Elem);
     && Uniform(es)
     && (forall k <- AllKeys(es) :: (DownSmaller(es, Key(k)); Harmony(Column(k, es))))
     && Harmony(Elems(es)))
  }

  lemma {:induction false} DownSize(es: seq<Json>, step: Step)
    ensures SizeAll(Down(es, step)) + |es| <= SizeAll(es)
    decreases |es|
  {
    if es != [] {
      var e := es[0];
      DownSize(es[1..], step);
      match step
      case Key(k) =>
        if Cell(k, e) != [] {
          FieldSmaller(e, k);
          assert Cell(k, e)[1..] == [];
        }
        SizeAllAppend(Cell(k, e), Column(k, es[1..]));
      case Elem =>
        SizeAllAppend(if e.Arr? then e.elems else [], Elems(es[1..]));
    }
  }

  lemma DownSmaller(es: seq<Json>, step: Step)
    ensures es != [] ==> SizeAll(Down(es, step)) < SizeAll(es)
  {
    DownSize(es, step);
  }

  // nulls

  lemma {:induction false} FoldLive(acc: Json, es: seq<Json>)
    ensures Fold(acc, es) == Fold(acc, Live(es))
    decreases |es|
  {
    if es != [] {
      FoldLive(Merge(acc, es[0]), es[1..]);
      if es[0].Null? {
        assert Live(es) == Live(es[1..]) && Merge(acc, es[0]) == acc;
      } else {
        assert Live(es)[1..] == Live(es[1..]);
      }
    }
  }

  lemma MergeLive(es: seq<Json>)
    requires es != []
    ensures MergeAll(es)[0] == if Live(es) == [] then Null else Fold(Live(es)[0], Live(es)[1..])
  {
    FoldLive(es[0], es[1..]);
    if es[0].Null? {
      var t := Live(es[1..]);
      assert Live(es) == t;
      if t != [] { assert Merge(Null, t[0]) == t[0]; }
    } else {
      assert Live(es)[1..] == Live(es[1..]);
    }
  }

  lemma {:induction false} DownLive(es: seq<Json>, step: Step)
    ensures Down(es, step) == Down(Live(es), step)
    decreases |es|
  {
    if es != [] {
      DownLive(es[1..], step);
      if !es[0].Null? {
        DownFirst(es[0], es[1..], Live(es[1..]), step);
        assert es == [es[0]] + es[1..];
      } else {
        assert Live(es) == Live(es[1..]) && Down(es, step) == Down(es[1..], step);
      }
    }
  }

  lemma DownFirst(x: Json, a: seq<Json>, b: seq<Json>, step: Step)
    requires Down(a, step) == Down(b, step)
    ensures Down([x] + a, step) == Down([x] + b, step)
  {
    assert ([x] + a)[1..] == a && ([x] + b)[1..] == b;
  }

  lemma {:induction false} LiveAre(es: seq<Json>, x: Json)
    ensures x in Live(es) <==> x in es && !x.Null?
    decreases |es|
  {
    if es != [] { LiveAre(es[1..], x); }
  }

  lemma {:induction false} AlongNone(path: seq<Step>)
    ensures Along([], path) == []
    decreases |path|
  {
    if path != [] { AlongNone(path[1..]); }
  }

  // lists

  lemma Absorb(a: seq<Json>, b: seq<Json>)
    ensures MergeAll(MergeAll(a) + b) == MergeAll(a + b)
  {
    if a == [] {
      assert [] + b == b;
    } else {
      FoldAppend(a[0], a[1..], b);
      assert (a + b)[1..] == a[1..] + b && (MergeAll(a) + b)[1..] == b;
    }
  }

  predicate ListsOrNull(es: seq<Json>) {
    forall i :: 0 <= i < |es| ==> es[i].Null? || es[i].Arr?
  }

  lemma {:induction false} FoldLists(xs: seq<Json>, es: seq<Json>)
    requires ListsOrNull(es)
    ensures Fold(Arr(xs), es) == Arr(if Live(es) == [] then xs else MergeAll(xs + Elems(es)))
    decreases |es|
  {
    if es != [] {
      if es[0].Null? {
        FoldLists(xs, es[1..]);
        assert Live(es) == Live(es[1..]) && Elems(es) == Elems(es[1..]);
      } else {
        FoldLists(MergeAll(xs + es[0].elems), es[1..]);
        ListInFront(xs, es[0].elems, es[1..]);
        assert es == [es[0]] + es[1..];
      }
    }
  }

  lemma ListInFront(xs: seq<Json>, ys: seq<Json>, t: seq<Json>)
    ensures Live([Arr(ys)] + t) != []
    ensures MergeAll(xs + Elems([Arr(ys)] + t)) ==
      if Live(t) == [] then MergeAll(xs + ys) else MergeAll(MergeAll(xs + ys) + Elems(t))
  {
    var es := [Arr(ys)] + t;
    assert es[0] == Arr(ys) && es[1..] == t;
    assert Live(es) == [Arr(ys)] + Live(t) && Elems(es) == ys + Elems(t);
    assert xs + (ys + Elems(t)) == (xs + ys) + Elems(t);
    if Live(t) == [] {
      NoElems(t);
      assert ys + [] == ys;
    } else {
      Absorb(xs + ys, Elems(t));
    }
  }

  lemma {:induction false} NoElems(es: seq<Json>)
    requires Live(es) == []
    ensures Elems(es) == []
    decreases |es|
  {
    if es != [] { NoElems(es[1..]); }
  }

  /** Two or more lists merge into the merge of all their elements. */
  lemma ListsMerge(es: seq<Json>)
    requires es != [] && ListsOrNull(es) && |Live(es)| >= 2
    ensures MergeAll(es)[0] == Arr(MergeAll(Elems(es)))
  {
    MergeLive(es);
    var t := Live(es);
    LiveLists(es);
    FoldLists(t[0].elems, t[1..]);
    LiveTwice(t[1..]);
    DownLive(es, Elem);
    assert Elems(t) == t[0].elems + Elems(t[1..]);
  }

  lemma {:induction false} LiveLists(es: seq<Json>)
    requires ListsOrNull(es)
    ensures forall i :: 0 <= i < |Live(es)| ==> Live(es)[i].Arr?
    decreases |es|
  {
    if es != [] { LiveLists(es[1..]); }
  }

  lemma {:induction false} LiveTwice(es: seq<Json>)
    requires es != [] && forall i :: 0 <= i < |es| ==> !es[i].Null?
    ensures Live(es) != []
  {
  }

  // one level down

  lemma ColumnOfOne(k: string, r: Json)
    ensures Column(k, [r]) == Cell(k, r) && Elems([r]) == if r.Arr? then r.elems else []
  {
    assert [r][1..] == [];
  }

  /** Below merged values stands the merge of what stood below. */
  lemma DownMerged(es: seq<Json>, step: Step)
    requires Uniform(es) && |Live(es)| >= 2 && Down(es, step) != []
    ensures Down([MergeAll(es)[0]], step) == MergeAll(Down(es, step))
  {
    var r := MergeAll(es)[0];
    var i := Carrier(es, step);
    match step
    case Key(k) =>
      forall j | 0 <= j < |es|
        ensures ObjectOrNull(es[i].anyKeys, es[j])
      {
        if j < i { assert es[j].Null? || es[i].Null? || SameType(es[j], es[i]); }
        if i < j { assert es[i].Null? || es[j].Null? || SameType(es[i], es[j]); }
      }
      ObjectsMerge(es[i].anyKeys, es);
      UniformType(es, i);
      KeyAmong(es, i, k);
      ColumnOfOne(k, r);
    case Elem =>
      forall j | 0 <= j < |es|
        ensures es[j].Null? || es[j].Arr?
      {
        if j < i { assert es[j].Null? || es[i].Null? || SameType(es[j], es[i]); }
        if i < j { assert es[i].Null? || es[j].Null? || SameType(es[i], es[j]); }
      }
      ListsMerge(es);
      ColumnOfOne("", r);
  }

  predicate Carries(e: Json, step: Step) {
    if step.Key? then e.Obj? && step.k in e.fields else e.Arr?
  }

  lemma {:induction false} NoneCarries(es: seq<Json>, step: Step)
    requires forall i :: 0 <= i < |es| ==> !Carries(es[i], step)
    ensures Down(es, step) == []
    decreases |es|
  {
    if es != [] {
      NoneCarries(es[1..], step);
      assert !Carries(es[0], step);
    }
  }

  /** An element that something stands below. */
  lemma Carrier(es: seq<Json>, step: Step) returns (i: nat)
    requires Down(es, step) != []
    ensures i < |es| && Carries(es[i], step)
  {
    if j: nat :| j < |es| && Carries(es[j], step) {
      i := j;
    } else {
      i := 0;
      NoneCarries(es, step);
    }
  }

  lemma {:induction false} KeyAmong(es: seq<Json>, i: nat, k: string)
    requires i < |es| && es[i].Obj? && k in es[i].fields
    ensures k in AllKeys(es)
    decreases |es|
  {
    if i > 0 {
      assert es[1..][i - 1] == es[i];
      KeyAmong(es[1..], i - 1, k);
    }
  }

  lemma {:induction false} ColumnNotEmpty(es: seq<Json>, k: string)
    ensures k in AllKeys(es) <==> Column(k, es) != []
    decreases |es|
  {
    if es != [] { ColumnNotEmpty(es[1..], k); }
  }

  // the theorem

  lemma AloneIsShown(es: seq<Json>, path: seq<Step>)
    requires es != [] && |Live(es)| <= 1
    ensures ShownAt(es, MergeAll(es)[0], path)
    ensures Along(es, path) != [] ==> Along([MergeAll(es)[0]], path) != []
  {
    var r := MergeAll(es)[0];
    MergeLive(es);
    if path == [] {
      forall x <- es
        ensures x.Null? || (r in [r] && SameType(r, x))
      {
        LiveAre(es, x);
        SameTypeTrans(x, x, x);
      }
    } else {
      DownLive(es, path[0]);
      assert Live(es) != [] ==> Live(es) == [r];
      ColumnOfOne(if path[0].Key? then path[0].k else "", r);
      forall x <- Along(es, path) {
        SameTypeTrans(x, x, x);
      }
    }
  }

  lemma {:induction false} HarmonyShows(es: seq<Json>, path: seq<Step>)
    requires es != [] && Harmony(es)
    ensures ShownAt(es, MergeAll(es)[0], path)
    ensures Along(es, path) != [] ==> Along([MergeAll(es)[0]], path) != []
    decreases |path|
  {
    var r := MergeAll(es)[0];
    if |Live(es)| <= 1 {
      AloneIsShown(es, path);
    } else if path == [] {
      forall x <- es
        ensures x.Null? || (r in [r] && SameType(r, x))
      {
        var i :| 0 <= i < |es| && es[i] == x;
        if !x.Null? { UniformType(es, i); }
      }
    } else {
      var below := Down(es, path[0]);
      if below == [] {
        AlongNone(path[1..]);
      } else {
        DownMerged(es, path[0]);
        if path[0].Key? { ColumnNotEmpty(es, path[0].k); }
        HarmonyShows(below, path[1..]);
        assert [MergeAll(below)[0]] == MergeAll(below);
      }
    }
  }

  lemma {:induction false} DisharmonyHides(es: seq<Json>) returns (path: seq<Step>)
    requires es != [] && !Harmony(es)
    ensures !ShownAt(es, MergeAll(es)[0], path)
    decreases SizeAll(es)
  {
    var r := MergeAll(es)[0];
    if !Uniform(es) {
      var i, j :| 0 <= i < j < |es| && !es[i].Null? && !es[j].Null? && !SameType(es[i], es[j]);
      path := [];
      assert es[i] in es && es[j] in es;
      TwoTypes(r, es[i], es[j]);
      assert forall y <- Along([r], path) :: y == r;
    } else {
      var step := DisharmonyBelow(es);
      DownSmaller(es, step);
      var p := DisharmonyHides(Down(es, step));
      path := [step] + p;
      DownMerged(es, step);
      assert path[1..] == p && path[0] == step;
      assert [MergeAll(Down(es, step))[0]] == MergeAll(Down(es, step));
    }
  }

  lemma DisharmonyBelow(es: seq<Json>) returns (step: Step)
    requires es != [] && !Harmony(es) && Uniform(es)
    ensures |Live(es)| >= 2 && Down(es, step) != [] && !Harmony(Down(es, step))
  {
    if k :| k in AllKeys(es) && !Harmony(Column(k, es)) {
      step := Key(k);
      ColumnNotEmpty(es, k);
    } else {
      step := Elem;
      assert Live([]) == [];
    }
  }

  lemma TwoTypes(r: Json, x: Json, y: Json)
    requires !SameType(x, y)
    ensures !SameType(r, x) || !SameType(r, y)
  {
    SameTypeTrans(x, r, y);
  }

  /** Merging loses no type and no path exactly if the values are in harmony. */
  lemma MergeShowsIff(es: seq<Json>)
    requires es != []
    ensures (forall path :: ShownAt(es, MergeAll(es)[0], path)) <==> Harmony(es)
    ensures Harmony(es) ==> forall path :: Along(es, path) != [] ==> Along([MergeAll(es)[0]], path) != []
  {
    if Harmony(es) {
      forall path {
        HarmonyShows(es, path);
      }
    } else {
      var path := DisharmonyHides(es);
    }
  }
}
