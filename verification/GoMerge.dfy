/** Merging generated Go code into existing code (pkg/goast), on the level of parsed declarations:
    one pass puts new methods behind the last method of their struct, one replaces bodies, one
    appends what is still missing.  Together they have to bring in every function once. */
module GoMerge {
  import opened Wrappers
  import opened Text

  datatype Kind = Package | Import | Const | Var | Type | Func

  /** The text of a declaration, and the comment in front of it, which may be empty. */
  datatype Body = Body(comment: string, text: string)

  /** `AstInfo`.  A method has two names, its own and that of its receiver. */
  datatype Decl = Decl(kind: Kind, names: seq<string>, body: Body)

  function GetName(d: Decl): string {
    Join(d.names, ",")
  }

  /** Functions that may occur any number of times in one package. */
  predicate Special(names: seq<string>) {
    names == ["init"] || names == ["_"]
  }

  predicate MethodOf(d: Decl, s: string) {
    d.kind.Func? && |d.names| == 2 && d.names[1] == s
  }

  predicate HasMethods(ds: seq<Decl>, s: string) {
    exists i :: 0 <= i < |ds| && MethodOf(ds[i], s)
  }

  predicate HasName(ds: seq<Decl>, name: string) {
    exists i :: 0 <= i < |ds| && GetName(ds[i]) == name
  }

  /** The bodies of the functions with these names, in order. */
  function Bodies(ds: seq<Decl>, names: seq<string>): seq<Body> {
    if ds == [] then []
    else BodyOf(ds[0], names) + Bodies(ds[1..], names)
  }

  function BodyOf(d: Decl, names: seq<string>): seq<Body> {
    if d.kind.Func? && d.names == names then [d.body] else []
  }

  predicate NamesOk(d: Decl) {
    d.kind.Func? ==> 1 <= |d.names| <= 2 && forall n <- d.names :: ',' !in n
  }

  /** What a file of a compiling package looks like. */
  ghost predicate Wellformed(ds: seq<Decl>) {
    && (forall i :: 0 <= i < |ds| ==> NamesOk(ds[i]))
    && (forall names :: !Special(names) ==> |Bodies(ds, names)| <= 1)
  }

  // ---------- methods of structs that have some already ----------

  function Methods(ds: seq<Decl>, s: string): seq<Decl> {
    if ds == [] then [] else (if MethodOf(ds[0], s) then [ds[0]] else []) + Methods(ds[1..], s)
  }

  /** The generated methods of `s` that the source does not have. */
  function New(src: seq<Decl>, gen: seq<Decl>, s: string): seq<Decl> {
    if gen == [] || !HasMethods(src, s) then []
    else (if MethodOf(gen[0], s) && Bodies(src, gen[0].names) == [] then [gen[0]] else [])
         + New(src, gen[1..], s)
  }

  predicate LastMethod(ds: seq<Decl>, i: nat, s: string)
    requires i < |ds|
  {
    MethodOf(ds[i], s) && !HasMethods(ds[i + 1..], s)
  }

  predicate InsertsAt(src: seq<Decl>, done: set<string>, i: nat)
    requires i < |src|
  {
    |src[i].names| == 2 && src[i].names[1] in done && LastMethod(src, i, src[i].names[1])
  }

  /** The source from `i` on, with the new methods of the structs in `done` put in. */
  function Weave(src: seq<Decl>, gen: seq<Decl>, done: set<string>, i: nat): seq<Decl>
    requires i <= |src|
    decreases |src| - i
  {
    if i == |src| then []
    else [src[i]] + More(src, gen, done, i) + Weave(src, gen, done, i + 1)
  }

  /** What is put in behind declaration `i`. */
  function More(src: seq<Decl>, gen: seq<Decl>, done: set<string>, i: nat): seq<Decl>
    requires i < |src|
  {
    if InsertsAt(src, done, i) then New(src, gen, src[i].names[1]) else []
  }

  /** The keys of the map `ParseStructMethods` builds. */
  function Structs(ds: seq<Decl>): set<string> {
    if ds == [] then {}
    else
      var d := ds[|ds| - 1];
      Structs(ds[..|ds| - 1]) + if d.kind.Func? && |d.names| == 2 then {d.names[1]} else {}
  }

  lemma {:induction false} StructsAre(ds: seq<Decl>, s: string)
    ensures s in Structs(ds) <==> HasMethods(ds, s)
  {
    if ds != [] {
      var front, d := ds[..|ds| - 1], ds[|ds| - 1];
      StructsAre(front, s);
      if HasMethods(ds, s) {
        var i :| 0 <= i < |ds| && MethodOf(ds[i], s);
        if i < |front| { assert front[i] == ds[i]; }
      }
      if HasMethods(front, s) {
        var i :| 0 <= i < |front| && MethodOf(front[i], s);
        assert ds[i] == front[i];
      }
      if MethodOf(d, s) { assert ds[|ds| - 1] == d; }
    }
  }

  function Woven(src: seq<Decl>, gen: seq<Decl>): seq<Decl> {
    Weave(src, gen, Structs(gen), 0)
  }

  /** `strings.Replace` of the text of `d` by that text and `more` behind it. */
  function InsertBehind(code: seq<Decl>, d: Decl, more: seq<Decl>): seq<Decl> {
    if code == [] then []
    else if code[0] == d then [d] + more + code[1..]
    else [code[0]] + InsertBehind(code[1..], d, more)
  }

  // ---------- replacing bodies ----------

  predicate Coverable(g: Decl, ignore: set<string>) {
    && g.kind.Func? && !Special(g.names)
    && (if |g.names| == 2 then g.names[0] else GetName(g)) !in ignore
  }

  /** The generated text instead of that of the source; its comment only where there was none. */
  function Over(own: Body, generated: Body): Body {
    Body(if own.comment == "" then generated.comment else own.comment, generated.text)
  }

  function Overs(own: seq<Body>, generated: seq<Body>): seq<Body> {
    if own == [] || generated == [] then [] else [Over(own[0], generated[0])]
  }

  function CoverBody(gens: seq<Decl>, ignore: set<string>, d: Decl): Body {
    if gens == [] then d.body
    else
      var g := gens[|gens| - 1];
      if Coverable(g, ignore) && g.names == d.names then Over(d.body, g.body)
      else CoverBody(gens[..|gens| - 1], ignore, d)
  }

  function CoverOne(src: seq<Decl>, gens: seq<Decl>, ignore: set<string>, d: Decl): Decl {
    if d.kind.Func? && d in src then d.(body := CoverBody(gens, ignore, d)) else d
  }

  function CoverAll(src: seq<Decl>, gens: seq<Decl>, ignore: set<string>, code: seq<Decl>): (r: seq<Decl>)
    ensures |r| == |code|
  {
    if code == [] then [] else [CoverOne(src, gens, ignore, code[0])] + CoverAll(src, gens, ignore, code[1..])
  }

  function ReplaceFirst(code: seq<Decl>, d: Decl, instead: Decl): seq<Decl> {
    if code == [] then []
    else if code[0] == d then [instead] + code[1..]
    else [code[0]] + ReplaceFirst(code[1..], d, instead)
  }

  // ---------- appending the rest ----------

  predicate Shown(code: seq<Decl>, text: string) {
    exists i :: 0 <= i < |code| && Contains(code[i].body.comment + "\n" + code[i].body.text, text)
  }

  /** A function is appended unless its struct was merged or a declaration of the source has its
      name; `init` and `_` are appended unless their text is there. */
  predicate Missing(src: seq<Decl>, code: seq<Decl>, merged: set<string>, g: Decl) {
    && g.kind.Func?
    && !(|g.names| == 2 && g.names[1] in merged)
    && (HasName(src, GetName(g)) ==> (GetName(g) == "_" || GetName(g) == "init") && !Shown(code, g.body.text))
  }

  function Appended(src: seq<Decl>, code: seq<Decl>, merged: set<string>, gen: seq<Decl>): seq<Decl> {
    if gen == [] then []
    else (if Missing(src, code, merged, gen[0]) then [gen[0]] else []) + Appended(src, code, merged, gen[1..])
  }

  function MergedStructs(src: seq<Decl>, gen: seq<Decl>): set<string> {
    MergedAmong(src, gen, Structs(gen))
  }

  function MergedAmong(src: seq<Decl>, gen: seq<Decl>, structs: set<string>): set<string> {
    set s | s in structs && New(src, gen, s) != []
  }

  lemma OneMoreMerged(src: seq<Decl>, gen: seq<Decl>, structs: set<string>, s: string)
    ensures MergedAmong(src, gen, structs + {s}) ==
            MergedAmong(src, gen, structs) + if New(src, gen, s) == [] then {} else {s}
  {}

  function Covered(src: seq<Decl>, gen: seq<Decl>, cover: bool, ignore: set<string>): seq<Decl> {
    if cover then CoverAll(src, gen, ignore, Woven(src, gen)) else Woven(src, gen)
  }

  function Merge(src: seq<Decl>, gen: seq<Decl>, cover: bool, ignore: set<string>): seq<Decl> {
    var code := Covered(src, gen, cover, ignore);
    code + Appended(src, code, MergedStructs(src, gen), gen)
  }

  // ---------- names ----------

  /** Among functions the joined name tells the names. */
  lemma SameName(a: Decl, b: Decl)
    requires a.kind.Func? && b.kind.Func? && NamesOk(a) && NamesOk(b)
    ensures GetName(a) == GetName(b) <==> a.names == b.names
  {
    JoinNames(a.names);
    JoinNames(b.names);
    assert a.names[0] in a.names && b.names[0] in b.names;
    if |a.names| == 2 && |b.names| == 2 && GetName(a) == GetName(b) {
      TwoNames(a.names[0], a.names[1], b.names[0], b.names[1]);
    } else if |a.names| == 2 {
      assert GetName(a)[|a.names[0]|] == ',';
    } else if |b.names| == 2 {
      assert GetName(b)[|b.names[0]|] == ',';
    }
  }

  lemma JoinNames(names: seq<string>)
    requires 1 <= |names| <= 2
    ensures Join(names, ",") == if |names| == 1 then names[0] else names[0] + "," + names[1]
  {
    if |names| == 2 {
      assert names[1..] == [names[1]];
    }
  }

  lemma TwoNames(a: string, b: string, c: string, d: string)
    requires ',' !in a && ',' !in c && a + "," + b == c + "," + d
    ensures a == c && b == d
  {
    var s, t := a + "," + b, c + "," + d;
    assert s[|a|] == ',' && t[|c|] == ',';
    assert forall k :: 0 <= k < |a| ==> s[k] == a[k] && a[k] in a;
    assert forall k :: 0 <= k < |c| ==> t[k] == c[k] && c[k] in c;
    assert |a| == |c|;
    assert s[..|a|] == a && t[..|c|] == c && s[|a| + 1..] == b && t[|c| + 1..] == d;
  }

  // ---------- counting ----------

  lemma {:induction false} BodiesAppend(a: seq<Decl>, b: seq<Decl>, names: seq<string>)
    ensures Bodies(a + b, names) == Bodies(a, names) + Bodies(b, names)
    decreases |a|
  {
    if a == [] {
      assert a + b == b;
    } else {
      assert (a + b)[1..] == a[1..] + b && (a + b)[0] == a[0];
      BodiesAppend(a[1..], b, names);
      Assoc(BodyOf(a[0], names), Bodies(a[1..], names), Bodies(b, names));
    }
  }

  lemma {:induction false} BodyIn(ds: seq<Decl>, i: nat)
    requires i < |ds| && ds[i].kind.Func?
    ensures ds[i].body in Bodies(ds, ds[i].names)
    decreases |ds|
  {
    if i > 0 {
      assert ds[i] == ds[1..][i - 1];
      BodyIn(ds[1..], i - 1);
    }
  }

  lemma {:induction false} FromBodies(ds: seq<Decl>, names: seq<string>) returns (i: nat)
    requires Bodies(ds, names) != []
    ensures i < |ds| && ds[i].kind.Func? && ds[i].names == names && ds[i].body == Bodies(ds, names)[0]
    decreases |ds|
  {
    if ds[0].kind.Func? && ds[0].names == names {
      i := 0;
    } else {
      var j := FromBodies(ds[1..], names);
      i := j + 1;
    }
  }

  lemma {:induction false} NewBodies(src: seq<Decl>, gen: seq<Decl>, s: string, names: seq<string>)
    ensures Bodies(New(src, gen, s), names) ==
      if |names| == 2 && names[1] == s && HasMethods(src, s) && Bodies(src, names) == []
      then Bodies(gen, names) else []
    decreases |gen|
  {
    if gen != [] && HasMethods(src, s) {
      NewBodies(src, gen[1..], s, names);
      var head := if MethodOf(gen[0], s) && Bodies(src, gen[0].names) == [] then [gen[0]] else [];
      BodiesAppend(head, New(src, gen[1..], s), names);
      assert head != [] ==> head[1..] == [];
    }
  }

  lemma HasMethodsTail(ds: seq<Decl>, i: nat, s: string)
    requires i < |ds|
    ensures HasMethods(ds[i..], s) <==> MethodOf(ds[i], s) || HasMethods(ds[i + 1..], s)
  {
    if HasMethods(ds[i..], s) {
      var j :| 0 <= j < |ds[i..]| && MethodOf(ds[i..][j], s);
      if j > 0 { assert ds[i + 1..][j - 1] == ds[i..][j]; }
    }
    if MethodOf(ds[i], s) { assert ds[i..][0] == ds[i]; }
    if HasMethods(ds[i + 1..], s) {
      var j :| 0 <= j < |ds[i + 1..]| && MethodOf(ds[i + 1..][j], s);
      assert ds[i..][j + 1] == ds[i + 1..][j];
    }
  }

  /** From `i` on, weaving brings in the generated function with these names. */
  predicate Brings(src: seq<Decl>, done: set<string>, i: nat, names: seq<string>)
    requires i <= |src|
  {
    && |names| == 2 && names[1] in done && Bodies(src, names) == []
    && HasMethods(src[i..], names[1]) && HasMethods(src, names[1])
  }

  predicate BringsAt(src: seq<Decl>, done: set<string>, i: nat, names: seq<string>)
    requires i < |src|
  {
    && |names| == 2 && InsertsAt(src, done, i) && names[1] == src[i].names[1]
    && HasMethods(src, names[1]) && Bodies(src, names) == []
  }

  lemma BringsOnce(src: seq<Decl>, done: set<string>, i: nat, names: seq<string>)
    requires i < |src|
    ensures Brings(src, done, i, names) <==> BringsAt(src, done, i, names) || Brings(src, done, i + 1, names)
    ensures !(BringsAt(src, done, i, names) && Brings(src, done, i + 1, names))
  {
    if |names| == 2 {
      HasMethodsTail(src, i, names[1]);
    }
  }

  /** Weaving brings in each new method of a struct at one place, and nothing else. */
  lemma {:induction false} WeaveBodies(src: seq<Decl>, gen: seq<Decl>, done: set<string>, i: nat, names: seq<string>)
    requires i <= |src|
    ensures Bodies(Weave(src, gen, done, i), names) ==
      if Brings(src, done, i, names) then Bodies(gen, names) else Bodies(src[i..], names)
    decreases |src| - i
  {
    if i < |src| {
      WeaveBodies(src, gen, done, i + 1, names);
      StepBodies(src, gen, done, i, names);
      BringsOnce(src, done, i, names);
      BodiesNone(src, i, names);
      Glued(BodyOf(src[i], names), Bodies(src[i + 1..], names), Bodies(gen, names),
            BringsAt(src, done, i, names), Brings(src, done, i + 1, names));
    }
  }

  /** What one declaration has, with the generated function brought in here, later or not at all. */
  lemma Glued<T>(own: seq<T>, rest: seq<T>, brought: seq<T>, here: bool, later: bool)
    requires !(here && later) && (here || later ==> own + rest == [])
    ensures own + (if here then brought else []) + (if later then brought else rest) ==
            if here || later then brought else own + rest
  {
    assert own + [] == own;
    if here || later { assert |own| == |own + rest| - |rest|; }
  }

  lemma StepBodies(src: seq<Decl>, gen: seq<Decl>, done: set<string>, i: nat, names: seq<string>)
    requires i < |src|
    ensures
      var own := BodyOf(src[i], names);
      && Bodies(src[i..], names) == own + Bodies(src[i + 1..], names)
      && Bodies(Weave(src, gen, done, i), names) ==
         own
         + (if BringsAt(src, done, i, names) then Bodies(gen, names) else [])
         + Bodies(Weave(src, gen, done, i + 1), names)
  {
    var d := src[i];
    var more := if InsertsAt(src, done, i) then New(src, gen, d.names[1]) else [];
    assert src[i..] == [d] + src[i + 1..];
    BodiesAppend([d], src[i + 1..], names);
    BodiesAppend([d] + more, Weave(src, gen, done, i + 1), names);
    BodiesAppend([d], more, names);
    assert [d][1..] == [];
    if InsertsAt(src, done, i) { NewBodies(src, gen, d.names[1], names); }
  }

  lemma {:induction false} BodiesNone(ds: seq<Decl>, i: nat, names: seq<string>)
    requires i <= |ds|
    ensures Bodies(ds, names) == [] ==> Bodies(ds[i..], names) == []
  {
    assert ds == ds[..i] + ds[i..];
    BodiesAppend(ds[..i], ds[i..], names);
  }

  lemma HasMethodsOf(ds: seq<Decl>, names: seq<string>)
    requires |names| == 2 && Bodies(ds, names) != []
    ensures HasMethods(ds, names[1]) && names[1] in Structs(ds)
  {
    var i := FromBodies(ds, names);
    assert MethodOf(ds[i], names[1]);
    StructsAre(ds, names[1]);
  }

  lemma WovenBodies(src: seq<Decl>, gen: seq<Decl>, names: seq<string>)
    ensures Bodies(Woven(src, gen), names) ==
      if |names| == 2 && HasMethods(src, names[1]) && Bodies(src, names) == []
      then Bodies(gen, names) else Bodies(src, names)
  {
    assert src[0..] == src;
    WeaveBodies(src, gen, Structs(gen), 0, names);
    if |names| == 2 && Bodies(gen, names) != [] {
      HasMethodsOf(gen, names);
    }
  }

  /** `init` and `_` and what is to be ignored keep their bodies. */
  predicate Covers(names: seq<string>, ignore: set<string>) {
    Coverable(Decl(Func, names, Body("", "")), ignore)
  }

  lemma {:induction false} CoverBodyIs(gens: seq<Decl>, ignore: set<string>, d: Decl)
    requires |Bodies(gens, d.names)| <= 1
    ensures CoverBody(gens, ignore, d) ==
      if Covers(d.names, ignore) && Bodies(gens, d.names) != [] then Over(d.body, Bodies(gens, d.names)[0]) else d.body
    decreases |gens|
  {
    if gens != [] {
      var front, g := gens[..|gens| - 1], gens[|gens| - 1];
      BodiesSnoc(gens, d.names);
      var own, rest := BodyOf(g, d.names), Bodies(front, d.names);
      assert |own| + |rest| <= 1;
      assert own != [] ==> rest == [] && rest + own == own;
      assert own == [] ==> rest + own == rest;
      CoverBodyIs(front, ignore, d);
    }
  }

  lemma BodiesSnoc(ds: seq<Decl>, names: seq<string>)
    requires ds != []
    ensures Bodies(ds, names) == Bodies(ds[..|ds| - 1], names) + BodyOf(ds[|ds| - 1], names)
  {
    var front, d := ds[..|ds| - 1], ds[|ds| - 1];
    assert ds == front + [d] && [d][1..] == [];
    BodiesAppend(front, [d], names);
    assert BodyOf(d, names) + [] == BodyOf(d, names);
  }

  /** All functions with these names come from the source, or none does. */
  predicate OldOnes(src: seq<Decl>, code: seq<Decl>, names: seq<string>) {
    forall i :: 0 <= i < |code| ==> OldOne(src, code[i], names)
  }

  predicate OldOne(src: seq<Decl>, d: Decl, names: seq<string>) {
    d.kind.Func? && d.names == names ==> (d in src <==> Bodies(src, names) != [])
  }

  /** Covering changes the bodies of the functions of the source, and of no others. */
  lemma {:induction false} CoverBodies(src: seq<Decl>, gens: seq<Decl>, ignore: set<string>, code: seq<Decl>,
                                       names: seq<string>)
    requires |Bodies(code, names)| <= 1 && |Bodies(gens, names)| <= 1
    requires OldOnes(src, code, names)
    ensures Bodies(CoverAll(src, gens, ignore, code), names) ==
      if Bodies(code, names) != [] && Bodies(src, names) != [] && Covers(names, ignore) && Bodies(gens, names) != []
      then Overs(Bodies(code, names), Bodies(gens, names)) else Bodies(code, names)
    decreases |code|
  {
    if code != [] {
      var d, t := code[0], code[1..];
      assert OldOne(src, d, names);
      assert forall i :: 0 <= i < |t| ==> t[i] == code[i + 1];
      CoverBodies(src, gens, ignore, t, names);
      CoverOneBody(src, gens, ignore, d, names);
      CoverHead(src, gens, ignore, code);
      var x, y := BodyOf(d, names), Bodies(t, names);
      assert |x| + |y| <= 1;
      assert x == [] ==> x + y == y;
      assert y == [] ==> x + y == x && Overs(x, Bodies(gens, names)) + y == Overs(x, Bodies(gens, names));
    }
  }

  lemma CoverOneBody(src: seq<Decl>, gens: seq<Decl>, ignore: set<string>, d: Decl, names: seq<string>)
    requires |Bodies(gens, names)| <= 1 && OldOne(src, d, names)
    ensures BodyOf(CoverOne(src, gens, ignore, d), names) ==
      if BodyOf(d, names) != [] && Bodies(src, names) != [] && Covers(names, ignore) && Bodies(gens, names) != []
      then Overs(BodyOf(d, names), Bodies(gens, names)) else BodyOf(d, names)
  {
    if d.kind.Func? && d.names == names {
      CoverBodyIs(gens, ignore, d);
    }
  }

  /** A function of the merged code that has a name of the source is in the source. */
  lemma WovenFromSrc(src: seq<Decl>, gen: seq<Decl>, d: Decl)
    requires d in Woven(src, gen) && d.kind.Func?
    ensures d in src <==> Bodies(src, d.names) != []
  {
    if d in src {
      var i :| 0 <= i < |src| && src[i] == d;
      BodyIn(src, i);
    } else {
      WeaveFrom(src, gen, Structs(gen), 0, d);
    }
  }

  lemma InWeave(src: seq<Decl>, gen: seq<Decl>, done: set<string>, i: nat, d: Decl)
    requires i < |src| && d in Weave(src, gen, done, i) && d !in Weave(src, gen, done, i + 1)
    ensures d == src[i] || (InsertsAt(src, done, i) && d in New(src, gen, src[i].names[1]))
  {
    InThree(d, src[i], if InsertsAt(src, done, i) then New(src, gen, src[i].names[1]) else [],
            Weave(src, gen, done, i + 1));
  }

  lemma InThree(d: Decl, a: Decl, b: seq<Decl>, c: seq<Decl>)
    ensures d in [a] + b + c <==> d == a || d in b || d in c
  {
  }

  lemma {:induction false} WeaveFrom(src: seq<Decl>, gen: seq<Decl>, done: set<string>, i: nat, d: Decl)
    requires i <= |src| && d in Weave(src, gen, done, i) && d !in src
    ensures d.kind.Func? && d in gen && Bodies(src, d.names) == []
    decreases |src| - i
  {
    if d in Weave(src, gen, done, i + 1) {
      WeaveFrom(src, gen, done, i + 1, d);
    } else {
      assert src[i] in src;
      InWeave(src, gen, done, i, d);
      NewFrom(src, gen, src[i].names[1], d);
    }
  }

  lemma {:induction false} NewFrom(src: seq<Decl>, gen: seq<Decl>, s: string, d: Decl)
    requires d in New(src, gen, s)
    ensures d in gen && MethodOf(d, s) && Bodies(src, d.names) == []
    decreases |gen|
  {
    if !(MethodOf(gen[0], s) && Bodies(src, gen[0].names) == [] && d == gen[0]) {
      NewFrom(src, gen[1..], s, d);
    }
  }

  lemma CoveredBodies(src: seq<Decl>, gen: seq<Decl>, cover: bool, ignore: set<string>, names: seq<string>)
    requires Wellformed(src) && Wellformed(gen) && !Special(names)
    ensures Bodies(Covered(src, gen, cover, ignore), names) ==
      if Bodies(src, names) != [] && cover && Covers(names, ignore) && Bodies(gen, names) != []
      then Overs(Bodies(src, names), Bodies(gen, names)) else Bodies(Woven(src, gen), names)
  {
    WovenBodies(src, gen, names);
    if cover {
      var code := Woven(src, gen);
      forall i | 0 <= i < |code|
        ensures OldOne(src, code[i], names)
      {
        if code[i].kind.Func? { WovenFromSrc(src, gen, code[i]); }
      }
      CoverBodies(src, gen, ignore, code, names);
    }
  }

  lemma {:induction false} AppendedBodies(src: seq<Decl>, code: seq<Decl>, merged: set<string>, gen: seq<Decl>,
                                          names: seq<string>)
    requires !Special(names) && (forall i :: 0 <= i < |src| ==> NamesOk(src[i]))
    requires (forall i :: 0 <= i < |gen| ==> NamesOk(gen[i]))
    ensures Bodies(Appended(src, code, merged, gen), names) ==
      if (|names| == 2 && names[1] in merged) || HasName(src, Join(names, ",")) then [] else Bodies(gen, names)
    decreases |gen|
  {
    if gen != [] {
      var g := gen[0];
      var head := if Missing(src, code, merged, g) then [g] else [];
      AppendedBodies(src, code, merged, gen[1..], names);
      BodiesAppend(head, Appended(src, code, merged, gen[1..]), names);
      assert [g][1..] == [];
      if g.kind.Func? && g.names == names {
        NotSpecial(g);
      }
    }
  }

  lemma NotSpecial(g: Decl)
    requires g.kind.Func? && NamesOk(g)
    ensures Special(g.names) <==> GetName(g) == "init" || GetName(g) == "_"
  {
    SameName(g, Decl(Func, ["init"], Body("", "")));
    SameName(g, Decl(Func, ["_"], Body("", "")));
  }

  /** A generated function the source does not have, whose name there belongs to something else, a
      package or a variable say; methods of structs that have some already are not affected. */
  predicate Clash(src: seq<Decl>, names: seq<string>) {
    && Bodies(src, names) == [] && HasName(src, Join(names, ","))
    && !(|names| == 2 && HasMethods(src, names[1]))
  }

  lemma HasFunc(src: seq<Decl>, names: seq<string>)
    requires Bodies(src, names) != []
    ensures HasName(src, Join(names, ","))
  {
    var i := FromBodies(src, names);
    assert GetName(src[i]) == Join(names, ",");
  }

  lemma InMergedStruct(src: seq<Decl>, gen: seq<Decl>, names: seq<string>)
    requires Bodies(src, names) == [] && Bodies(gen, names) != [] && |names| == 2
    ensures names[1] in MergedStructs(src, gen) <==> HasMethods(src, names[1])
  {
    HasMethodsOf(gen, names);
    NewBodies(src, gen, names[1], names);
  }

  /** After merging, every function of either side is there once: with the body it had, or the
      generated one, below its own comment if it has one, if bodies are covered; unless its name
      clashes, then it is lost. */
  lemma MergedOnce(src: seq<Decl>, gen: seq<Decl>, cover: bool, ignore: set<string>, names: seq<string>)
    requires Wellformed(src) && Wellformed(gen) && !Special(names)
    ensures
      Bodies(Merge(src, gen, cover, ignore), names) ==
      if Bodies(src, names) != [] then
        (if cover && Covers(names, ignore) && Bodies(gen, names) != []
         then Overs(Bodies(src, names), Bodies(gen, names))
         else Bodies(src, names))
      else if Clash(src, names) then [] else Bodies(gen, names)
  {
    var code, merged := Covered(src, gen, cover, ignore), MergedStructs(src, gen);
    CoveredBodies(src, gen, cover, ignore, names);
    WovenBodies(src, gen, names);
    AppendedBodies(src, code, merged, gen, names);
    BodiesAppend(code, Appended(src, code, merged, gen), names);
    if Bodies(src, names) != [] {
      HasFunc(src, names);
    } else if Bodies(gen, names) != [] && |names| == 2 {
      InMergedStruct(src, gen, names);
    }
  }

  /** A function that both sides have, when bodies are covered: the generated text, below the comment
      of the source or, where that has none, below the generated one.  `init` and `_` and the names
      to be ignored are not covered, and without covering nothing is. */
  lemma CoveredText(src: seq<Decl>, gen: seq<Decl>, cover: bool, ignore: set<string>, f: Decl, g: Decl)
    requires Wellformed(src) && Wellformed(gen) && f in src && g in gen
    requires f.kind.Func? && g.kind.Func? && f.names == g.names && f.names != ["init"] && f.names != ["_"]
    ensures
      var bodies := Bodies(Merge(src, gen, cover, ignore), f.names);
      && |bodies| == 1
      && (cover && f.names[0] !in ignore ==>
            && bodies[0].text == g.body.text
            && (f.body.comment != "" ==> bodies[0].comment == f.body.comment)
            && (f.body.comment == "" ==> bodies[0].comment == g.body.comment))
      && (!cover || f.names[0] in ignore ==> bodies[0] == f.body)
  {
    MergedOnce(src, gen, cover, ignore, f.names);
    OnlyBody(src, f);
    OnlyBody(gen, g);
    JoinNames(f.names);
  }

  lemma OnlyBody(ds: seq<Decl>, d: Decl)
    requires Wellformed(ds) && d in ds && d.kind.Func? && !Special(d.names)
    ensures Bodies(ds, d.names) == [d.body] && 1 <= |d.names| <= 2
  {
    var i :| 0 <= i < |ds| && ds[i] == d;
    assert NamesOk(ds[i]);
    BodyIn(ds, i);
  }

  /** The clash is real: a generated `main` never reaches a package `main` without one. */
  lemma MainIsLost(body: Body, cover: bool, ignore: set<string>)
    ensures
      var src := [Decl(Package, ["main"], Body("", "package main"))];
      var gen := src + [Decl(Func, ["main"], body)];
      Bodies(gen, ["main"]) == [body] && Bodies(Merge(src, gen, cover, ignore), ["main"]) == []
  {
    var src := [Decl(Package, ["main"], Body("", "package main"))];
    var f := [Decl(Func, ["main"], body)];
    assert src[1..] == [] && f[1..] == [];
    forall names
      ensures Bodies(src, names) == [] && Bodies(src + f, names) == if names == ["main"] then [body] else []
    {
      BodiesAppend(src, f, names);
    }
    assert GetName(src[0]) == "main" == Join(["main"], ",");
    assert ',' !in "main";
    MergedOnce(src, src + f, cover, ignore, ["main"]);
  }

  // ---------- where everything stands ----------

  /** `a` arises from `b` by leaving out elements. */
  predicate IsSubseq<T(==)>(a: seq<T>, b: seq<T>)
    decreases |b|
  {
    a == [] || (b != [] && ((a[0] == b[0] && IsSubseq(a[1..], b[1..])) || IsSubseq(a, b[1..])))
  }

  /** A declaration without its text. */
  datatype Heading = Heading(kind: Kind, names: seq<string>)

  function Headings(ds: seq<Decl>): seq<Heading> {
    seq(|ds|, i requires 0 <= i < |ds| => Heading(ds[i].kind, ds[i].names))
  }

  lemma {:induction false} SubseqSkip<T>(a: seq<T>, x: seq<T>, b: seq<T>)
    requires IsSubseq(a, b)
    ensures IsSubseq(a, x + b)
    decreases |x|
  {
    if x == [] {
      assert x + b == b;
    } else {
      SubseqSkip(a, x[1..], b);
      assert (x + b)[1..] == x[1..] + b;
    }
  }

  lemma SubseqCons<T>(h: T, a: seq<T>, b: seq<T>)
    requires IsSubseq(a, b)
    ensures IsSubseq([h] + a, [h] + b)
  {
    assert ([h] + a)[1..] == a && ([h] + b)[1..] == b;
  }

  lemma HeadingsAppend(a: seq<Decl>, b: seq<Decl>)
    ensures Headings(a + b) == Headings(a) + Headings(b)
  {}

  predicate InOrder(a: seq<Decl>, b: seq<Decl>) {
    IsSubseq(Headings(a), Headings(b))
  }

  lemma InOrderCons(d: Decl, a: seq<Decl>, more: seq<Decl>, b: seq<Decl>)
    requires InOrder(a, b)
    ensures InOrder([d] + a, [d] + more + b)
  {
    var h := Heading(d.kind, d.names);
    SubseqSkip(Headings(a), Headings(more), Headings(b));
    SubseqCons(h, Headings(a), Headings(more) + Headings(b));
    HeadingsAppend([d], a);
    HeadingsAppend([d] + more, b);
    HeadingsAppend([d], more);
    Assoc([h], Headings(more), Headings(b));
    assert Headings([d]) == [h];
  }

  lemma {:induction false} WovenInOrder(src: seq<Decl>, gen: seq<Decl>, done: set<string>, i: nat)
    requires i <= |src|
    ensures InOrder(src[i..], Weave(src, gen, done, i))
    decreases |src| - i
  {
    if i < |src| {
      WovenInOrder(src, gen, done, i + 1);
      InOrderCons(src[i], src[i + 1..], More(src, gen, done, i), Weave(src, gen, done, i + 1));
      assert src[i..] == [src[i]] + src[i + 1..];
    } else {
      assert Headings(src[i..]) == [];
    }
  }

  lemma {:induction false} CoverAt(src: seq<Decl>, gens: seq<Decl>, ignore: set<string>, code: seq<Decl>, i: nat)
    requires i < |code|
    ensures CoverAll(src, gens, ignore, code)[i] == CoverOne(src, gens, ignore, code[i])
    decreases |code|
  {
    if i > 0 { CoverAt(src, gens, ignore, code[1..], i - 1); }
  }

  lemma CoveredHeadings(src: seq<Decl>, gen: seq<Decl>, cover: bool, ignore: set<string>)
    ensures Headings(Covered(src, gen, cover, ignore)) == Headings(Woven(src, gen))
  {
    var code := Woven(src, gen);
    forall i | 0 <= i < |code|
      ensures cover ==> CoverAll(src, gen, ignore, code)[i] == CoverOne(src, gen, ignore, code[i])
    {
      CoverAt(src, gen, ignore, code, i);
    }
  }

  lemma {:induction false} AppendedInOrder(src: seq<Decl>, code: seq<Decl>, merged: set<string>, gen: seq<Decl>)
    ensures IsSubseq(Appended(src, code, merged, gen), gen)
    decreases |gen|
  {
    if gen != [] {
      var rest := Appended(src, code, merged, gen[1..]);
      AppendedInOrder(src, code, merged, gen[1..]);
      SubseqCons(gen[0], rest, gen[1..]);
      assert gen == [gen[0]] + gen[1..] && [] + rest == rest;
    }
  }

  /** The declarations of the source stay in their order; what is appended comes behind them, in the
      order in which it was generated. */
  lemma MergedInOrder(src: seq<Decl>, gen: seq<Decl>, cover: bool, ignore: set<string>)
    returns (code: seq<Decl>, more: seq<Decl>)
    ensures Merge(src, gen, cover, ignore) == code + more
    ensures InOrder(src, code) && IsSubseq(more, gen)
  {
    code := Covered(src, gen, cover, ignore);
    more := Appended(src, code, MergedStructs(src, gen), gen);
    WovenInOrder(src, gen, Structs(gen), 0);
    assert src[0..] == src;
    CoveredHeadings(src, gen, cover, ignore);
    AppendedInOrder(src, code, MergedStructs(src, gen), gen);
  }

  /** Whatever is no function, and every `init` and `_` of the source, is still there unchanged. */
  lemma OthersStay(src: seq<Decl>, gen: seq<Decl>, cover: bool, ignore: set<string>, d: Decl)
    requires d in src && (d.kind.Func? ==> d.names == ["init"] || d.names == ["_"])
    ensures d in Merge(src, gen, cover, ignore)
  {
    var code := Woven(src, gen);
    assert src[0..] == src;
    SrcInWeave(src, gen, Structs(gen), 0, d);
    var i :| 0 <= i < |code| && code[i] == d;
    if cover {
      CoverAt(src, gen, ignore, code, i);
      if d.kind.Func? { SpecialStays(gen, ignore, d); }
    }
    assert Covered(src, gen, cover, ignore)[i] == d;
  }

  /** From `i` on weaving gives `front` and then `back`. */
  predicate WeavesTo(src: seq<Decl>, gen: seq<Decl>, done: set<string>, i: nat, front: seq<Decl>, back: seq<Decl>)
    requires i <= |src|
  {
    Weave(src, gen, done, i) == front + back
  }

  lemma WeaveStep(src: seq<Decl>, gen: seq<Decl>, done: set<string>, i: nat, rest: seq<Decl>, back: seq<Decl>)
    requires i < |src| && WeavesTo(src, gen, done, i + 1, rest, back)
    ensures WeavesTo(src, gen, done, i, [src[i]] + More(src, gen, done, i) + rest, back)
  {
    Assoc([src[i]] + More(src, gen, done, i), rest, back);
  }

  lemma {:induction false} WeaveSplit(src: seq<Decl>, gen: seq<Decl>, done: set<string>, i: nat, k: nat,
                                      back: seq<Decl>)
    returns (front: seq<Decl>)
    requires i <= k <= |src| && WeavesTo(src, gen, done, k, [], back)
    ensures WeavesTo(src, gen, done, i, front, back)
    decreases k - i
  {
    if i == k {
      front := [];
    } else {
      var rest := WeaveSplit(src, gen, done, i + 1, k, back);
      front := [src[i]] + More(src, gen, done, i) + rest;
      WeaveStep(src, gen, done, i, rest, back);
    }
  }

  lemma {:induction false} NoMethodsBehind(src: seq<Decl>, gen: seq<Decl>, done: set<string>, i: nat, s: string)
    requires i <= |src| && !HasMethods(src[i..], s)
    ensures forall d <- Weave(src, gen, done, i) :: !MethodOf(d, s)
    decreases |src| - i
  {
    if i < |src| {
      HasMethodsTail(src, i, s);
      NoMethodsBehind(src, gen, done, i + 1, s);
      forall d <- More(src, gen, done, i)
        ensures !MethodOf(d, s)
      {
        NewFrom(src, gen, src[i].names[1], d);
      }
    }
  }

  lemma {:induction false} NewHas(src: seq<Decl>, gen: seq<Decl>, s: string, g: Decl)
    requires g in gen && MethodOf(g, s) && HasMethods(src, s) && Bodies(src, g.names) == []
    ensures g in New(src, gen, s)
    decreases |gen|
  {
    if g != gen[0] { NewHas(src, gen[1..], s, g); }
  }

  lemma {:induction false} NewInOrder(src: seq<Decl>, gen: seq<Decl>, s: string)
    ensures IsSubseq(New(src, gen, s), gen)
    decreases |gen|
  {
    if gen != [] && HasMethods(src, s) {
      var rest := New(src, gen[1..], s);
      NewInOrder(src, gen[1..], s);
      SubseqCons(gen[0], rest, gen[1..]);
      assert gen == [gen[0]] + gen[1..] && [] + rest == rest;
    }
  }

  /** The methods a struct of the source gets stand directly behind the last one it had there, in the
      order in which they were generated, and it gets none anywhere else. */
  lemma BehindTheirStruct(src: seq<Decl>, gen: seq<Decl>, s: string)
    returns (front: seq<Decl>, last: Decl, more: seq<Decl>, back: seq<Decl>)
    requires HasMethods(src, s) && HasMethods(gen, s)
    ensures Woven(src, gen) == front + ([last] + more + back)
    ensures last in src && MethodOf(last, s) && IsSubseq(more, gen)
    ensures forall d <- back :: !MethodOf(d, s)
    ensures forall d :: d in more <==> d in gen && MethodOf(d, s) && Bodies(src, d.names) == []
  {
    var done := Structs(gen);
    StructsAre(gen, s);
    StructHasMethods(src, s);
    var k := LastIsLast(src, s);
    last, more, back := src[k], More(src, gen, done, k), Weave(src, gen, done, k + 1);
    assert [] + ([last] + more + back) == [last] + more + back;
    front := WeaveSplit(src, gen, done, 0, k, [last] + more + back);
    NoMethodsBehind(src, gen, done, k + 1, s);
    NewInOrder(src, gen, s);
    forall d
      ensures d in more <==> d in gen && MethodOf(d, s) && Bodies(src, d.names) == []
    {
      if d in more { NewFrom(src, gen, s, d); }
      if d in gen && MethodOf(d, s) && Bodies(src, d.names) == [] { NewHas(src, gen, s, d); }
    }
  }

  // ---------- merging the same code again ----------

  lemma {:induction false} SrcInWeave(src: seq<Decl>, gen: seq<Decl>, done: set<string>, i: nat, d: Decl)
    requires i <= |src| && d in src[i..]
    ensures d in Weave(src, gen, done, i)
    decreases |src| - i
  {
    assert src[i..] == [src[i]] + src[i + 1..];
    if d != src[i] {
      SrcInWeave(src, gen, done, i + 1, d);
    }
  }

  lemma {:induction false} CoverKeepsName(src: seq<Decl>, gens: seq<Decl>, ignore: set<string>, code: seq<Decl>,
                                          d: Decl)
    requires d in code
    ensures HasName(CoverAll(src, gens, ignore, code), GetName(d))
    decreases |code|
  {
    var r := CoverAll(src, gens, ignore, code);
    if d == code[0] {
      assert GetName(r[0]) == GetName(d);
    } else {
      CoverKeepsName(src, gens, ignore, code[1..], d);
      var j :| 0 <= j < |r[1..]| && GetName(r[1..][j]) == GetName(d);
      assert r[j + 1] == r[1..][j];
    }
  }

  lemma NamesStay(src: seq<Decl>, gen: seq<Decl>, cover: bool, ignore: set<string>, name: string)
    requires HasName(src, name)
    ensures HasName(Covered(src, gen, cover, ignore), name)
  {
    var i :| 0 <= i < |src| && GetName(src[i]) == name;
    assert src[0..] == src && src[i] in src;
    SrcInWeave(src, gen, Structs(gen), 0, src[i]);
    var code := Woven(src, gen);
    var j :| 0 <= j < |code| && code[j] == src[i];
    if cover {
      CoverKeepsName(src, gen, ignore, code, src[i]);
    }
  }

  lemma {:induction false} AppendedIff(src: seq<Decl>, code: seq<Decl>, merged: set<string>, gen: seq<Decl>, g: Decl)
    ensures g in Appended(src, code, merged, gen) <==> g in gen && Missing(src, code, merged, g)
    decreases |gen|
  {
    if gen != [] {
      AppendedIff(src, code, merged, gen[1..], g);
    }
  }

  lemma OwnText(b: Body)
    ensures Contains(b.comment + "\n" + b.text, b.text)
  {
    var s, n := b.comment + "\n" + b.text, |b.comment + "\n"|;
    assert s[n..n + |b.text|] == b.text;
    assert OccursAt(s, b.text, n);
  }

  /** `init` and `_` functions are there too, by name and with their text. */
  lemma SpecialKept(src: seq<Decl>, gen: seq<Decl>, cover: bool, ignore: set<string>, g: Decl)
    requires g in gen && g.kind.Func? && Special(g.names)
    ensures
      var merged := Merge(src, gen, cover, ignore);
      HasName(merged, GetName(g)) && Shown(merged, g.body.text)
  {
    var code := Covered(src, gen, cover, ignore);
    var more := Appended(src, code, MergedStructs(src, gen), gen);
    AppendedIff(src, code, MergedStructs(src, gen), gen, g);
    assert GetName(g) == "init" || GetName(g) == "_";
    if g in more {
      var j :| 0 <= j < |more| && more[j] == g;
      assert (code + more)[|code| + j] == g;
      OwnText(g.body);
    } else {
      NamesStay(src, gen, cover, ignore, GetName(g));
      var i :| 0 <= i < |code| && GetName(code[i]) == GetName(g);
      var k :| 0 <= k < |code| && Contains(code[k].body.comment + "\n" + code[k].body.text, g.body.text);
      assert (code + more)[i] == code[i] && (code + more)[k] == code[k];
    }
  }

  lemma {:induction false} CoverKeepsNamesOk(src: seq<Decl>, gens: seq<Decl>, ignore: set<string>, code: seq<Decl>)
    requires forall d <- code :: NamesOk(d)
    ensures forall d <- CoverAll(src, gens, ignore, code) :: NamesOk(d)
    decreases |code|
  {
    if code != [] {
      CoverKeepsNamesOk(src, gens, ignore, code[1..]);
      var r := CoverAll(src, gens, ignore, code);
      assert code[0] in code && NamesOk(r[0]);
      assert r == [r[0]] + r[1..] && r[1..] == CoverAll(src, gens, ignore, code[1..]);
    }
  }

  lemma MergedWellformed(src: seq<Decl>, gen: seq<Decl>, cover: bool, ignore: set<string>)
    requires Wellformed(src) && Wellformed(gen)
    ensures Wellformed(Merge(src, gen, cover, ignore))
  {
    var base, code := Woven(src, gen), Covered(src, gen, cover, ignore);
    var m := Merge(src, gen, cover, ignore);
    forall d <- base
      ensures NamesOk(d)
    {
      if d !in src { WeaveFrom(src, gen, Structs(gen), 0, d); }
    }
    CoverKeepsNamesOk(src, gen, ignore, base);
    forall i | 0 <= i < |m|
      ensures NamesOk(m[i])
    {
      if i < |code| {
        assert m[i] in code;
      } else {
        AppendedIff(src, code, MergedStructs(src, gen), gen, m[i]);
      }
    }
    forall names | !Special(names)
      ensures |Bodies(m, names)| <= 1
    {
      MergedOnce(src, gen, cover, ignore, names);
    }
  }

  /** Every generated function is there or cannot be brought in. */
  ghost predicate Complete(m: seq<Decl>, gen: seq<Decl>) {
    forall g <- gen :: g.kind.Func? && !Special(g.names) ==> Bodies(m, g.names) != [] || Clash(m, g.names)
  }

  lemma {:induction false} NothingNew(m: seq<Decl>, gen: seq<Decl>, s: string)
    requires Complete(m, gen)
    ensures New(m, gen, s) == []
    decreases |gen|
  {
    if gen != [] {
      assert gen[0] in gen;
      NothingNew(m, gen[1..], s);
    }
  }

  /** From `i` on weaving changes nothing. */
  ghost predicate Unwoven(m: seq<Decl>, gen: seq<Decl>, done: set<string>, i: nat)
    requires i <= |m|
  {
    Weave(m, gen, done, i) == m[i..]
  }

  lemma {:induction false} NothingWoven(m: seq<Decl>, gen: seq<Decl>, done: set<string>, i: nat)
    requires i <= |m| && Complete(m, gen)
    ensures Unwoven(m, gen, done, i)
    decreases |m| - i
  {
    if i < |m| {
      NothingMore(m, gen, done, i);
      NothingWoven(m, gen, done, i + 1);
      UnwovenStep(m, gen, done, i);
    }
  }

  lemma UnwovenStep(m: seq<Decl>, gen: seq<Decl>, done: set<string>, i: nat)
    requires i < |m| && More(m, gen, done, i) == [] && Unwoven(m, gen, done, i + 1)
    ensures Unwoven(m, gen, done, i)
  {
    assert m[i..] == [m[i]] + [] + m[i + 1..];
  }

  lemma NothingMore(m: seq<Decl>, gen: seq<Decl>, done: set<string>, i: nat)
    requires i < |m| && Complete(m, gen)
    ensures More(m, gen, done, i) == []
  {
    if InsertsAt(m, done, i) { NothingNew(m, gen, m[i].names[1]); }
  }

  lemma {:induction false} NothingCovered(m: seq<Decl>, gens: seq<Decl>, ignore: set<string>, code: seq<Decl>)
    requires forall d <- code :: d.kind.Func? ==> CoverBody(gens, ignore, d) == d.body
    ensures CoverAll(m, gens, ignore, code) == code
    decreases |code|
  {
    if code != [] {
      assert code[0] in code;
      NothingCovered(m, gens, ignore, code[1..]);
    }
  }

  lemma {:induction false} NothingAppended(m: seq<Decl>, merged: set<string>, gen: seq<Decl>)
    requires forall g <- gen :: !Missing(m, m, merged, g)
    ensures Appended(m, m, merged, gen) == []
    decreases |gen|
  {
    if gen != [] {
      assert gen[0] in gen;
      NothingAppended(m, merged, gen[1..]);
    }
  }

  lemma CoveredAlready(src: seq<Decl>, gen: seq<Decl>, ignore: set<string>, d: Decl)
    requires Wellformed(src) && Wellformed(gen)
    requires d in Merge(src, gen, true, ignore) && d.kind.Func?
    ensures CoverBody(gen, ignore, d) == d.body
  {
    if Special(d.names) {
      SpecialStays(gen, ignore, d);
    } else {
      var m := Merge(src, gen, true, ignore);
      MergedBody(m, d);
      MergedOnce(src, gen, true, ignore, d.names);
      CoveredBody(gen, ignore, d, Bodies(src, d.names), Clash(src, d.names), Bodies(m, d.names));
    }
  }

  lemma CoveredBody(gen: seq<Decl>, ignore: set<string>, d: Decl, own: seq<Body>, clash: bool, merged: seq<Body>)
    requires |Bodies(gen, d.names)| <= 1 && d.body in merged
    requires merged ==
      if own != [] then
        (if Covers(d.names, ignore) && Bodies(gen, d.names) != [] then Overs(own, Bodies(gen, d.names)) else own)
      else if clash then [] else Bodies(gen, d.names)
    ensures CoverBody(gen, ignore, d) == d.body
  {
    CoverBodyIs(gen, ignore, d);
  }

  lemma MergedBody(m: seq<Decl>, d: Decl)
    requires d in m && d.kind.Func?
    ensures d.body in Bodies(m, d.names)
  {
    var i :| 0 <= i < |m| && m[i] == d;
    BodyIn(m, i);
  }

  lemma {:induction false} SpecialStays(gens: seq<Decl>, ignore: set<string>, d: Decl)
    requires Special(d.names)
    ensures CoverBody(gens, ignore, d) == d.body
    decreases |gens|
  {
    if gens != [] { SpecialStays(gens[..|gens| - 1], ignore, d); }
  }

  /** A generated method is lost by a clash, while another one of its struct is brought in. */
  ghost predicate Revives(src: seq<Decl>, gen: seq<Decl>) {
    exists g <- gen, h <- gen :: Revived(src, g, h)
  }

  predicate Revived(src: seq<Decl>, g: Decl, h: Decl) {
    && g.kind.Func? && |g.names| == 2 && Clash(src, g.names)
    && MethodOf(h, g.names[1]) && !Clash(src, h.names)
  }

  lemma ClashStays(src: seq<Decl>, gen: seq<Decl>, cover: bool, ignore: set<string>, g: Decl)
    requires Wellformed(src) && Wellformed(gen) && !Revives(src, gen)
    requires g in gen && g.kind.Func? && !Special(g.names) && Clash(src, g.names)
    ensures Clash(Merge(src, gen, cover, ignore), g.names)
  {
    var m := Merge(src, gen, cover, ignore);
    MergedOnce(src, gen, cover, ignore, g.names);
    NameThere(src, gen, cover, ignore, Join(g.names, ","));
    if |g.names| == 2 && HasMethods(m, g.names[1]) {
      var k :| 0 <= k < |m| && MethodOf(m[k], g.names[1]);
      MethodFrom(src, gen, cover, ignore, m, k, g.names[1]);
      assert forall h <- gen :: !Revived(src, g, h);
    }
  }

  lemma NameThere(src: seq<Decl>, gen: seq<Decl>, cover: bool, ignore: set<string>, name: string)
    requires HasName(src, name)
    ensures HasName(Merge(src, gen, cover, ignore), name)
  {
    NamesStay(src, gen, cover, ignore, name);
    var code, m := Covered(src, gen, cover, ignore), Merge(src, gen, cover, ignore);
    var i :| 0 <= i < |code| && GetName(code[i]) == name;
    assert m[i] == code[i];
  }

  /** A method of the result comes from the source, or is a generated one without a clash. */
  lemma MethodFrom(src: seq<Decl>, gen: seq<Decl>, cover: bool, ignore: set<string>, m: seq<Decl>, k: nat, s: string)
    requires Wellformed(src) && Wellformed(gen) && m == Merge(src, gen, cover, ignore)
    requires k < |m| && MethodOf(m[k], s)
    ensures HasMethods(src, s) || exists h <- gen :: MethodOf(h, s) && !Clash(src, h.names)
  {
    var names := m[k].names;
    BodyIn(m, k);
    MergedOnce(src, gen, cover, ignore, names);
    if Bodies(src, names) != [] {
      var i := FromBodies(src, names);
      assert MethodOf(src[i], s);
    } else {
      var i := FromBodies(gen, names);
      assert gen[i] in gen && MethodOf(gen[i], s);
    }
  }

  lemma Completed(src: seq<Decl>, gen: seq<Decl>, cover: bool, ignore: set<string>)
    requires Wellformed(src) && Wellformed(gen) && !Revives(src, gen)
    ensures Complete(Merge(src, gen, cover, ignore), gen)
  {
    forall g <- gen | g.kind.Func? && !Special(g.names)
      ensures var m := Merge(src, gen, cover, ignore); Bodies(m, g.names) != [] || Clash(m, g.names)
    {
      var i :| 0 <= i < |gen| && gen[i] == g;
      BodyIn(gen, i);
      MergedOnce(src, gen, cover, ignore, g.names);
      if Clash(src, g.names) { ClashStays(src, gen, cover, ignore, g); }
    }
  }

  lemma NothingMissing(m: seq<Decl>, gen: seq<Decl>, merged: set<string>, g: Decl)
    requires Complete(m, gen) && g in gen && NamesOk(g)
    requires g.kind.Func? && Special(g.names) ==> HasName(m, GetName(g)) && Shown(m, g.body.text)
    ensures !Missing(m, m, merged, g)
  {
    if g.kind.Func? && !Special(g.names) {
      NotSpecial(g);
      if Bodies(m, g.names) != [] { HasFunc(m, g.names); }
    }
  }

  lemma SecondMerge(src: seq<Decl>, gen: seq<Decl>, cover: bool, ignore: set<string>, m: seq<Decl>)
    requires Wellformed(src) && Wellformed(gen) && !Revives(src, gen) && m == Merge(src, gen, cover, ignore)
    ensures Merge(m, gen, cover, ignore) == m
  {
    Completed(src, gen, cover, ignore);
    NothingWoven(m, gen, Structs(gen), 0);
    assert m[0..] == m;
    if cover {
      forall d <- m | d.kind.Func?
        ensures CoverBody(gen, ignore, d) == d.body
      {
        CoveredAlready(src, gen, ignore, d);
      }
      NothingCovered(m, gen, ignore, m);
    }
    var merged := MergedStructs(m, gen);
    forall g <- gen
      ensures !Missing(m, m, merged, g)
    {
      if g.kind.Func? && Special(g.names) { SpecialKept(src, gen, cover, ignore, g); }
      NothingMissing(m, gen, merged, g);
    }
    NothingAppended(m, merged, gen);
    assert m + [] == m;
  }

  /** The second merge brings in the method that the first one lost. */
  lemma BroughtIn(src: seq<Decl>, gen: seq<Decl>, cover: bool, ignore: set<string>, g: Decl, h: Decl)
    requires Wellformed(src) && Wellformed(gen) && g in gen && h in gen && Revived(src, g, h)
    ensures
      var m := Merge(src, gen, cover, ignore);
      Bodies(m, g.names) == [] && Bodies(Merge(m, gen, cover, ignore), g.names) != []
  {
    var m := Merge(src, gen, cover, ignore);
    MergedWellformed(src, gen, cover, ignore);
    HasBody(gen, g);
    HasBody(gen, h);
    MergedOnce(src, gen, cover, ignore, g.names);
    MergedOnce(src, gen, cover, ignore, h.names);
    OtherMethod(m, h, g.names[1]);
    MergedOnce(m, gen, cover, ignore, g.names);
  }

  lemma HasBody(gen: seq<Decl>, g: Decl)
    requires g in gen && g.kind.Func?
    ensures Bodies(gen, g.names) != []
  {
    var i :| 0 <= i < |gen| && gen[i] == g;
    BodyIn(gen, i);
  }

  lemma OtherMethod(m: seq<Decl>, h: Decl, s: string)
    requires MethodOf(h, s) && Bodies(m, h.names) != []
    ensures HasMethods(m, s)
  {
    var k := FromBodies(m, h.names);
    assert MethodOf(m[k], s);
  }

  /** Merging the same code a second time changes nothing, exactly if no method is lost by a clash
      whose struct gets another one. */
  lemma MergeAgainIff(src: seq<Decl>, gen: seq<Decl>, cover: bool, ignore: set<string>)
    requires Wellformed(src) && Wellformed(gen)
    ensures
      var m := Merge(src, gen, cover, ignore);
      Merge(m, gen, cover, ignore) == m <==> !Revives(src, gen)
  {
    var m := Merge(src, gen, cover, ignore);
    if Revives(src, gen) {
      var g, h :| g in gen && h in gen && Revived(src, g, h);
      BroughtIn(src, gen, cover, ignore, g, h);
    } else {
      SecondMerge(src, gen, cover, ignore, m);
    }
  }

  /** A group of types whose joined name is that of a generated method, and another method of the
      same type: the second merge adds what the first one lost. */
  lemma GroupRevives(types: Body, a: Body, b: Body, cover: bool, ignore: set<string>)
    ensures
      var src := [Decl(Type, ["M", "S"], types)];
      var gen := [Decl(Func, ["M", "S"], a), Decl(Func, ["N", "S"], b)];
      var m := Merge(src, gen, cover, ignore);
      && Wellformed(src) && Wellformed(gen)
      && Bodies(m, ["M", "S"]) == [] && Bodies(Merge(m, gen, cover, ignore), ["M", "S"]) != []
  {
    var src := [Decl(Type, ["M", "S"], types)];
    var g, h := Decl(Func, ["M", "S"], a), Decl(Func, ["N", "S"], b);
    var gen := [g, h];
    assert src[1..] == [] && gen[1..] == [h] && gen[1..][1..] == [];
    forall names
      ensures Bodies(src, names) == [] && Bodies(gen, names) == BodyOf(g, names) + BodyOf(h, names)
    {
      assert BodyOf(h, names) + [] == BodyOf(h, names);
      assert Bodies([h], names) == BodyOf(h, names) + Bodies([], names);
    }
    GroupName();
    assert ',' !in "M" && ',' !in "N" && ',' !in "S";
    assert GetName(src[0]) == Join(g.names, ",");
    assert !HasMethods(src, "S");
    assert Revived(src, g, h);
    BroughtIn(src, gen, cover, ignore, g, h);
  }

  lemma GroupName()
    ensures Join(["M", "S"], ",") == "M,S" != "N,S" == Join(["N", "S"], ",")
  {
    JoinNames(["M", "S"]);
    JoinNames(["N", "S"]);
    assert "M,S"[0] != "N,S"[0];
  }

  // ---------- the passes ----------

  lemma {:induction false} MethodsAppend(a: seq<Decl>, b: seq<Decl>, s: string)
    ensures Methods(a + b, s) == Methods(a, s) + Methods(b, s)
    decreases |a|
  {
    if a == [] {
      assert a + b == b;
    } else {
      assert (a + b)[1..] == a[1..] + b && (a + b)[0] == a[0];
      MethodsAppend(a[1..], b, s);
      Assoc(if MethodOf(a[0], s) then [a[0]] else [], Methods(a[1..], s), Methods(b, s));
    }
  }

  /** The methods of `ms` whose names the source does not have. */
  function Fresh(src: seq<Decl>, ms: seq<Decl>): seq<Decl> {
    if ms == [] then [] else (if Bodies(src, ms[0].names) == [] then [ms[0]] else []) + Fresh(src, ms[1..])
  }

  lemma {:induction false} FreshAppend(src: seq<Decl>, a: seq<Decl>, b: seq<Decl>)
    ensures Fresh(src, a + b) == Fresh(src, a) + Fresh(src, b)
    decreases |a|
  {
    if a == [] {
      assert a + b == b;
    } else {
      assert (a + b)[1..] == a[1..] + b && (a + b)[0] == a[0];
      FreshAppend(src, a[1..], b);
      Assoc(if Bodies(src, a[0].names) == [] then [a[0]] else [], Fresh(src, a[1..]), Fresh(src, b));
    }
  }

  lemma {:induction false} NewIsFresh(src: seq<Decl>, gen: seq<Decl>, s: string)
    requires HasMethods(src, s)
    ensures New(src, gen, s) == Fresh(src, Methods(gen, s))
    decreases |gen|
  {
    if gen != [] {
      NewIsFresh(src, gen[1..], s);
      var g := gen[0];
      if MethodOf(g, s) {
        assert ([g] + Methods(gen[1..], s))[1..] == Methods(gen[1..], s);
      } else {
        assert Methods(gen, s) == Methods(gen[1..], s) && New(src, gen, s) == New(src, gen[1..], s);
      }
    }
  }

  lemma {:induction false} MethodsAre(ds: seq<Decl>, s: string, d: Decl)
    ensures d in Methods(ds, s) <==> d in ds && MethodOf(d, s)
    decreases |ds|
  {
    if ds != [] { MethodsAre(ds[1..], s, d); }
  }

  /** The last of the methods of `s`, and where it stands. */
  lemma {:induction false} LastIsLast(ds: seq<Decl>, s: string) returns (k: nat)
    requires Methods(ds, s) != []
    ensures k < |ds| && LastMethod(ds, k, s) && ds[k] == Methods(ds, s)[|Methods(ds, s)| - 1]
    decreases |ds|
  {
    if Methods(ds[1..], s) != [] {
      var j := LastIsLast(ds[1..], s);
      k := j + 1;
      assert ds[1..][j + 1..] == ds[k + 1..];
    } else {
      k := 0;
      if HasMethods(ds[1..], s) {
        var j :| 0 <= j < |ds[1..]| && MethodOf(ds[1..][j], s);
        MethodsAre(ds[1..], s, ds[1..][j]);
      }
    }
  }

  lemma {:induction false} WeaveSame(src: seq<Decl>, gen: seq<Decl>, done: set<string>, s: string, i: nat)
    requires i <= |src| && (New(src, gen, s) == [] || !HasMethods(src[i..], s))
    ensures Weave(src, gen, done + {s}, i) == Weave(src, gen, done, i)
    decreases |src| - i
  {
    if i < |src| {
      HasMethodsTail(src, i, s);
      WeaveSame(src, gen, done, s, i + 1);
      assert More(src, gen, done + {s}, i) == More(src, gen, done, i);
    }
  }

  lemma {:induction false} WeaveNone(src: seq<Decl>, gen: seq<Decl>, i: nat)
    requires i <= |src|
    ensures Weave(src, gen, {}, i) == src[i..]
    decreases |src| - i
  {
    if i < |src| { WeaveNone(src, gen, i + 1); }
  }

  lemma {:induction false} InsertSkips(p: seq<Decl>, code: seq<Decl>, d: Decl, more: seq<Decl>)
    requires d !in p
    ensures InsertBehind(p + code, d, more) == p + InsertBehind(code, d, more)
    decreases |p|
  {
    if p == [] {
      assert p + code == code && p + InsertBehind(code, d, more) == InsertBehind(code, d, more);
    } else {
      assert (p + code)[1..] == p[1..] + code && (p + code)[0] == p[0];
      InsertSkips(p[1..], code, d, more);
      assert p == [p[0]] + p[1..];
      Assoc([p[0]], p[1..], InsertBehind(code, d, more));
    }
  }

  /** The declaration at `k` does not stand further in front. */
  predicate Alone(ds: seq<Decl>, k: nat) {
    k < |ds| && forall i :: 0 <= i < k ==> ds[i] != ds[k]
  }

  lemma OnlyOne(src: seq<Decl>, k: nat)
    requires Wellformed(src) && k < |src| && src[k].kind.Func? && !Special(src[k].names)
    ensures Alone(src, k)
  {
    var names := src[k].names;
    assert src == src[..k] + src[k..];
    BodiesAppend(src[..k], src[k..], names);
    BodyIn(src[k..], 0);
    forall i | 0 <= i < k
      ensures src[i] != src[k]
    {
      if src[i] == src[k] { BodyIn(src[..k], i); }
    }
  }

  /** Putting the new methods of `s` behind its last method weaves one more struct in. */
  ghost predicate Inserted(src: seq<Decl>, gen: seq<Decl>, done: set<string>, s: string, i: nat, k: nat)
    requires i <= k < |src|
  {
    InsertBehind(Weave(src, gen, done, i), src[k], New(src, gen, s)) == Weave(src, gen, done + {s}, i)
  }

  lemma InsertWeaves(src: seq<Decl>, gen: seq<Decl>, done: set<string>, s: string, k: nat)
    requires Alone(src, k) && LastMethod(src, k, s) && s !in done
    ensures Inserted(src, gen, done, s, 0, k)
  {
    InsertAtLast(src, gen, done, s, k);
    for i := k downto 0
      invariant Inserted(src, gen, done, s, i, k)
    {
      InsertLater(src, gen, done, s, i, k);
    }
  }

  lemma InsertAtLast(src: seq<Decl>, gen: seq<Decl>, done: set<string>, s: string, k: nat)
    requires k < |src| && LastMethod(src, k, s) && s !in done
    ensures Inserted(src, gen, done, s, k, k)
  {
    MoreAtLast(src, gen, done, s, k);
    WeaveSame(src, gen, done, s, k + 1);
    InsertHere(src[k], Weave(src, gen, done, k + 1), New(src, gen, s));
  }

  lemma InsertLater(src: seq<Decl>, gen: seq<Decl>, done: set<string>, s: string, i: nat, k: nat)
    requires Alone(src, k) && i < k < |src| && MethodOf(src[k], s) && Inserted(src, gen, done, s, i + 1, k)
    ensures Inserted(src, gen, done, s, i, k)
  {
    var front, rest := [src[i]] + More(src, gen, done, i), Weave(src, gen, done, i + 1);
    MoreBefore(src, gen, done, s, i, k);
    NotAmong(src, gen, done, i, k);
    InsertSkips(front, rest, src[k], New(src, gen, s));
  }

  lemma InsertHere(d: Decl, rest: seq<Decl>, more: seq<Decl>)
    ensures InsertBehind([d] + [] + rest, d, more) == [d] + more + rest
  {
    assert ([d] + [] + rest)[1..] == rest && ([d] + [] + rest)[0] == d;
  }

  lemma MoreAtLast(src: seq<Decl>, gen: seq<Decl>, done: set<string>, s: string, k: nat)
    requires k < |src| && LastMethod(src, k, s) && s !in done
    ensures More(src, gen, done, k) == [] && More(src, gen, done + {s}, k) == New(src, gen, s)
    ensures !HasMethods(src[k + 1..], s)
  {}

  lemma MoreBefore(src: seq<Decl>, gen: seq<Decl>, done: set<string>, s: string, i: nat, k: nat)
    requires i < k < |src| && MethodOf(src[k], s)
    ensures More(src, gen, done + {s}, i) == More(src, gen, done, i)
  {
    HasMethodsAfter(src, i, k, s);
  }

  lemma NotAmong(src: seq<Decl>, gen: seq<Decl>, done: set<string>, i: nat, k: nat)
    requires Alone(src, k) && i < k < |src| && src[k].kind.Func?
    ensures src[k] !in [src[i]] + More(src, gen, done, i)
  {
    if src[k] in More(src, gen, done, i) {
      NewFrom(src, gen, src[i].names[1], src[k]);
      BodyIn(src, k);
    }
  }

  lemma HasMethodsAfter(ds: seq<Decl>, i: nat, k: nat, s: string)
    requires i < k < |ds| && MethodOf(ds[k], s)
    ensures HasMethods(ds[i + 1..], s)
  {
    assert ds[i + 1..][k - (i + 1)] == ds[k];
  }

  lemma {:induction false} CoverNone(src: seq<Decl>, ignore: set<string>, code: seq<Decl>)
    ensures CoverAll(src, [], ignore, code) == code
    decreases |code|
  {
    if code != [] { CoverNone(src, ignore, code[1..]); }
  }

  /** Functions of other names keep their bodies. */
  lemma {:induction false} CoverSkip(src: seq<Decl>, gens: seq<Decl>, ignore: set<string>, g: Decl, code: seq<Decl>)
    requires !Coverable(g, ignore) || Bodies(src, g.names) == [] || Bodies(code, g.names) == []
    ensures CoverAll(src, gens + [g], ignore, code) == CoverAll(src, gens, ignore, code)
    decreases |code|
  {
    if code != [] {
      var d := code[0];
      assert (gens + [g])[..|gens|] == gens;
      if d in src && d.kind.Func? {
        var i :| 0 <= i < |src| && src[i] == d;
        BodyIn(src, i);
        BodyIn(code, 0);
      }
      CoverSkip(src, gens, ignore, g, code[1..]);
    }
  }

  /** Replacing the first copy of a function of the source covers it. */
  lemma {:induction false} ReplaceCovers(src: seq<Decl>, gens: seq<Decl>, ignore: set<string>, g: Decl, f: Decl,
                                         code: seq<Decl>)
    requires f in src && f.kind.Func? && f.names == g.names && Coverable(g, ignore)
    requires Bodies(gens, g.names) == [] && |Bodies(code, g.names)| <= 1 && f in code
    ensures ReplaceFirst(CoverAll(src, gens, ignore, code), f, f.(body := Over(f.body, g.body)))
         == CoverAll(src, gens + [g], ignore, code)
    decreases |code|
  {
    var d, t := code[0], code[1..];
    assert code == [d] + t;
    CoverHead(src, gens, ignore, code);
    CoverHead(src, gens + [g], ignore, code);
    assert (gens + [g])[..|gens|] == gens;
    if d == f {
      CoverBodyIs(gens, ignore, f);
      CoverSkip(src, gens, ignore, g, t);
    } else {
      MergedBody(t, f);
      assert BodyOf(d, g.names) == [];
      ReplaceCovers(src, gens, ignore, g, f, t);
    }
  }

  lemma CoverHead(src: seq<Decl>, gens: seq<Decl>, ignore: set<string>, code: seq<Decl>)
    requires code != []
    ensures
      var r := CoverAll(src, gens, ignore, code);
      r[0] == CoverOne(src, gens, ignore, code[0]) && r[1..] == CoverAll(src, gens, ignore, code[1..])
  {
  }

  /** The map of the methods of every struct. */
  ghost predicate Parsed(m: map<string, seq<Decl>>, ds: seq<Decl>) {
    m.Keys == Structs(ds) && forall s :: Methods(ds, s) == if s in m then m[s] else []
  }

  lemma OneMoreMethod(ds: seq<Decl>, d: Decl, s: string)
    ensures Methods(ds + [d], s) == Methods(ds, s) + if MethodOf(d, s) then [d] else []
  {
    assert [d][1..] == [];
    MethodsAppend(ds, [d], s);
    assert Methods([d], s) == if MethodOf(d, s) then [d] else [];
  }

  lemma OneMoreStruct(ds: seq<Decl>, d: Decl)
    ensures Structs(ds + [d]) == Structs(ds) + if d.kind.Func? && |d.names| == 2 then {d.names[1]} else {}
  {
    assert (ds + [d])[..|ds|] == ds;
  }

  lemma ParsedOther(m: map<string, seq<Decl>>, ds: seq<Decl>, d: Decl)
    requires Parsed(m, ds) && (!d.kind.Func? || |d.names| != 2)
    ensures Parsed(m, ds + [d])
  {
    OneMoreStruct(ds, d);
    forall s
      ensures Methods(ds + [d], s) == Methods(ds, s)
    {
      OneMoreMethod(ds, d, s);
    }
  }

  lemma ParsedMethod(m: map<string, seq<Decl>>, ds: seq<Decl>, d: Decl, s: string)
    requires Parsed(m, ds) && MethodOf(d, s)
    ensures Parsed(m[s := (if s in m then m[s] else []) + [d]], ds + [d])
  {
    var m' := m[s := (if s in m then m[s] else []) + [d]];
    OneMoreStruct(ds, d);
    forall t
      ensures Methods(ds + [d], t) == if t in m' then m'[t] else []
    {
      ParsedEntry(m, m', Methods(ds, t), d, s, t);
      OneMoreMethod(ds, d, t);
    }
  }

  lemma ParsedEntry(m: map<string, seq<Decl>>, m': map<string, seq<Decl>>, methods: seq<Decl>, d: Decl,
                    s: string, t: string)
    requires m' == m[s := (if s in m then m[s] else []) + [d]] && methods == (if t in m then m[t] else [])
    requires MethodOf(d, s)
    ensures methods + (if MethodOf(d, t) then [d] else []) == if t in m' then m'[t] else []
  {
    assert methods + [] == methods;
  }

  class CodeAst {
    var code: seq<Decl>
    const astInfos: seq<Decl>
    var merged: set<string>
    const cover: bool
    const ignore: set<string>

    constructor (infos: seq<Decl>, cover: bool, ignore: set<string>)
      ensures code == astInfos == infos && merged == {} && this.cover == cover && this.ignore == ignore
    {
      code, astInfos, merged := infos, infos, {};
      this.cover, this.ignore := cover, ignore;
    }

    static method ParseStructMethods(infos: seq<Decl>) returns (m: map<string, seq<Decl>>)
      ensures m.Keys == Structs(infos)
      ensures forall s <- m :: m[s] == Methods(infos, s)
    {
      m := map[];
      for i := 0 to |infos|
        invariant Parsed(m, infos[..i])
      {
        var info := infos[i];
        assert infos[..i + 1] == infos[..i] + [info];
        if !info.kind.Func? || |info.names| != 2 {
          ParsedOther(m, infos[..i], info);
          continue;
        }
        var s := info.names[1];
        ParsedMethod(m, infos[..i], info, s);
        if s !in m {
          assert [] + [info] == [info];
          m := m[s := [info]];
        } else {
          m := m[s := m[s] + [info]];
        }
      }
      assert infos[..|infos|] == infos;
    }

    /** The new methods of one struct, and the last method it has. */
    method NewMethods(srcMethods: seq<Decl>, genMethods: seq<Decl>, ghost s: string)
      returns (nonExisted: seq<Decl>, last: Decl)
      requires Wellformed(astInfos) && srcMethods == Methods(astInfos, s) && srcMethods != []
      requires forall g <- genMethods :: MethodOf(g, s)
      ensures nonExisted == Fresh(astInfos, genMethods)
      ensures last == srcMethods[|srcMethods| - 1]
    {
      var names;
      names, last := OwnNamesOf(srcMethods);
      nonExisted := [];
      for i := 0 to |genMethods|
        invariant nonExisted == Fresh(astInfos, genMethods[..i])
      {
        var g := genMethods[i];
        assert g in genMethods;
        OwnNames(astInfos, s, g);
        assert genMethods[..i + 1] == genMethods[..i] + [g] && [g][1..] == [];
        FreshAppend(astInfos, genMethods[..i], [g]);
        if Own(g) !in names {
          nonExisted := nonExisted + [g];
        }
      }
      assert genMethods[..|genMethods|] == genMethods;
    }

    static method OwnNamesOf(methods: seq<Decl>) returns (names: set<string>, last: Decl)
      requires methods != []
      ensures forall n :: n in names <==> exists m <- methods :: Own(m) == n
      ensures last == methods[|methods| - 1]
    {
      names, last := {}, methods[0];
      for i := 0 to |methods|
        invariant names == set k | 0 <= k < i :: Own(methods[k])
        invariant i > 0 ==> last == methods[i - 1]
      {
        names := names + {Own(methods[i])};
        last := methods[i];
      }
      forall m <- methods
        ensures Own(m) in names
      {
        var k :| 0 <= k < |methods| && methods[k] == m;
      }
    }

    /** Go iterates over the structs in any order. */
    method MergeStructMethodsCode(gen: seq<Decl>)
      requires Wellformed(astInfos) && code == astInfos && merged == {}
      modifies this
      ensures code == Woven(astInfos, gen) && merged == MergedStructs(astInfos, gen)
    {
      var srcMap := ParseStructMethods(astInfos);
      var genMap := ParseStructMethods(gen);
      var todo := genMap.Keys;
      WeaveNone(astInfos, gen, 0);
      ghost var done: set<string> := {};
      while todo != {}
        invariant done + todo == Structs(gen) && done !! todo
        invariant code == Weave(astInfos, gen, done, 0)
        invariant merged == MergedAmong(astInfos, gen, done)
        decreases todo
      {
        var s :| s in todo;
        todo := todo - {s};
        OneMoreMerged(astInfos, gen, done, s);
        MergeMethodsOf(s, srcMap, genMap[s], gen, done);
        done := done + {s};
      }
    }

    method MergeMethodsOf(s: string, srcMap: map<string, seq<Decl>>, genMethods: seq<Decl>,
                          ghost gen: seq<Decl>, ghost done: set<string>)
      requires Wellformed(astInfos) && s !in done && genMethods == Methods(gen, s)
      requires srcMap.Keys == Structs(astInfos) && forall t <- srcMap :: srcMap[t] == Methods(astInfos, t)
      requires code == Weave(astInfos, gen, done, 0)
      modifies this
      ensures code == Weave(astInfos, gen, done + {s}, 0)
      ensures merged == old(merged) + if New(astInfos, gen, s) == [] then {} else {s}
    {
      StructHasMethods(astInfos, s);
      if s !in srcMap {
        assert New(astInfos, gen, s) == [];
        WeaveSame(astInfos, gen, done, s, 0);
        return;
      }
      forall g <- genMethods
        ensures MethodOf(g, s)
      {
        MethodsAre(gen, s, g);
      }
      var nonExisted, last := NewMethods(srcMap[s], genMethods, s);
      NewIsFresh(astInfos, gen, s);
      if |nonExisted| > 0 {
        ghost var k := LastIsLast(astInfos, s);
        OnlyOne(astInfos, k);
        InsertWeaves(astInfos, gen, done, s, k);
        code := InsertBehind(code, last, nonExisted);
        merged := merged + {s};
      } else {
        WeaveSame(astInfos, gen, done, s, 0);
      }
    }

    method CoverFuncCode(gen: seq<Decl>)
      requires Wellformed(astInfos) && Wellformed(gen) && code == Woven(astInfos, gen)
      modifies this`code
      ensures code == CoverAll(astInfos, gen, ignore, Woven(astInfos, gen))
    {
      var funcs := SrcFuncs();
      ghost var base := code;
      CoverNone(astInfos, ignore, base);
      for i := 0 to |gen|
        invariant code == CoverAll(astInfos, gen[..i], ignore, base)
      {
        var g := gen[i];
        assert gen[..i + 1] == gen[..i] + [g];
        if !g.kind.Func? {
          CoverSkip(astInfos, gen[..i], ignore, g, base);
          continue;
        }
        NotSpecial(g);
        var name := GetName(g);
        if name == "init" || name == "_" || (if |g.names| == 2 then g.names[0] else name) in ignore {
          CoverSkip(astInfos, gen[..i], ignore, g, base);
          continue;
        }
        if Bodies(astInfos, g.names) != [] { NamedFunc(astInfos, g); }
        if name in funcs {
          var f := funcs[name];
          SameName(f, g);
          ReadyToCover(astInfos, gen, i, f);
          ReplaceCovers(astInfos, gen[..i], ignore, g, f, base);
          code := ReplaceFirst(code, f, f.(body := Over(f.body, g.body)));
        } else {
          CoverSkip(astInfos, gen[..i], ignore, g, base);
        }
      }
      assert gen[..|gen|] == gen;
    }

    method SrcFuncs() returns (m: map<string, Decl>)
      ensures forall n <- m :: m[n] in astInfos && m[n].kind.Func? && GetName(m[n]) == n
      ensures forall d <- astInfos :: d.kind.Func? ==> GetName(d) in m
    {
      m := map[];
      for i := 0 to |astInfos|
        invariant forall n <- m :: m[n] in astInfos && m[n].kind.Func? && GetName(m[n]) == n
        invariant forall d <- astInfos[..i] :: d.kind.Func? ==> GetName(d) in m
      {
        if astInfos[i].kind.Func? {
          m := m[GetName(astInfos[i]) := astInfos[i]];
        }
      }
    }

    method AppendNonExistedCode(gen: seq<Decl>)
      modifies this`code
      ensures code == old(code) + Appended(astInfos, old(code), merged, gen)
    {
      var names := {};
      for i := 0 to |astInfos|
        invariant names == set k | 0 <= k < i :: GetName(astInfos[k])
      {
        names := names + {GetName(astInfos[i])};
      }
      var more := [];
      for i := 0 to |gen|
        invariant code == old(code)
        invariant more + Appended(astInfos, code, merged, gen[i..]) == Appended(astInfos, code, merged, gen)
      {
        var g := gen[i];
        ghost var rest := Appended(astInfos, code, merged, gen[i + 1..]);
        assert gen[i..][1..] == gen[i + 1..];
        ghost var was := more;
        if !g.kind.Func? || (|g.names| == 2 && g.names[1] in merged) {
          assert !Missing(astInfos, code, merged, g);
        } else {
          var name := GetName(g);
          assert name in names <==> HasName(astInfos, name);
          var needed := name !in names || ((name == "_" || name == "init") && !Shown(code, g.body.text));
          if needed {
            more := more + [g];
          }
        }
        assert more == was + if Missing(astInfos, code, merged, g) then [g] else [];
        Assoc(was, if Missing(astInfos, code, merged, g) then [g] else [], rest);
      }
      assert more + [] == more;
      code := code + more;
    }

    /** The passes over functions, in the order of `mergeCode`. */
    method MergeCode(gen: seq<Decl>)
      requires Wellformed(astInfos) && Wellformed(gen) && code == astInfos && merged == {}
      modifies this
      ensures code == Merge(astInfos, gen, cover, ignore)
    {
      MergeStructMethodsCode(gen);
      if cover {
        CoverFuncCode(gen);
      }
      AppendNonExistedCode(gen);
    }
  }

  function Own(d: Decl): string {
    if d.names == [] then "" else d.names[0]
  }

  lemma OwnNames(src: seq<Decl>, s: string, g: Decl)
    requires MethodOf(g, s)
    ensures Bodies(src, g.names) != [] <==> exists m <- Methods(src, s) :: Own(m) == Own(g)
  {
    if Bodies(src, g.names) != [] {
      var i := FromBodies(src, g.names);
      MethodsAre(src, s, src[i]);
    }
    if exists m <- Methods(src, s) :: Own(m) == Own(g) {
      var m :| m in Methods(src, s) && Own(m) == Own(g);
      MethodsAre(src, s, m);
      SameMethod(m, g, s);
      var i :| 0 <= i < |src| && src[i] == m;
      BodyIn(src, i);
    }
  }

  lemma SameMethod(m: Decl, g: Decl, s: string)
    requires MethodOf(m, s) && MethodOf(g, s) && Own(m) == Own(g)
    ensures m.names == g.names
  {}

  lemma StructHasMethods(ds: seq<Decl>, s: string)
    ensures s in Structs(ds) <==> HasMethods(ds, s)
    ensures HasMethods(ds, s) ==> Methods(ds, s) != []
  {
    StructsAre(ds, s);
    if HasMethods(ds, s) {
      var i :| 0 <= i < |ds| && MethodOf(ds[i], s);
      MethodsAre(ds, s, ds[i]);
    }
  }

  lemma NamedFunc(src: seq<Decl>, g: Decl)
    requires g.kind.Func? && Bodies(src, g.names) != []
    ensures exists d :: d in src && d.kind.Func? && GetName(d) == GetName(g)
  {
    var i := FromBodies(src, g.names);
    assert src[i] in src;
  }

  lemma ReadyToCover(src: seq<Decl>, gen: seq<Decl>, i: nat, f: Decl)
    requires Wellformed(src) && Wellformed(gen) && i < |gen|
    requires f in src && f.kind.Func? && gen[i].kind.Func? && f.names == gen[i].names && !Special(f.names)
    ensures Bodies(gen[..i], f.names) == []
    ensures f in Woven(src, gen) && |Bodies(Woven(src, gen), f.names)| <= 1
  {
    var g := gen[i];
    assert gen == gen[..i] + gen[i..];
    BodiesAppend(gen[..i], gen[i..], f.names);
    BodyIn(gen[i..], 0);
    assert src[0..] == src;
    SrcInWeave(src, gen, Structs(gen), 0, f);
    WovenBodies(src, gen, f.names);
  }
}
