/** Attributes and groups of the slog handler (pkg/otelslog): a handler keeps its groups in a list
    that starts with the innermost one and is shared with the handlers it was derived from; a
    record renders that list as nested maps. */
module LogGroups {
  import opened Wrappers

  // ---------- attributes ----------

  datatype Value = Empty | Plain(text: string) | Map(kvs: seq<KeyValue>)

  datatype KeyValue = KeyValue(key: string, value: Value)

  /** Attributes as slog passes them; `Nil` is a value that holds nothing. */
  datatype Attr = Attr(key: string, value: SlogValue)

  datatype SlogValue = Nil | Scalar(text: string) | Members(attrs: seq<Attr>)

  function Convert(v: SlogValue): Value
    decreases v
  {
    match v
    case Nil => Empty
    case Scalar(text) => Plain(text)
    case Members(list) => Map(KeptAll(list))
  }

  function ConvertEach(list: seq<Attr>): seq<KeyValue>
    decreases list
  {
    if list == [] then [] else [KeyValue(list[0].key, Convert(list[0].value))] + ConvertEach(list[1..])
  }

  /** An attribute without a key is inlined if it is a group and dropped if it holds nothing. */
  function Kept(a: Attr): seq<KeyValue>
    decreases a
  {
    if a.key == "" && a.value.Members? then ConvertEach(a.value.attrs)
    else if a.key == "" && a.value.Nil? then []
    else [KeyValue(a.key, Convert(a.value))]
  }

  function KeptAll(list: seq<Attr>): seq<KeyValue>
    decreases list
  {
    if list == [] then [] else Kept(list[0]) + KeptAll(list[1..])
  }

  // ---------- the list of groups, innermost first ----------

  datatype Scope = Scope(name: string, attrs: seq<KeyValue>)

  /** A handler: its own attributes and its groups. */
  datatype View = View(attrs: seq<KeyValue>, groups: seq<Scope>)

  datatype With = WithAttrs(attrs: seq<Attr>) | WithGroup(name: string)

  function Derive(v: View, w: With): View {
    match w
    case WithGroup(name) => v.(groups := [Scope(name, [])] + v.groups)
    case WithAttrs(list) =>
      if v.groups == [] then v.(attrs := v.attrs + KeptAll(list))
      else v.(groups := Grown(v.groups, KeptAll(list)))
  }

  function Grown(groups: seq<Scope>, kvs: seq<KeyValue>): seq<Scope>
    requires groups != []
  {
    [groups[0].(attrs := groups[0].attrs + kvs)] + groups[1..]
  }

  function DeriveAll(v: View, ops: seq<With>): View
    decreases |ops|
  {
    if ops == [] then v else DeriveAll(Derive(v, ops[0]), ops[1..])
  }

  function NonEmpty(groups: seq<Scope>): seq<Scope> {
    if groups == [] || groups[0].attrs != [] then groups else NonEmpty(groups[1..])
  }

  /** The groups around a rendered value; those without attributes of their own are passed over. */
  function Around(groups: seq<Scope>, out: KeyValue): KeyValue {
    if groups == [] then out
    else Around(groups[1..], if groups[0].attrs == [] then out
                             else KeyValue(groups[0].name, Map(groups[0].attrs + [out])))
  }

  function Rendered(groups: seq<Scope>, kvs: seq<KeyValue>): KeyValue
    requires groups != []
  {
    Around(groups[1..], KeyValue(groups[0].name, Map(groups[0].attrs + kvs)))
  }

  /** The attributes of the record `convertRecord` emits. */
  function Record(v: View, rec: seq<Attr>): seq<KeyValue> {
    v.attrs +
    if v.groups == [] then KeptAll(rec)
    else if rec != [] then [Rendered(v.groups, KeptAll(rec))]
    else if NonEmpty(v.groups) == [] then []
    else [Rendered(NonEmpty(v.groups), [])]
  }

  // ---------- the classes ----------

  class KvBuffer {
    var data: seq<KeyValue>

    constructor ()
      ensures data == []
    {
      data := [];
    }

    static method Clone(b: KvBuffer?) returns (c: KvBuffer?)
      ensures b == null <==> c == null
      ensures b != null ==> fresh(c) && c.data == b.data
    {
      if b == null {
        return null;
      }
      var copy := new KvBuffer();
      copy.data := b.data;
      return copy;
    }

    method AddAttr(attr: Attr)
      modifies this
      ensures data == old(data) + Kept(attr)
    {
      if attr.key == "" {
        if attr.value.Members? {
          var list := attr.value.attrs;
          for i := 0 to |list|
            invariant data + ConvertEach(list[i..]) == old(data) + ConvertEach(list)
          {
            assert list[i..][1..] == list[i + 1..];
            var kv := KeyValue(list[i].key, Convert(list[i].value));
            Assoc(data, [kv], ConvertEach(list[i + 1..]));
            data := data + [kv];
          }
          assert ConvertEach(list[|list|..]) == [];
          return;
        }
        if attr.value.Nil? {
          return;
        }
      }
      data := data + [KeyValue(attr.key, Convert(attr.value))];
    }

    method AddAttrs(attrs: seq<Attr>)
      modifies this
      ensures data == old(data) + KeptAll(attrs)
    {
      for i := 0 to |attrs|
        invariant data + KeptAll(attrs[i..]) == old(data) + KeptAll(attrs)
      {
        assert attrs[i..][1..] == attrs[i + 1..];
        Assoc(data, Kept(attrs[i]), KeptAll(attrs[i + 1..]));
        AddAttr(attrs[i]);
      }
      assert KeptAll(attrs[|attrs|..]) == [];
    }
  }

  ghost function Self(b: KvBuffer?): set<object> {
    if b == null then {} else {b}
  }

  function Data(b: KvBuffer?): seq<KeyValue>
    reads b
  {
    if b == null then [] else b.data
  }

  class Group {
    var name: string
    var attrs: KvBuffer?
    var next: Group?
    ghost var Repr: set<object>

    constructor (name: string, attrs: KvBuffer?, next: Group?)
      requires next != null ==> next.Valid()
      requires attrs != null ==> attrs !in ReprOf(next)
      ensures Valid() && this.name == name && this.attrs == attrs && this.next == next
      ensures Repr == {this} + Self(attrs) + ReprOf(next)
    {
      this.name, this.attrs, this.next := name, attrs, next;
      Repr := {this} + Self(attrs) + ReprOf(next);
    }

    ghost predicate Valid()
      reads this, Repr
      decreases Repr
    {
      && this in Repr
      && (attrs != null ==> attrs in Repr)
      && (next != null ==>
            && next in Repr && next.Repr <= Repr && this !in next.Repr
            && (attrs != null ==> attrs !in next.Repr)
            && next.Valid())
    }

    /** The list from here to the outermost group. */
    ghost function Scopes(): (s: seq<Scope>)
      requires Valid()
      reads Repr
      ensures s != []
      decreases Repr, 0
    {
      [Scope(name, Data(attrs))] + ScopesOf(next)
    }

    /** `NextNonEmpty`, also on nil. */
    static method NextNonEmpty(g: Group?) returns (r: Group?)
      requires g != null ==> g.Valid()
      ensures r != null ==> r.Valid()
      ensures ScopesOf(r) == NonEmpty(ScopesOf(g))
      decreases ReprOf(g)
    {
      if g == null || (g.attrs != null && |g.attrs.data| > 0) {
        return g;
      }
      r := NextNonEmpty(g.next);
    }

    method Render(kvs: seq<KeyValue>) returns (out: KeyValue)
      requires Valid()
      ensures out == Rendered(Scopes(), kvs)
    {
      out := KeyValue(name, Map((if attrs == null then [] else attrs.data) + kvs));
      var g := next;
      while g != null
        invariant g != null ==> g.Valid()
        invariant Around(ScopesOf(g), out) == Rendered(Scopes(), kvs)
        decreases ReprOf(g)
      {
        if g.attrs != null && |g.attrs.data| > 0 {
          out := KeyValue(g.name, Map(g.attrs.data + [out]));
        }
        g := g.next;
      }
    }

    /** The copy has its own buffer and the same tail. */
    method Clone() returns (g: Group)
      requires Valid()
      ensures fresh(g) && g.Valid() && g.Scopes() == Scopes() && fresh(g.Repr - Repr)
      ensures g.attrs != null ==> fresh(g.attrs)
      ensures g.next == next
    {
      var copy := KvBuffer.Clone(attrs);
      g := new Group(name, copy, next);
    }

    method AddAttrs(list: seq<Attr>)
      requires Valid()
      modifies this, attrs
      ensures Valid() && Scopes() == Grown(old(Scopes()), KeptAll(list)) && fresh(Repr - old(Repr))
    {
      ghost var tail := ScopesOf(next);
      assert Scopes()[1..] == tail;
      if attrs == null {
        var b := new KvBuffer();
        attrs := b;
        Repr := Repr + {b};
      }
      attrs.AddAttrs(list);
      assert ScopesOf(next) == tail;
    }
  }

  ghost function ReprOf(g: Group?): set<object>
    reads g
  {
    if g == null then {} else g.Repr
  }

  ghost function ScopesOf(g: Group?): seq<Scope>
    requires g != null ==> g.Valid()
    reads if g == null then {} else {g} + g.Repr
    decreases ReprOf(g), 1
  {
    if g == null then [] else g.Scopes()
  }

  class Handler {
    var attrs: KvBuffer?
    var group: Group?

    /** `NewHandler`; level, source and logger are not part of this model. */
    constructor ()
      ensures Valid() && Show() == View([], [])
    {
      attrs, group := null, null;
    }

    ghost predicate Valid()
      reads this, if group == null then {} else {group} + group.Repr
    {
      group != null ==> group.Valid()
    }

    ghost function Show(): View
      requires Valid()
      reads this, attrs, if group == null then {} else {group} + group.Repr
    {
      View(Data(attrs), ScopesOf(group))
    }

    /** Nothing that existed before is changed, so earlier handlers render as they did. */
    method WithAttrs(list: seq<Attr>) returns (h: Handler)
      requires Valid()
      ensures fresh(h) && h.Valid()
      ensures h.Show() == Derive(Show(), With.WithAttrs(list))
    {
      ghost var was := Show();
      h := new Handler();
      h.attrs, h.group := attrs, group;
      if h.group != null {
        h.group := CloneGroup(list);
        assert h.Show() == View(was.attrs, Grown(was.groups, KeptAll(list)));
      } else {
        h.attrs := CloneAttrs(list);
        assert h.Show() == View(was.attrs + KeptAll(list), was.groups);
      }
    }

    method CloneGroup(list: seq<Attr>) returns (g: Group)
      requires Valid() && group != null
      ensures fresh(g) && g.Valid() && fresh(g.Repr - group.Repr)
      ensures g.Scopes() == Grown(Show().groups, KeptAll(list))
    {
      g := group.Clone();
      g.AddAttrs(list);
    }

    method CloneAttrs(list: seq<Attr>) returns (b: KvBuffer)
      requires Valid()
      ensures fresh(b) && b.data == Show().attrs + KeptAll(list)
    {
      var c := KvBuffer.Clone(attrs);
      if c == null {
        b := new KvBuffer();
      } else {
        b := c;
      }
      b.AddAttrs(list);
    }

    method WithGroup(name: string) returns (h: Handler)
      requires Valid()
      ensures fresh(h) && h.Valid()
      ensures h.Show() == Derive(Show(), With.WithGroup(name))
    {
      h := new Handler();
      var g := new Group(name, null, group);
      h.attrs, h.group := attrs, g;
      assert h.Show().attrs == Show().attrs;
      assert g.Scopes() == [Scope(name, [])] + ScopesOf(group);
      assert h.Show().groups == [Scope(name, [])] + Show().groups;
    }

    /** The kept attributes of a record, collected in a buffer of their own. */
    static method Buffered(rec: seq<Attr>) returns (kvs: seq<KeyValue>)
      ensures kvs == KeptAll(rec)
    {
      var buf := new KvBuffer();
      buf.AddAttrs(rec);
      assert [] + KeptAll(rec) == KeptAll(rec);
      return buf.data;
    }

    /** What the groups contribute to the emitted record. */
    method GroupAttr(rec: seq<Attr>) returns (out: seq<KeyValue>)
      requires Valid() && group != null
      ensures out == Record(View([], ScopesOf(group)), rec)
    {
      ghost var groups := ScopesOf(group);
      if |rec| > 0 {
        var kvs := Buffered(rec);
        var kv := group.Render(kvs);
        assert kv == Rendered(groups, KeptAll(rec));
        out := [kv];
      } else {
        var g := Group.NextNonEmpty(group);
        out := [];
        if g != null {
          var kv := g.Render([]);
          out := [kv];
        }
      }
      assert [] + out == out;
    }

    /** The attributes `convertRecord` puts into the emitted record. */
    method ConvertRecord(rec: seq<Attr>) returns (out: seq<KeyValue>)
      requires Valid()
      ensures out == Record(Show(), rec)
    {
      out := [];
      if attrs != null && |attrs.data| > 0 {
        out := out + attrs.data;
      }
      ghost var own, groups := out, ScopesOf(group);
      if group != null {
        var more := GroupAttr(rec);
        JoinRecord(own, groups, rec);
        out := out + more;
      } else if |rec| > 0 {
        var kvs := Buffered(rec);
        out := out + kvs;
      } else {
        assert own == own + KeptAll(rec);
      }
      assert Show() == View(own, groups);
    }
  }

  lemma JoinRecord(own: seq<KeyValue>, groups: seq<Scope>, rec: seq<Attr>)
    ensures Record(View(own, groups), rec) == own + Record(View([], groups), rec)
  {
    var more := Record(View([], groups), rec);
    assert Record(View(own, groups), rec)[|own|..] == more;
  }

  // ---------- reading a chain from the outside ----------

  /** The attributes a chain adds before its next group. */
  function Own(ops: seq<With>): seq<KeyValue>
    decreases |ops|
  {
    if ops == [] || ops[0].WithGroup? then [] else KeptAll(ops[0].attrs) + Own(ops[1..])
  }

  predicate Grouped(ops: seq<With>)
    decreases |ops|
  {
    ops != [] && (ops[0].WithGroup? || Grouped(ops[1..]))
  }

  /** What the source does, outermost group first: a group around another one shows up only if it
      has attributes of its own, the innermost one also if the record has any, kept or not. */
  function CodeNest(ops: seq<With>, rec: seq<Attr>): seq<KeyValue>
    decreases |ops|, 0
  {
    if ops == [] then KeptAll(rec)
    else if ops[0].WithAttrs? then KeptAll(ops[0].attrs) + CodeNest(ops[1..], rec)
    else Inside(Scope(ops[0].name, []), ops[1..], rec)
  }

  /** The rest of a chain inside group `g`, which has some attributes already. */
  function Inside(g: Scope, ops: seq<With>, rec: seq<Attr>): seq<KeyValue>
    decreases |ops|, 1
  {
    var inner := CodeNest(ops, rec);
    if g.attrs + Own(ops) == [] && Grouped(ops) then inner
    else if g.attrs + Own(ops) == [] && rec == [] then []
    else [KeyValue(g.name, Map(g.attrs + inner))]
  }

  /** What the source's comment on groups asks for: every group stands around all that is logged in
      it, and only a group that holds nothing is left out. */
  function SlogNest(ops: seq<With>, rec: seq<Attr>): seq<KeyValue>
    decreases |ops|
  {
    if ops == [] then KeptAll(rec)
    else
      var inner := SlogNest(ops[1..], rec);
      if ops[0].WithAttrs? then KeptAll(ops[0].attrs) + inner
      else if inner == [] then []
      else [KeyValue(ops[0].name, Map(inner))]
  }

  // ---------- the list renders the chain ----------

  function Within(groups: seq<Scope>, kvs: seq<KeyValue>): seq<KeyValue>
    decreases |groups|
  {
    if groups == [] then kvs
    else Within(groups[1..], if groups[0].attrs == [] then kvs
                             else [KeyValue(groups[0].name, Map(groups[0].attrs + kvs))])
  }

  lemma {:induction false} WithinOne(groups: seq<Scope>, out: KeyValue)
    ensures Within(groups, [out]) == [Around(groups, out)]
    decreases |groups|
  {
    if groups != [] {
      WithinOne(groups[1..],
        if groups[0].attrs == [] then out else KeyValue(groups[0].name, Map(groups[0].attrs + [out])));
    }
  }

  lemma {:induction false} WithinNone(groups: seq<Scope>)
    ensures Within(groups, []) == if NonEmpty(groups) == [] then [] else [Rendered(NonEmpty(groups), [])]
    decreases |groups|
  {
    if groups != [] {
      if groups[0].attrs == [] {
        WithinNone(groups[1..]);
      } else {
        WithinOne(groups[1..], KeyValue(groups[0].name, Map(groups[0].attrs + [])));
      }
    }
  }

  lemma RecordOfGroups(v: View, rec: seq<Attr>)
    requires v.groups != []
    ensures Record(v, rec) == v.attrs + Within(v.groups[1..], Inside(v.groups[0], [], rec))
  {
    var g, tail := v.groups[0], v.groups[1..];
    assert g.attrs + Own([]) == g.attrs;
    if rec == [] {
      assert g.attrs + [] == g.attrs;
      if g.attrs == [] {
        WithinNone(tail);
        assert NonEmpty(v.groups) == NonEmpty(tail);
      } else {
        WithinOne(tail, KeyValue(g.name, Map(g.attrs + [])));
      }
    } else {
      WithinOne(tail, KeyValue(g.name, Map(g.attrs + KeptAll(rec))));
    }
  }

  /** The handler derived from `v` by `ops` renders what `ops` read inside `v`. */
  lemma {:induction false} DerivedRecord(v: View, ops: seq<With>, rec: seq<Attr>)
    ensures Record(DeriveAll(v, ops), rec) ==
      v.attrs + if v.groups == [] then CodeNest(ops, rec)
                else Within(v.groups[1..], Inside(v.groups[0], ops, rec))
    decreases |ops|
  {
    if ops == [] {
      if v.groups != [] { RecordOfGroups(v, rec); }
    } else {
      var w, t := ops[0], ops[1..];
      var d := Derive(v, w);
      DerivedRecord(d, t, rec);
      if w.WithGroup? {
        assert d.groups[1..] == v.groups;
        if v.groups != [] {
          assert v.groups[0].attrs + Own(ops) == v.groups[0].attrs;
        }
      } else if v.groups == [] {
        Assoc(v.attrs, KeptAll(w.attrs), CodeNest(t, rec));
      } else {
        assert d.groups[1..] == v.groups[1..];
        InsideGrown(v.groups[0], w, t, rec);
      }
    }
  }

  lemma InsideGrown(g: Scope, w: With, t: seq<With>, rec: seq<Attr>)
    requires w.WithAttrs?
    ensures Inside(g.(attrs := g.attrs + KeptAll(w.attrs)), t, rec) == Inside(g, [w] + t, rec)
  {
    assert ([w] + t)[1..] == t;
    Assoc(g.attrs, KeptAll(w.attrs), Own(t));
    Assoc(g.attrs, KeptAll(w.attrs), CodeNest(t, rec));
    if g.attrs + KeptAll(w.attrs) + Own(t) == [] {
      assert KeptAll(w.attrs) == [];
      assert KeptAll(w.attrs) + CodeNest(t, rec) == CodeNest(t, rec);
    }
  }

  /** For every chain and every record the innermost-first list renders the outermost-first reading
      of the chain. */
  lemma HandlerReading(ops: seq<With>, rec: seq<Attr>)
    ensures Record(DeriveAll(View([], []), ops), rec) == CodeNest(ops, rec)
  {
    DerivedRecord(View([], []), ops, rec);
    assert [] + CodeNest(ops, rec) == CodeNest(ops, rec);
  }

  // ---------- what a record shows, value by value ----------

  /** What stands at the end of a path of keys: a text, a value that holds nothing, or a group
      without members. */
  datatype End = Text(text: string) | Nothing | NoMembers

  datatype Leaf = Leaf(path: seq<string>, end: End)

  function Under(key: string, leaves: seq<Leaf>): seq<Leaf> {
    if leaves == [] then [Leaf([key], NoMembers)]
    else seq(|leaves|, i requires 0 <= i < |leaves| => Leaf([key] + leaves[i].path, leaves[i].end))
  }

  /** The leaves of what is rendered. */
  function Leaves(kvs: seq<KeyValue>): seq<Leaf>
    decreases kvs
  {
    if kvs == [] then [] else LeavesOf(kvs[0].key, kvs[0].value) + Leaves(kvs[1..])
  }

  function LeavesOf(key: string, v: Value): seq<Leaf>
    decreases v
  {
    match v
    case Empty => [Leaf([key], Nothing)]
    case Plain(text) => [Leaf([key], Text(text))]
    case Map(kvs) => Under(key, Leaves(kvs))
  }

  /** The leaves of what is logged: every value under the keys of the groups around it, where a group
      without a key adds none, and an attribute without key and value is none. */
  function Logged(list: seq<Attr>): seq<Leaf>
    decreases list
  {
    if list == [] then []
    else
      var a := list[0];
      (if a.key == "" && a.value.Nil? then []
       else if a.key == "" && a.value.Members? then LoggedEach(a.value.attrs)
       else LoggedOf(a.key, a.value))
      + Logged(list[1..])
  }

  function LoggedOf(key: string, v: SlogValue): seq<Leaf>
    decreases v
  {
    match v
    case Nil => [Leaf([key], Nothing)]
    case Scalar(text) => [Leaf([key], Text(text))]
    case Members(list) => Under(key, Logged(list))
  }

  /** The members of a group without a key; one level only. */
  function LoggedEach(list: seq<Attr>): seq<Leaf>
    decreases list
  {
    if list == [] then [] else LoggedOf(list[0].key, list[0].value) + LoggedEach(list[1..])
  }

  /** Everything logged through a chain, under the names of the groups that stand around it. */
  function LoggedIn(ops: seq<With>, rec: seq<Attr>): seq<Leaf>
    decreases |ops|
  {
    if ops == [] then Logged(rec)
    else if ops[0].WithAttrs? then Logged(ops[0].attrs) + LoggedIn(ops[1..], rec)
    else if LoggedFirst(ops[1..]) != [] || (!Grouped(ops[1..]) && rec != [])
    then Under(ops[0].name, LoggedIn(ops[1..], rec))
    else LoggedIn(ops[1..], rec)
  }

  /** What is logged in front of the next group. */
  function LoggedFirst(ops: seq<With>): seq<Leaf>
    decreases |ops|
  {
    if ops == [] || ops[0].WithGroup? then [] else Logged(ops[0].attrs) + LoggedFirst(ops[1..])
  }

  lemma {:induction false} LeavesAppend(a: seq<KeyValue>, b: seq<KeyValue>)
    ensures Leaves(a + b) == Leaves(a) + Leaves(b)
    decreases |a|
  {
    if a == [] {
      assert a + b == b;
    } else {
      assert (a + b)[1..] == a[1..] + b;
      LeavesAppend(a[1..], b);
      Assoc(LeavesOf(a[0].key, a[0].value), Leaves(a[1..]), Leaves(b));
    }
  }

  lemma LeavesOne(key: string, v: Value)
    ensures Leaves([KeyValue(key, v)]) == LeavesOf(key, v)
  {
    assert [KeyValue(key, v)][1..] == [];
  }

  lemma {:induction false} LeavesNone(kvs: seq<KeyValue>)
    ensures Leaves(kvs) == [] <==> kvs == []
  {
    if kvs != [] { assert |LeavesOf(kvs[0].key, kvs[0].value)| > 0; }
  }

  /** What is kept of a list shows what was logged. */
  lemma {:induction false} KeptShows(list: seq<Attr>)
    ensures Leaves(KeptAll(list)) == Logged(list)
    decreases list
  {
    if list != [] {
      var a := list[0];
      KeptShows(list[1..]);
      LeavesAppend(Kept(a), KeptAll(list[1..]));
      if a.key == "" && a.value.Members? {
        EachShows(a.value.attrs);
      } else if a.key != "" || !a.value.Nil? {
        LeavesOne(a.key, Convert(a.value));
        ConvertShows(a.key, a.value);
      }
    }
  }

  lemma {:induction false} ConvertShows(key: string, v: SlogValue)
    ensures LeavesOf(key, Convert(v)) == LoggedOf(key, v)
    decreases v
  {
    if v.Members? { KeptShows(v.attrs); }
  }

  lemma {:induction false} EachShows(list: seq<Attr>)
    ensures Leaves(ConvertEach(list)) == LoggedEach(list)
    decreases list
  {
    if list != [] {
      EachShows(list[1..]);
      ConvertShows(list[0].key, list[0].value);
      LeavesOne(list[0].key, Convert(list[0].value));
      LeavesAppend([KeyValue(list[0].key, Convert(list[0].value))], ConvertEach(list[1..]));
    }
  }

  lemma {:induction false} OwnShows(ops: seq<With>)
    ensures Leaves(Own(ops)) == LoggedFirst(ops)
    decreases |ops|
  {
    if ops != [] && ops[0].WithAttrs? {
      OwnShows(ops[1..]);
      KeptShows(ops[0].attrs);
      LeavesAppend(KeptAll(ops[0].attrs), Own(ops[1..]));
    }
  }

  lemma {:induction false} NestShows(ops: seq<With>, rec: seq<Attr>)
    ensures Leaves(CodeNest(ops, rec)) == LoggedIn(ops, rec)
    decreases |ops|
  {
    if ops == [] {
      KeptShows(rec);
    } else {
      var t := ops[1..];
      NestShows(t, rec);
      if ops[0].WithAttrs? {
        KeptShows(ops[0].attrs);
        LeavesAppend(KeptAll(ops[0].attrs), CodeNest(t, rec));
      } else {
        OwnShows(t);
        LeavesNone(Own(t));
        InsideBare(ops[0].name, t, rec);
        LeavesOne(ops[0].name, Map(CodeNest(t, rec)));
        if !Grouped(t) && Own(t) == [] && rec == [] { NothingLogged(t); }
      }
    }
  }

  lemma {:induction false} NothingLogged(ops: seq<With>)
    requires !Grouped(ops) && Own(ops) == []
    ensures CodeNest(ops, []) == []
    decreases |ops|
  {
    if ops != [] { NothingLogged(ops[1..]); }
  }

  /** Every value logged through any chain of handlers is in the record, in the order in which it was
      logged, under the names of its groups and its own keys; and nothing else is. */
  lemma RecordShows(ops: seq<With>, rec: seq<Attr>)
    ensures Leaves(Record(DeriveAll(View([], []), ops), rec)) == LoggedIn(ops, rec)
  {
    HandlerReading(ops, rec);
    NestShows(ops, rec);
  }

  function TextsOf(leaves: seq<Leaf>): seq<string> {
    if leaves == [] then []
    else (if leaves[0].end.Text? then [leaves[0].end.text] else []) + TextsOf(leaves[1..])
  }

  /** The scalars of attributes, and those of a chain, in the order in which they are logged. */
  function Scalars(list: seq<Attr>): seq<string>
    decreases list
  {
    if list == [] then [] else ScalarsOf(list[0].value) + Scalars(list[1..])
  }

  function ScalarsOf(v: SlogValue): seq<string>
    decreases v
  {
    match v
    case Nil => []
    case Scalar(text) => [text]
    case Members(list) => Scalars(list)
  }

  function ChainScalars(ops: seq<With>): seq<string>
    decreases |ops|
  {
    if ops == [] then []
    else (if ops[0].WithAttrs? then Scalars(ops[0].attrs) else []) + ChainScalars(ops[1..])
  }

  lemma {:induction false} TextsAppend(a: seq<Leaf>, b: seq<Leaf>)
    ensures TextsOf(a + b) == TextsOf(a) + TextsOf(b)
    decreases |a|
  {
    if a == [] {
      assert a + b == b;
    } else {
      assert (a + b)[1..] == a[1..] + b;
      TextsAppend(a[1..], b);
    }
  }

  lemma {:induction false} TextsUnder(key: string, leaves: seq<Leaf>)
    ensures TextsOf(Under(key, leaves)) == TextsOf(leaves)
    decreases |leaves|
  {
    if |leaves| > 1 {
      TextsUnder(key, leaves[1..]);
      assert Under(key, leaves)[1..] == Under(key, leaves[1..]);
    } else if leaves != [] {
      assert Under(key, leaves)[1..] == [] && leaves[1..] == [];
    } else {
      assert Under(key, leaves)[1..] == [];
    }
  }

  lemma {:induction false} TextsLogged(list: seq<Attr>)
    ensures TextsOf(Logged(list)) == Scalars(list)
    decreases list
  {
    if list != [] {
      var a, rest := list[0], Logged(list[1..]);
      TextsLogged(list[1..]);
      if a.key == "" && a.value.Nil? {
        assert [] + rest == rest && [] + Scalars(list[1..]) == Scalars(list[1..]);
      } else if a.key == "" && a.value.Members? {
        TextsEach(a.value.attrs);
        TextsAppend(LoggedEach(a.value.attrs), rest);
      } else {
        TextsOfOne(a.key, a.value);
        TextsAppend(LoggedOf(a.key, a.value), rest);
      }
    }
  }

  lemma {:induction false} TextsOfOne(key: string, v: SlogValue)
    ensures TextsOf(LoggedOf(key, v)) == ScalarsOf(v)
    decreases v
  {
    if v.Members? {
      TextsLogged(v.attrs);
      TextsUnder(key, Logged(v.attrs));
    } else {
      assert LoggedOf(key, v)[1..] == [];
    }
  }

  lemma {:induction false} TextsEach(list: seq<Attr>)
    ensures TextsOf(LoggedEach(list)) == Scalars(list)
    decreases list
  {
    if list != [] {
      TextsEach(list[1..]);
      TextsOfOne(list[0].key, list[0].value);
      TextsAppend(LoggedOf(list[0].key, list[0].value), LoggedEach(list[1..]));
    }
  }

  lemma {:induction false} TextsIn(ops: seq<With>, rec: seq<Attr>)
    ensures TextsOf(LoggedIn(ops, rec)) == ChainScalars(ops) + Scalars(rec)
    decreases |ops|
  {
    if ops == [] {
      TextsLogged(rec);
      assert [] + Scalars(rec) == Scalars(rec);
    } else {
      var inner := LoggedIn(ops[1..], rec);
      TextsIn(ops[1..], rec);
      if ops[0].WithAttrs? {
        TextsLogged(ops[0].attrs);
        TextsAppend(Logged(ops[0].attrs), inner);
        Assoc(Scalars(ops[0].attrs), ChainScalars(ops[1..]), Scalars(rec));
      } else {
        TextsUnder(ops[0].name, inner);
        GroupHasNone(ops);
      }
    }
  }

  lemma GroupHasNone(ops: seq<With>)
    requires ops != [] && ops[0].WithGroup?
    ensures ChainScalars(ops) == ChainScalars(ops[1..])
  {
    assert [] + ChainScalars(ops[1..]) == ChainScalars(ops[1..]);
  }

  /** The scalars in a record are, in order, those of the chain and then those of the record. */
  lemma ScalarsShown(ops: seq<With>, rec: seq<Attr>)
    ensures TextsOf(Leaves(Record(DeriveAll(View([], []), ops), rec))) == ChainScalars(ops) + Scalars(rec)
  {
    RecordShows(ops, rec);
    TextsIn(ops, rec);
  }

  // ---------- when that is what the comment asks for ----------

  /** Something is logged in the chain. */
  predicate Holds(ops: seq<With>, rec: seq<Attr>)
    decreases |ops|
  {
    if ops == [] then KeptAll(rec) != []
    else (ops[0].WithAttrs? && KeptAll(ops[0].attrs) != []) || Holds(ops[1..], rec)
  }

  /** A group without attributes of its own stands around a group that holds something. */
  predicate SkipsGroup(ops: seq<With>, rec: seq<Attr>)
    decreases |ops|
  {
    ops != [] &&
    (var t := ops[1..];
     (ops[0].WithGroup? && Grouped(t) && Own(t) == [] && Holds(t, rec)) || SkipsGroup(t, rec))
  }

  /** The innermost group has no attributes. */
  predicate BareLeaf(ops: seq<With>)
    decreases |ops|
  {
    Grouped(ops) && if Grouped(ops[1..]) then BareLeaf(ops[1..]) else Own(ops[1..]) == []
  }

  /** The record has attributes, but none is kept, and there is nothing else in the innermost
      group: it is rendered empty. */
  predicate HollowLeaf(ops: seq<With>, rec: seq<Attr>) {
    rec != [] && KeptAll(rec) == [] && BareLeaf(ops)
  }

  lemma {:induction false} HoldsIff(ops: seq<With>, rec: seq<Attr>)
    ensures SlogNest(ops, rec) != [] <==> Holds(ops, rec)
    decreases |ops|
  {
    if ops != [] { HoldsIff(ops[1..], rec); }
  }

  lemma {:induction false} OwnFirst(ops: seq<With>, rec: seq<Attr>)
    ensures |Own(ops)| <= |CodeNest(ops, rec)| && |Own(ops)| <= |SlogNest(ops, rec)|
    ensures !Grouped(ops) ==> CodeNest(ops, rec) == SlogNest(ops, rec) == Own(ops) + KeptAll(rec)
    decreases |ops|
  {
    if ops == [] {
      assert [] + KeptAll(rec) == KeptAll(rec);
    } else if ops[0].WithAttrs? {
      OwnFirst(ops[1..], rec);
      Assoc(KeptAll(ops[0].attrs), Own(ops[1..]), KeptAll(rec));
    }
  }

  lemma {:induction false} NestsAgree(ops: seq<With>, rec: seq<Attr>)
    requires !SkipsGroup(ops, rec) && !HollowLeaf(ops, rec)
    ensures CodeNest(ops, rec) == SlogNest(ops, rec)
    decreases |ops|
  {
    if ops != [] {
      var t := ops[1..];
      OwnFirst(t, rec);
      if Grouped(t) {
        NestsAgree(t, rec);
        HoldsIff(t, rec);
      }
      if ops[0].WithGroup? {
        InsideBare(ops[0].name, t, rec);
        if !Grouped(t) && Own(t) == [] {
          assert Own(t) + KeptAll(rec) == KeptAll(rec);
        }
      }
    }
  }

  lemma InsideBare(name: string, t: seq<With>, rec: seq<Attr>)
    ensures Inside(Scope(name, []), t, rec) ==
      if Own(t) == [] && Grouped(t) then CodeNest(t, rec)
      else if Own(t) == [] && rec == [] then []
      else [KeyValue(name, Map(CodeNest(t, rec)))]
  {
    assert [] + Own(t) == Own(t) && [] + CodeNest(t, rec) == CodeNest(t, rec);
  }

  /** Number of maps in a rendering; number of empty ones. */
  function Maps(kvs: seq<KeyValue>): nat
    decreases kvs
  {
    if kvs == [] then 0 else MapsOf(kvs[0].value) + Maps(kvs[1..])
  }

  function MapsOf(v: Value): nat
    decreases v
  {
    if v.Map? then 1 + Maps(v.kvs) else 0
  }

  function Hollow(kvs: seq<KeyValue>): nat
    decreases kvs
  {
    if kvs == [] then 0 else HollowOf(kvs[0].value) + Hollow(kvs[1..])
  }

  function HollowOf(v: Value): nat
    decreases v
  {
    if v.Map? then (if v.kvs == [] then 1 else 0) + Hollow(v.kvs) else 0
  }

  lemma {:induction false} CountsAppend(a: seq<KeyValue>, b: seq<KeyValue>)
    ensures Maps(a + b) == Maps(a) + Maps(b) && Hollow(a + b) == Hollow(a) + Hollow(b)
    decreases |a|
  {
    if a == [] {
      assert a + b == b;
    } else {
      assert (a + b)[1..] == a[1..] + b;
      CountsAppend(a[1..], b);
    }
  }

  lemma CountsOne(name: string, kvs: seq<KeyValue>)
    ensures
      var one := [KeyValue(name, Map(kvs))];
      Maps(one) == 1 + Maps(kvs) && Hollow(one) == (if kvs == [] then 1 else 0) + Hollow(kvs)
  {
    assert [KeyValue(name, Map(kvs))][1..] == [];
  }

  lemma {:induction false} HollowCount(ops: seq<With>, rec: seq<Attr>)
    ensures Hollow(CodeNest(ops, rec)) == Hollow(SlogNest(ops, rec)) + if HollowLeaf(ops, rec) then 1 else 0
    decreases |ops|
  {
    if ops != [] {
      var t := ops[1..];
      HollowCount(t, rec);
      OwnFirst(t, rec);
      if ops[0].WithAttrs? {
        CountsAppend(KeptAll(ops[0].attrs), CodeNest(t, rec));
        CountsAppend(KeptAll(ops[0].attrs), SlogNest(t, rec));
      } else {
        InsideBare(ops[0].name, t, rec);
        CountsOne(ops[0].name, CodeNest(t, rec));
        CountsOne(ops[0].name, SlogNest(t, rec));
        if !Grouped(t) && Own(t) == [] {
          assert Own(t) + KeptAll(rec) == KeptAll(rec);
        }
      }
    }
  }

  lemma {:induction false} SkipCount(ops: seq<With>, rec: seq<Attr>)
    requires !HollowLeaf(ops, rec)
    ensures Maps(CodeNest(ops, rec)) <= Maps(SlogNest(ops, rec))
    ensures SkipsGroup(ops, rec) ==> Maps(CodeNest(ops, rec)) < Maps(SlogNest(ops, rec))
    decreases |ops|
  {
    if ops != [] {
      var t := ops[1..];
      if Grouped(t) { SkipCount(t, rec); } else { NoneSkipped(t, rec); }
      OwnFirst(t, rec);
      HoldsIff(t, rec);
      if ops[0].WithAttrs? {
        CountsAppend(KeptAll(ops[0].attrs), CodeNest(t, rec));
        CountsAppend(KeptAll(ops[0].attrs), SlogNest(t, rec));
      } else {
        InsideBare(ops[0].name, t, rec);
        CountsOne(ops[0].name, CodeNest(t, rec));
        CountsOne(ops[0].name, SlogNest(t, rec));
        if !Grouped(t) && Own(t) == [] {
          assert Own(t) + KeptAll(rec) == KeptAll(rec);
        }
      }
    }
  }

  lemma {:induction false} NoneSkipped(ops: seq<With>, rec: seq<Attr>)
    requires !Grouped(ops)
    ensures !SkipsGroup(ops, rec)
    decreases |ops|
  {
    if ops != [] { NoneSkipped(ops[1..], rec); }
  }

  /** The handler nests as the comment on groups describes exactly if no group without attributes of
      its own stands around one that holds something, and the innermost group is not left hollow. */
  lemma AsDocumentedIff(ops: seq<With>, rec: seq<Attr>)
    ensures
      Record(DeriveAll(View([], []), ops), rec) == SlogNest(ops, rec)
      <==> !SkipsGroup(ops, rec) && !HollowLeaf(ops, rec)
  {
    HandlerReading(ops, rec);
    if HollowLeaf(ops, rec) {
      HollowCount(ops, rec);
    } else if SkipsGroup(ops, rec) {
      SkipCount(ops, rec);
    } else {
      NestsAgree(ops, rec);
    }
  }

  /** The example of that comment is among the failures: only group `I` is rendered. */
  lemma CommentExample()
    ensures
      var ops := [WithGroup("G"), WithGroup("H"), WithGroup("I")];
      var rec := [Attr("key", Scalar("value"))];
      && Record(DeriveAll(View([], []), ops), rec) == [KeyValue("I", Map([KeyValue("key", Plain("value"))]))]
      && SkipsGroup(ops, rec)
  {
    var rec := [Attr("key", Scalar("value"))];
    var i := [WithGroup("I")];
    var h := [WithGroup("H"), WithGroup("I")];
    var ops := [WithGroup("G"), WithGroup("H"), WithGroup("I")];
    assert ops[1..] == h && h[1..] == i && i[1..] == [] && rec[1..] == [];
    assert KeptAll(rec) == Kept(rec[0]) + [] == [KeyValue("key", Plain("value"))] by {
      assert KeptAll(rec[1..]) == [];
    }
    assert Own(h) == [] && Own(i) == [] && Own([]) == [];
    HandlerReading(ops, rec);
    InsideBare("G", h, rec);
    InsideBare("H", i, rec);
    InsideBare("I", [], rec);
    assert Holds([], rec) && Holds(i, rec) && Holds(h, rec);
  }

  // ---------- what `append` shares between records ----------

  /** Go's memory, as far as slices of attributes go: arrays, each as long as its capacity.  A cell
      holds an attribute that is whole in itself, or a group whose attributes are another slice. */
  type Memory = seq<seq<Cell>>

  datatype Slice = Slice(arr: nat, len: nat)

  datatype Cell = Whole(kv: KeyValue) | Ref(name: string, slice: Slice)

  /** A group of a handler; a nil buffer is a slice of an empty array. */
  datatype MemGroup = MemGroup(name: string, attrs: Slice)

  function Wholes(kvs: seq<KeyValue>): (cs: seq<Cell>)
    ensures |cs| == |kvs| && forall i :: 0 <= i < |kvs| ==> cs[i] == Whole(kvs[i])
  {
    seq(|kvs|, i requires 0 <= i < |kvs| => Whole(kvs[i]))
  }

  predicate AllWhole(cs: seq<Cell>) {
    forall i :: 0 <= i < |cs| ==> cs[i].Whole?
  }

  function Kvs(cs: seq<Cell>): (kvs: seq<KeyValue>)
    requires AllWhole(cs)
    ensures |kvs| == |cs| && forall i :: 0 <= i < |cs| ==> cs[i] == Whole(kvs[i])
  {
    seq(|cs|, i requires 0 <= i < |cs| => cs[i].kv)
  }

  predicate Points(m: Memory, s: Slice) {
    s.arr < |m| && s.len <= |m[s.arr]|
  }

  function Read(m: Memory, s: Slice): seq<Cell>
    requires Points(m, s)
  {
    m[s.arr][..s.len]
  }

  predicate Fits(m: Memory, s: Slice, n: nat)
    requires Points(m, s)
  {
    s.len + n <= |m[s.arr]|
  }

  /** All arrays of `m` but `a` are as they were. */
  ghost predicate OnlyChanged(m: Memory, m': Memory, a: nat) {
    |m| <= |m'| && forall b :: 0 <= b < |m| && b != a ==> m'[b] == m[b]
  }

  /** `append`: in place if the capacity allows it, else into a new array with some `room` left. */
  function Append(m: Memory, s: Slice, cs: seq<Cell>, room: seq<Cell>): (r: (Memory, Slice))
    requires Points(m, s)
    ensures OnlyChanged(m, r.0, s.arr)
    ensures |r.0[s.arr]| == |m[s.arr]| && Read(r.0, s) == Read(m, s)
    ensures Points(r.0, r.1) && Read(r.0, r.1) == Read(m, s) + cs && r.1.len == s.len + |cs|
    ensures r.1.arr == if Fits(m, s, |cs|) then s.arr else |m|
    ensures !Fits(m, s, |cs|) ==> r.0[s.arr] == m[s.arr]
    ensures Fits(m, s, |cs|) ==> r.0[s.arr][s.len + |cs|..] == m[s.arr][s.len + |cs|..]
  {
    var a := m[s.arr];
    if Fits(m, s, |cs|) then
      var b := a[..s.len] + cs + a[s.len + |cs|..];
      assert b[..s.len + |cs|] == a[..s.len] + cs && b[..s.len] == a[..s.len];
      (m[s.arr := b], Slice(s.arr, s.len + |cs|))
    else
      var b := a[..s.len] + cs + room;
      assert b[..s.len + |cs|] == a[..s.len] + cs;
      (m + [b], Slice(|m|, s.len + |cs|))
  }

  /** A list of groups in memory: every group has an array of its own for its own attributes. */
  predicate InMemory(m: Memory, gs: seq<MemGroup>) {
    && (forall j :: 0 <= j < |gs| ==> Points(m, gs[j].attrs) && AllWhole(Read(m, gs[j].attrs)))
    && (forall i, j :: 0 <= i < j < |gs| ==> gs[i].attrs.arr != gs[j].attrs.arr)
  }

  function Arrays(gs: seq<MemGroup>): set<nat> {
    set j | 0 <= j < |gs| :: gs[j].attrs.arr
  }

  /** A group with the capacity of its attributes. */
  datatype Block = Block(scope: Scope, cap: nat)

  function BlockAt(m: Memory, g: MemGroup): Block
    requires Points(m, g.attrs) && AllWhole(Read(m, g.attrs))
  {
    Block(Scope(g.name, Kvs(Read(m, g.attrs))), |m[g.attrs.arr]|)
  }

  function Blocks(m: Memory, gs: seq<MemGroup>): (r: seq<Block>)
    requires InMemory(m, gs)
    ensures |r| == |gs| && forall j :: 0 <= j < |gs| ==> r[j] == BlockAt(m, gs[j])
  {
    seq(|gs|, j requires 0 <= j < |gs| => BlockAt(m, gs[j]))
  }

  function Scopes(ks: seq<Block>): (r: seq<Scope>)
    ensures |r| == |ks| && forall j :: 0 <= j < |ks| ==> r[j] == ks[j].scope
  {
    seq(|ks|, j requires 0 <= j < |ks| => ks[j].scope)
  }

  /** What is done to the array of one group does not touch the groups further out. */
  lemma Apart(m: Memory, m': Memory, gs: seq<MemGroup>)
    requires gs != [] && InMemory(m, gs) && OnlyChanged(m, m', gs[0].attrs.arr)
    ensures InMemory(m', gs[1..]) && Blocks(m', gs[1..]) == Blocks(m, gs)[1..]
    ensures Arrays(gs) == {gs[0].attrs.arr} + Arrays(gs[1..]) && gs[0].attrs.arr !in Arrays(gs[1..])
  {
    var t := gs[1..];
    forall j | 0 <= j < |t|
      ensures t[j].attrs.arr < |m| && t[j].attrs.arr != gs[0].attrs.arr && m'[t[j].attrs.arr] == m[t[j].attrs.arr]
    {
      assert t[j] == gs[j + 1];
    }
    forall a | a in Arrays(gs)
      ensures a in {gs[0].attrs.arr} + Arrays(t)
    {
      var j :| 0 <= j < |gs| && gs[j].attrs.arr == a;
      if j > 0 { assert t[j - 1] == gs[j]; }
    }
  }

  /** One turn of the loop of `KeyValue` on memory: what is rendered so far goes behind the attributes
      of the group, unless it has none; the innermost one is rendered anyway if `leaf`. */
  function Turn(m: Memory, g: MemGroup, cs: seq<Cell>, leaf: bool, room: seq<Cell>): (r: (Memory, seq<Cell>))
    requires Points(m, g.attrs)
  {
    if leaf || g.attrs.len > 0 then
      var (m', s) := Append(m, g.attrs, cs, room);
      (m', [Ref(g.name, s)])
    else
      (m, cs)
  }

  function Pass(m: Memory, gs: seq<MemGroup>, cs: seq<Cell>, leaf: bool, room: nat -> seq<Cell>):
    (r: (Memory, seq<Cell>))
    requires InMemory(m, gs)
    decreases |gs|
  {
    if gs == [] then (m, cs)
    else
      var (m', out) := Turn(m, gs[0], cs, leaf, room(|m|));
      Apart(m, m', gs);
      Pass(m', gs[1..], out, false, room)
  }

  // ---------- reading memory ----------

  /** Cell `c` reads as `kv`, and no array of `off` is looked at. */
  ghost predicate Reads(m: Memory, off: set<nat>, c: Cell, kv: KeyValue)
    decreases kv
  {
    match c
    case Whole(w) => w == kv
    case Ref(name, s) =>
      && Points(m, s) && s.arr !in off
      && kv.key == name && kv.value.Map? && ReadsAll(m, off, Read(m, s), kv.value.kvs)
  }

  ghost predicate ReadsAll(m: Memory, off: set<nat>, cs: seq<Cell>, kvs: seq<KeyValue>)
    decreases kvs
  {
    |cs| == |kvs| && forall i :: 0 <= i < |cs| ==> Reads(m, off, cs[i], kvs[i])
  }

  /** Only arrays that are not looked at have changed, and fewer are to be avoided now. */
  lemma {:induction false} ReadsFrame(m: Memory, m': Memory, off: set<nat>, off': set<nat>, c: Cell, kv: KeyValue)
    requires Reads(m, off, c, kv) && off' <= off && |m| <= |m'|
    requires forall a :: 0 <= a < |m| && a !in off ==> m'[a] == m[a]
    ensures Reads(m', off', c, kv)
    decreases kv
  {
    if c.Ref? { AllFrame(m, m', off, off', Read(m, c.slice), kv.value.kvs); }
  }

  lemma {:induction false} AllFrame(m: Memory, m': Memory, off: set<nat>, off': set<nat>, cs: seq<Cell>,
                                    kvs: seq<KeyValue>)
    requires ReadsAll(m, off, cs, kvs) && off' <= off && |m| <= |m'|
    requires forall a :: 0 <= a < |m| && a !in off ==> m'[a] == m[a]
    ensures ReadsAll(m', off', cs, kvs)
    decreases kvs
  {
    forall i | 0 <= i < |cs|
      ensures Reads(m', off', cs[i], kvs[i])
    {
      ReadsFrame(m, m', off, off', cs[i], kvs[i]);
    }
  }

  lemma {:induction false} ReadsOne(m: Memory, off: set<nat>, c: Cell, kv: KeyValue, kv': KeyValue)
    requires Reads(m, off, c, kv) && Reads(m, off, c, kv')
    ensures kv == kv'
    decreases kv
  {
    if c.Ref? { AllOne(m, off, Read(m, c.slice), kv.value.kvs, kv'.value.kvs); }
  }

  lemma {:induction false} AllOne(m: Memory, off: set<nat>, cs: seq<Cell>, kvs: seq<KeyValue>, kvs': seq<KeyValue>)
    requires ReadsAll(m, off, cs, kvs) && ReadsAll(m, off, cs, kvs')
    ensures kvs == kvs'
    decreases kvs
  {
    forall i | 0 <= i < |cs|
      ensures kvs[i] == kvs'[i]
    {
      ReadsOne(m, off, cs[i], kvs[i], kvs'[i]);
    }
  }

  lemma WholesRead(m: Memory, off: set<nat>, kvs: seq<KeyValue>)
    ensures ReadsAll(m, off, Wholes(kvs), kvs)
  {}

  lemma AllJoin(m: Memory, off: set<nat>, cs: seq<Cell>, kvs: seq<KeyValue>, ds: seq<Cell>, kws: seq<KeyValue>)
    requires ReadsAll(m, off, cs, kvs) && ReadsAll(m, off, ds, kws)
    ensures ReadsAll(m, off, cs + ds, kvs + kws)
  {}

  /** A slice of `g`'s attributes with some cells behind them. */
  lemma RefReads(m: Memory, off: set<nat>, name: string, s: Slice, own: seq<Cell>, cs: seq<Cell>, kvs: seq<KeyValue>)
    requires Points(m, s) && s.arr !in off && AllWhole(own) && Read(m, s) == own + cs && ReadsAll(m, off, cs, kvs)
    ensures ReadsAll(m, off, [Ref(name, s)], [KeyValue(name, Map(Kvs(own) + kvs))])
  {
    assert ReadsAll(m, off, own, Kvs(own));
    AllJoin(m, off, own, Kvs(own), cs, kvs);
    assert Reads(m, off, Ref(name, s), KeyValue(name, Map(Kvs(own) + kvs)));
  }

  // ---------- one record ----------

  /** What the group `k` makes of what is rendered so far. */
  function Put(k: Block, kvs: seq<KeyValue>, leaf: bool): seq<KeyValue> {
    if Used(k, leaf) then [KeyValue(k.scope.name, Map(k.scope.attrs + kvs))] else kvs
  }

  predicate Used(k: Block, leaf: bool) {
    leaf || k.scope.attrs != []
  }

  function Nest(ks: seq<Block>, kvs: seq<KeyValue>, leaf: bool): seq<KeyValue>
    decreases |ks|
  {
    if ks == [] then kvs else Nest(ks[1..], Put(ks[0], kvs, leaf), false)
  }

  lemma {:induction false} NestWithin(ks: seq<Block>, kvs: seq<KeyValue>)
    ensures Nest(ks, kvs, false) == Within(Scopes(ks), kvs)
    decreases |ks|
  {
    if ks != [] {
      assert Scopes(ks)[1..] == Scopes(ks[1..]);
      NestWithin(ks[1..], Put(ks[0], kvs, false));
    }
  }

  /** The reading of the groups is what `Record` shows of them. */
  lemma NestRecord(own: seq<KeyValue>, ks: seq<Block>, rec: seq<Attr>)
    ensures Record(View(own, Scopes(ks)), rec) == own + Nest(ks, KeptAll(rec), rec != [])
  {
    if ks != [] {
      var v := View(own, Scopes(ks));
      RecordOfGroups(v, rec);
      assert v.groups[1..] == Scopes(ks[1..]);
      NestWithin(ks[1..], Put(ks[0], KeptAll(rec), rec != []));
      assert ks[0].scope.attrs + Own([]) == ks[0].scope.attrs;
    }
  }

  lemma TurnReads(m: Memory, gs: seq<MemGroup>, cs: seq<Cell>, kvs: seq<KeyValue>, leaf: bool, room: seq<Cell>)
    requires gs != [] && InMemory(m, gs) && ReadsAll(m, Arrays(gs), cs, kvs)
    ensures
      var (m', out) := Turn(m, gs[0], cs, leaf, room);
      ReadsAll(m', Arrays(gs[1..]), out, Put(Blocks(m, gs)[0], kvs, leaf))
  {
    var g := gs[0];
    var (m', out) := Turn(m, g, cs, leaf, room);
    Apart(m, m', gs);
    AllFrame(m, m', Arrays(gs), Arrays(gs[1..]), cs, kvs);
    if leaf || g.attrs.len > 0 {
      RefReads(m', Arrays(gs[1..]), g.name, out[0].slice, Read(m, g.attrs), cs, kvs);
    }
  }

  /** The memory after a pass: the groups, their attributes and their capacities are what they were. */
  lemma {:induction false} PassFrame(m: Memory, gs: seq<MemGroup>, cs: seq<Cell>, leaf: bool, room: nat -> seq<Cell>)
    requires InMemory(m, gs)
    ensures
      var m' := Pass(m, gs, cs, leaf, room).0;
      && |m| <= |m'| && (forall a :: 0 <= a < |m| && a !in Arrays(gs) ==> m'[a] == m[a])
      && InMemory(m', gs) && Blocks(m', gs) == Blocks(m, gs)
    decreases |gs|
  {
    if gs != [] {
      var (m', out) := Turn(m, gs[0], cs, leaf, room(|m|));
      Apart(m, m', gs);
      PassFrame(m', gs[1..], out, false, room);
      var m'' := Pass(m', gs[1..], out, false, room).0;
      assert m''[gs[0].attrs.arr] == m'[gs[0].attrs.arr];
      Together(m, m', m'', gs);
    }
  }

  /** One group and then those further out. */
  lemma Together(m: Memory, m': Memory, m'': Memory, gs: seq<MemGroup>)
    requires gs != [] && InMemory(m, gs) && |m| <= |m''|
    requires InMemory(m'', gs[1..]) && Blocks(m'', gs[1..]) == Blocks(m, gs)[1..]
    requires |m| <= |m'| && m''[gs[0].attrs.arr] == m'[gs[0].attrs.arr]
    requires |m'[gs[0].attrs.arr]| == |m[gs[0].attrs.arr]| && Read(m', gs[0].attrs) == Read(m, gs[0].attrs)
    ensures InMemory(m'', gs) && Blocks(m'', gs) == Blocks(m, gs)
  {
    var t := gs[1..];
    assert Read(m'', gs[0].attrs) == Read(m, gs[0].attrs);
    forall j | 0 <= j < |gs|
      ensures Points(m'', gs[j].attrs) && AllWhole(Read(m'', gs[j].attrs)) && BlockAt(m'', gs[j]) == BlockAt(m, gs[j])
    {
      if j > 0 {
        assert gs[j] == t[j - 1] && Blocks(m'', t)[j - 1] == Blocks(m, gs)[j];
      }
    }
  }

  lemma {:induction false} PassReads(m: Memory, gs: seq<MemGroup>, cs: seq<Cell>, kvs: seq<KeyValue>, leaf: bool,
                                     room: nat -> seq<Cell>)
    requires InMemory(m, gs) && ReadsAll(m, Arrays(gs), cs, kvs)
    ensures
      var (m', out) := Pass(m, gs, cs, leaf, room);
      ReadsAll(m', {}, out, Nest(Blocks(m, gs), kvs, leaf))
    decreases |gs|
  {
    if gs == [] {
      AllFrame(m, m, Arrays(gs), {}, cs, kvs);
    } else {
      var (m', out) := Turn(m, gs[0], cs, leaf, room(|m|));
      Apart(m, m', gs);
      TurnReads(m, gs, cs, kvs, leaf, room(|m|));
      PassReads(m', gs[1..], out, Put(Blocks(m, gs)[0], kvs, leaf), false, room);
    }
  }

  // ---------- two records ----------

  /** `b` written over the beginning of `a`. */
  function Overlay<T>(a: seq<T>, b: seq<T>): (r: seq<T>)
    ensures |r| == |a| && forall i :: 0 <= i < |a| ==> r[i] == if i < |b| then b[i] else a[i]
  {
    seq(|a|, i requires 0 <= i < |a| => if i < |b| then b[i] else a[i])
  }

  predicate Agree<T(==)>(a: seq<T>, b: seq<T>) {
    forall i :: 0 <= i < |a| && i < |b| ==> a[i] == b[i]
  }

  /** Both records find room behind the attributes of the group, so they use the same cells. */
  predicate Shared(k: Block, a: nat, b: nat) {
    |k.scope.attrs| + a <= k.cap && |k.scope.attrs| + b <= k.cap
  }

  /** In every group where two records use the same cells they put the same values there. */
  predicate NothingOverwritten(ks: seq<Block>, a: seq<KeyValue>, leafA: bool, b: seq<KeyValue>, leafB: bool)
    decreases |ks|
  {
    ks == [] ||
    (&& (Used(ks[0], leafA) && Used(ks[0], leafB) && Shared(ks[0], |a|, |b|) ==> Agree(a, b))
     && NothingOverwritten(ks[1..], Put(ks[0], a, leafA), false, Put(ks[0], b, leafB), false))
  }

  /** What is left of `a` in one group after the second record. */
  function Left(k: Block, a: seq<KeyValue>, leafA: bool, b: seq<KeyValue>, leafB: bool): (r: seq<KeyValue>)
    ensures |r| == |a|
  {
    if Used(k, leafA) && Used(k, leafB) && Shared(k, |a|, |b|) then Overlay(a, b) else a
  }

  /** What the first record reads as after the second. */
  function Blend(ks: seq<Block>, a: seq<KeyValue>, leafA: bool, b: seq<KeyValue>, leafB: bool): seq<KeyValue>
    decreases |ks|
  {
    if ks == [] then a
    else Blend(ks[1..], Put(ks[0], Left(ks[0], a, leafA, b, leafB), leafA), false, Put(ks[0], b, leafB), false)
  }

  lemma OverlayIff(x: seq<KeyValue>, a: seq<KeyValue>, b: seq<KeyValue>)
    requires |x| == |a| && (Agree(a, b) ==> x == a)
    ensures Overlay(x, b) == a <==> Agree(a, b)
  {
    if Overlay(x, b) == a {
      assert forall i :: 0 <= i < |a| && i < |b| ==> a[i] == Overlay(x, b)[i] == b[i];
    }
  }

  lemma PutOne(k: Block, a: seq<KeyValue>, b: seq<KeyValue>, leaf: bool)
    ensures Put(k, a, leaf) == Put(k, b, leaf) <==> a == b
  {
    if Used(k, leaf) && Put(k, a, leaf) == Put(k, b, leaf) {
      var own := k.scope.attrs;
      assert own + a == own + b;
      assert a == (own + a)[|own|..] && b == (own + b)[|own|..];
    }
  }

  /** `x` is what is left of `a` so far. */
  lemma {:induction false} BlendIff(ks: seq<Block>, x: seq<KeyValue>, a: seq<KeyValue>, leafA: bool,
                                    b: seq<KeyValue>, leafB: bool)
    requires |x| == |a| && (Agree(a, b) || leafA || leafB ==> x == a)
    ensures Blend(ks, x, leafA, b, leafB) == Nest(ks, a, leafA)
            <==> x == a && NothingOverwritten(ks, a, leafA, b, leafB)
    decreases |ks|
  {
    if ks != [] {
      var k := ks[0];
      var y := Left(k, x, leafA, b, leafB);
      OverlayIff(x, a, b);
      PutOne(k, y, a, leafA);
      PutOne(k, a, b, false);
      PutAgree(k, y, a, leafA, b, leafB);
      BlendIff(ks[1..], Put(k, y, leafA), Put(k, a, leafA), false, Put(k, b, leafB), false);
    }
  }

  lemma PutAgree(k: Block, y: seq<KeyValue>, a: seq<KeyValue>, leafA: bool, b: seq<KeyValue>, leafB: bool)
    requires |y| == |a| && (Agree(a, b) ==> y == a)
    requires !Used(k, leafA) || !Used(k, leafB) ==> y == a || (!Used(k, leafA) && !Used(k, leafB))
    ensures Agree(Put(k, a, leafA), Put(k, b, leafB)) ==> Put(k, y, leafA) == Put(k, a, leafA)
  {
    if Used(k, leafA) && Used(k, leafB) && Agree(Put(k, a, leafA), Put(k, b, leafB)) {
      assert Put(k, a, leafA)[0] == Put(k, b, leafB)[0];
      assert Put(k, a, true) == Put(k, b, true);
      PutOne(k, a, b, true);
    }
  }

  lemma OverlayReads(m: Memory, off: set<nat>, cs: seq<Cell>, a: seq<KeyValue>, ds: seq<Cell>, b: seq<KeyValue>)
    requires ReadsAll(m, off, cs, a) && ReadsAll(m, off, ds, b)
    ensures ReadsAll(m, off, Overlay(cs, ds), Overlay(a, b))
  {}

  /** Memory `n` keeps what a pass from `m` to `m'` did to the groups and to new arrays. */
  ghost predicate Follows(m: Memory, m': Memory, n: Memory, gs: seq<MemGroup>) {
    |m| <= |m'| <= |n| && forall a :: 0 <= a < |m'| && (a in Arrays(gs) || |m| <= a) ==> n[a] == m'[a]
  }

  /** A second append to the same slice, when `n` follows the first. */
  lemma SecondAppend(m: Memory, n: Memory, s: Slice, cs: seq<Cell>, ds: seq<Cell>, room: seq<Cell>, room': seq<Cell>)
    requires Points(m, s)
    requires
      var m' := Append(m, s, cs, room).0;
      |m'| <= |n| && n[s.arr] == m'[s.arr] && (|m| < |m'| ==> n[|m|] == m'[|m|])
    ensures Points(n, s) && |n[s.arr]| == |m[s.arr]| && Read(n, s) == Read(m, s)
    ensures
      var x := Append(m, s, cs, room).1;
      Points(n, x) && Read(n, x) == Read(m, s) + cs
    ensures
      var x := Append(m, s, cs, room).1;
      var n' := Append(n, s, ds, room').0;
      Points(n', x) &&
      Read(n', x) == Read(m, s) + if Fits(m, s, |cs|) && Fits(m, s, |ds|) then Overlay(cs, ds) else cs
  {
    var (m', x) := Append(m, s, cs, room);
    var (n', y) := Append(n, s, ds, room');
    assert Read(n, s) == Read(m', s);
    assert Read(n, x) == Read(m', x);
    if Fits(m, s, |cs|) && Fits(m, s, |ds|) {
      SharedCells(m', n, n', s, cs, ds);
    }
  }

  lemma SharedCells(m': Memory, n: Memory, n': Memory, s: Slice, cs: seq<Cell>, ds: seq<Cell>)
    requires Points(n, s) && Points(m', s) && Points(n', s) && m'[s.arr] == n[s.arr] && |n'[s.arr]| == |n[s.arr]|
    requires Fits(n, s, |cs|) && Fits(n, s, |ds|)
    requires n[s.arr][..s.len + |cs|] == Read(n, s) + cs
    requires n'[s.arr][..s.len + |ds|] == Read(n, s) + ds
    requires n'[s.arr][s.len + |ds|..] == n[s.arr][s.len + |ds|..]
    ensures n'[s.arr][..s.len + |cs|] == Read(n, s) + Overlay(cs, ds)
  {
    var p, q := n[s.arr], n'[s.arr];
    forall i | s.len <= i < s.len + |cs|
      ensures q[i] == Overlay(cs, ds)[i - s.len]
    {
      assert p[i] == p[..s.len + |cs|][i] == cs[i - s.len];
      if i < s.len + |ds| {
        assert q[i] == q[..s.len + |ds|][i] == ds[i - s.len];
      } else {
        assert q[i] == q[s.len + |ds|..][i - s.len - |ds|] == p[s.len + |ds|..][i - s.len - |ds|];
      }
    }
    forall i | 0 <= i < s.len
      ensures q[i] == Read(n, s)[i]
    {
      assert q[i] == q[..s.len + |ds|][i];
    }
  }

  /** One turn of each of two passes: what the first one rendered, read after the second. */
  lemma TurnTwice(m: Memory, n: Memory, gs: seq<MemGroup>, cs: seq<Cell>, a: seq<KeyValue>, leafA: bool,
                  ds: seq<Cell>, b: seq<KeyValue>, leafB: bool, room: seq<Cell>, room': seq<Cell>)
    requires gs != [] && InMemory(m, gs) && InMemory(n, gs) && Blocks(n, gs) == Blocks(m, gs)
    requires
      var m' := Turn(m, gs[0], cs, leafA, room).0;
      |m'| <= |n| && n[gs[0].attrs.arr] == m'[gs[0].attrs.arr] && (|m| < |m'| ==> n[|m|] == m'[|m|])
    requires ReadsAll(n, Arrays(gs), cs, a) && ReadsAll(n, Arrays(gs), ds, b)
    ensures
      var out := Turn(m, gs[0], cs, leafA, room).1;
      var n' := Turn(n, gs[0], ds, leafB, room').0;
      ReadsAll(n', Arrays(gs[1..]), out, Put(Blocks(m, gs)[0], Left(Blocks(m, gs)[0], a, leafA, b, leafB), leafA))
  {
    var g, t := gs[0], gs[1..];
    var s := g.attrs;
    var k := Blocks(m, gs)[0];
    var (m', out) := Turn(m, g, cs, leafA, room);
    var (n', _) := Turn(n, g, ds, leafB, room');
    Apart(m, m', gs);
    Apart(n, n', gs);
    AllFrame(n, n', Arrays(gs), Arrays(t), cs, a);
    AllFrame(n, n', Arrays(gs), Arrays(t), ds, b);
    if Used(k, leafA) {
      SecondAppend(m, n, s, cs, ds, room, room');
      OverlayReads(n', Arrays(t), cs, a, ds, b);
      if Used(k, leafB) && Shared(k, |a|, |b|) {
        RefReads(n', Arrays(t), g.name, out[0].slice, Read(m, s), Overlay(cs, ds), Overlay(a, b));
      } else {
        RefReads(n', Arrays(t), g.name, out[0].slice, Read(m, s), cs, a);
      }
    }
  }

  /** Two passes over the same groups: what the first one rendered, read after the second. */
  lemma {:induction false} Twice(m: Memory, n: Memory, gs: seq<MemGroup>, cs: seq<Cell>, a: seq<KeyValue>, leafA: bool,
                                 ds: seq<Cell>, b: seq<KeyValue>, leafB: bool, room: nat -> seq<Cell>)
    requires InMemory(m, gs) && InMemory(n, gs) && Blocks(n, gs) == Blocks(m, gs)
    requires Follows(m, Pass(m, gs, cs, leafA, room).0, n, gs)
    requires ReadsAll(n, Arrays(gs), cs, a) && ReadsAll(n, Arrays(gs), ds, b)
    ensures
      ReadsAll(Pass(n, gs, ds, leafB, room).0, {}, Pass(m, gs, cs, leafA, room).1,
               Blend(Blocks(m, gs), a, leafA, b, leafB))
    decreases |gs|
  {
    if gs == [] {
      AllFrame(n, n, Arrays(gs), {}, cs, a);
    } else {
      var k, t := Blocks(m, gs)[0], gs[1..];
      var (m', out) := Turn(m, gs[0], cs, leafA, room(|m|));
      var (n', put) := Turn(n, gs[0], ds, leafB, room(|n|));
      Apart(m, m', gs);
      Apart(n, n', gs);
      FollowsOn(m, m', n, n', gs, out, room);
      TurnTwice(m, n, gs, cs, a, leafA, ds, b, leafB, room(|m|), room(|n|));
      TurnReads(n, gs, ds, b, leafB, room(|n|));
      Twice(m', n', t, out, Put(k, Left(k, a, leafA, b, leafB), leafA), false, put, Put(k, b, leafB), false, room);
    }
  }

  lemma FollowsOn(m: Memory, m': Memory, n: Memory, n': Memory, gs: seq<MemGroup>, out: seq<Cell>,
                  room: nat -> seq<Cell>)
    requires gs != [] && InMemory(m, gs) && InMemory(m', gs[1..])
    requires OnlyChanged(m, m', gs[0].attrs.arr) && OnlyChanged(n, n', gs[0].attrs.arr)
    requires Follows(m, Pass(m', gs[1..], out, false, room).0, n, gs)
    ensures Follows(m', Pass(m', gs[1..], out, false, room).0, n', gs[1..])
    ensures |m'| <= |n| && n[gs[0].attrs.arr] == m'[gs[0].attrs.arr] && (|m| < |m'| ==> n[|m|] == m'[|m|])
  {
    var g, t := gs[0], gs[1..];
    var end := Pass(m', t, out, false, room).0;
    Apart(m, m', gs);
    PassFrame(m', t, out, false, room);
    assert g.attrs.arr in Arrays(gs);
    assert forall a :: a in Arrays(t) ==> a < |m|;
    assert |m| < |m'| ==> |m| !in Arrays(t);
  }

  // ---------- two records of one handler ----------

  /** The cells of the record that a handler with attributes `own` and groups `gs` emits. */
  function RecordCells(m: Memory, own: seq<KeyValue>, gs: seq<MemGroup>, rec: seq<Attr>, room: nat -> seq<Cell>):
    (r: (Memory, seq<Cell>))
    requires InMemory(m, gs)
  {
    var (m', out) := Pass(m, gs, Wholes(KeptAll(rec)), rec != [], room);
    (m', Wholes(own) + out)
  }

  lemma RecordReads(m: Memory, own: seq<KeyValue>, gs: seq<MemGroup>, rec: seq<Attr>, room: nat -> seq<Cell>)
    requires InMemory(m, gs)
    ensures
      var (m', out) := RecordCells(m, own, gs, rec, room);
      && ReadsAll(m', {}, out, Record(View(own, Scopes(Blocks(m, gs))), rec))
      && InMemory(m', gs) && Blocks(m', gs) == Blocks(m, gs)
  {
    var kvs := KeptAll(rec);
    var (m', out) := Pass(m, gs, Wholes(kvs), rec != [], room);
    WholesRead(m, Arrays(gs), kvs);
    PassReads(m, gs, Wholes(kvs), kvs, rec != [], room);
    PassFrame(m, gs, Wholes(kvs), rec != [], room);
    WholesRead(m', {}, own);
    AllJoin(m', {}, Wholes(own), own, out, Nest(Blocks(m, gs), kvs, rec != []));
    NestRecord(own, Blocks(m, gs), rec);
  }

  lemma RecordTwice(m: Memory, own: seq<KeyValue>, gs: seq<MemGroup>, first: seq<Attr>, second: seq<Attr>,
                    room: nat -> seq<Cell>)
    requires InMemory(m, gs) && InMemory(RecordCells(m, own, gs, first, room).0, gs)
    ensures
      var (m', out) := RecordCells(m, own, gs, first, room);
      var m'' := RecordCells(m', own, gs, second, room).0;
      ReadsAll(m'', {}, out, own + Blend(Blocks(m, gs), KeptAll(first), first != [], KeptAll(second), second != []))
  {
    var a, b := KeptAll(first), KeptAll(second);
    var (m', out) := Pass(m, gs, Wholes(a), first != [], room);
    var m'' := Pass(m', gs, Wholes(b), second != [], room).0;
    PassFrame(m, gs, Wholes(a), first != [], room);
    WholesRead(m', Arrays(gs), a);
    WholesRead(m', Arrays(gs), b);
    Twice(m, m', gs, Wholes(a), a, first != [], Wholes(b), b, second != [], room);
    WholesRead(m'', {}, own);
    AllJoin(m'', {}, Wholes(own), own, out, Blend(Blocks(m, gs), a, first != [], b, second != []));
  }

  /** Both records of a handler are rendered as specified, but the one emitted first may read
      differently once the second is rendered: it stays what it was exactly if, in every group in
      which both records find room, they put the same values. */
  lemma EarlierRecordKeptIff(m: Memory, own: seq<KeyValue>, gs: seq<MemGroup>, first: seq<Attr>, second: seq<Attr>,
                             room: nat -> seq<Cell>)
    requires InMemory(m, gs)
    ensures
      var ks := Blocks(m, gs);
      var view := View(own, Scopes(ks));
      var (m', out) := RecordCells(m, own, gs, first, room);
      && ReadsAll(m', {}, out, Record(view, first))
      && InMemory(m', gs)
      && var (m'', out') := RecordCells(m', own, gs, second, room);
         && ReadsAll(m'', {}, out', Record(view, second))
         && (ReadsAll(m'', {}, out, Record(view, first))
             <==> NothingOverwritten(ks, KeptAll(first), first != [], KeptAll(second), second != []))
  {
    var ks, a, b := Blocks(m, gs), KeptAll(first), KeptAll(second);
    var (m', out) := RecordCells(m, own, gs, first, room);
    RecordReads(m, own, gs, first, room);
    RecordReads(m', own, gs, second, room);
    RecordTwice(m, own, gs, first, second, room);
    var m'' := RecordCells(m', own, gs, second, room).0;
    var blend, nest := Blend(ks, a, first != [], b, second != []), Nest(ks, a, first != []);
    NestRecord(own, ks, first);
    BlendIff(ks, a, a, first != [], b, second != []);
    if ReadsAll(m'', {}, out, own + nest) {
      AllOne(m'', {}, out, own + blend, own + nest);
      assert blend == (own + blend)[|own|..] && nest == (own + nest)[|own|..];
    }
  }

  /** A group further out that is rendered and has room for one more attribute. */
  predicate RoomOutside(ks: seq<Block>) {
    exists j :: 0 < j < |ks| && ks[j].scope.attrs != [] && |ks[j].scope.attrs| < ks[j].cap
  }

  lemma {:induction false} OutsideIff(ks: seq<Block>, a: seq<KeyValue>, b: seq<KeyValue>)
    requires |a| == |b| == 1 && a != b
    ensures NothingOverwritten(ks, a, false, b, false)
            <==> forall j :: 0 <= j < |ks| && ks[j].scope.attrs != [] ==> |ks[j].scope.attrs| >= ks[j].cap
    decreases |ks|
  {
    if ks != [] {
      assert !Agree(a, b);
      PutOne(ks[0], a, b, false);
      OutsideIff(ks[1..], Put(ks[0], a, false), Put(ks[0], b, false));
      assert forall j :: 0 < j < |ks| ==> ks[j] == ks[1..][j - 1];
    }
  }

  /** Two records with attributes: records that keep the same ones cannot harm each other; of others
      the first stays what it was exactly if no outer group has room and the innermost one has too
      little for one of them, or they agree as far as both go. */
  lemma RecordsHarmlessIff(ks: seq<Block>, a: seq<KeyValue>, b: seq<KeyValue>)
    requires ks != []
    ensures NothingOverwritten(ks, a, true, b, true)
            <==> a == b || (!RoomOutside(ks) && (Shared(ks[0], |a|, |b|) ==> Agree(a, b)))
  {
    if a == b {
      SameHarmless(ks, a, true);
    } else {
      PutOne(ks[0], a, b, true);
      OutsideIff(ks[1..], Put(ks[0], a, true), Put(ks[0], b, true));
      assert forall j :: 0 < j < |ks| ==> ks[j] == ks[1..][j - 1];
    }
  }

  lemma {:induction false} SameHarmless(ks: seq<Block>, a: seq<KeyValue>, leaf: bool)
    ensures NothingOverwritten(ks, a, leaf, a, leaf)
    decreases |ks|
  {
    if ks != [] { SameHarmless(ks[1..], Put(ks[0], a, leaf), false); }
  }

  lemma ExampleGroups(ops: seq<With>, m: Memory, gs: seq<MemGroup>)
    requires ops == [WithGroup("g"), WithAttrs([Attr("a", Scalar("1")), Attr("", Nil)]), WithGroup("h")]
    requires m == [[], [Whole(KeyValue("a", Plain("1"))), Whole(KeyValue("", Empty))]]
    requires gs == [MemGroup("h", Slice(0, 0)), MemGroup("g", Slice(1, 1))]
    ensures InMemory(m, gs)
    ensures Blocks(m, gs) == [Block(Scope("h", []), 0), Block(Scope("g", [KeyValue("a", Plain("1"))]), 2)]
    ensures DeriveAll(View([], []), ops) == View([], Scopes(Blocks(m, gs)))
  {
    ExampleMemory(m, gs, KeyValue("a", Plain("1")));
    var list := [Attr("a", Scalar("1")), Attr("", Nil)];
    FirstKept(list, "a", "1");
    ExampleChain(ops, "g", list, "h");
  }

  lemma ExampleMemory(m: Memory, gs: seq<MemGroup>, kv: KeyValue)
    requires |m| == 2 && m[0] == [] && |m[1]| == 2 && m[1][0] == Whole(kv)
    requires gs == [MemGroup("h", Slice(0, 0)), MemGroup("g", Slice(1, 1))]
    ensures InMemory(m, gs) && Blocks(m, gs) == [Block(Scope("h", []), 0), Block(Scope("g", [kv]), 2)]
  {
    assert Read(m, gs[0].attrs) == [] && Read(m, gs[1].attrs) == [Whole(kv)];
    assert Kvs(Read(m, gs[1].attrs)) == [kv] && Kvs(Read(m, gs[0].attrs)) == [];
  }

  lemma FirstKept(list: seq<Attr>, key: string, text: string)
    requires list == [Attr(key, Scalar(text)), Attr("", Nil)] && key != ""
    ensures KeptAll(list) == [KeyValue(key, Plain(text))]
  {
    var rest := [Attr("", Nil)];
    assert list[1..] == rest && rest[1..] == [] && Kept(rest[0]) == [];
    assert KeptAll(rest) == [] + [];
    assert Kept(list[0]) == [KeyValue(key, Plain(text))] && KeptAll(list) == Kept(list[0]) + [];
  }

  lemma ExampleChain(ops: seq<With>, g: string, list: seq<Attr>, h: string)
    requires ops == [WithGroup(g), WithAttrs(list), WithGroup(h)]
    ensures DeriveAll(View([], []), ops) == View([], [Scope(h, []), Scope(g, KeptAll(list))])
  {
    var own := KeptAll(list);
    var v1, v2 := View([], [Scope(g, [])]), View([], [Scope(g, own)]);
    var v3 := View([], [Scope(h, []), Scope(g, own)]);
    assert Derive(View([], []), ops[0]) == v1;
    assert Derive(v1, ops[1]) == v2 by { assert [] + own == own; }
    assert Derive(v2, ops[2]) == v3;
    assert ops[1..][1..] == ops[2..] && ops[2..][1..] == [];
    assert DeriveAll(v2, ops[2..]) == DeriveAll(v3, []) == v3;
    assert DeriveAll(v1, ops[1..]) == DeriveAll(v2, ops[2..]);
  }

  lemma ExampleBlend(ks: seq<Block>, a: seq<KeyValue>, b: seq<KeyValue>)
    requires ks == [Block(Scope("h", []), 0), Block(Scope("g", [KeyValue("a", Plain("1"))]), 2)]
    requires |a| == |b| == 1 && a != b
    ensures Blend(ks, a, true, b, true) == Nest(ks, b, true) != Nest(ks, a, true)
  {
    var h, g := ks[0], ks[1];
    assert ks[1..] == [g] && ks[1..][1..] == [];
    var a1, b1 := Put(h, a, true), Put(h, b, true);
    assert Left(g, a1, false, b1, false) == b1;
    assert Blend(ks, a, true, b, true) == Blend([g], a1, false, b1, false);
    assert Blend([g], a1, false, b1, false) == Blend([], Put(g, b1, false), false, Put(g, b1, false), false);
    assert Nest(ks, b, true) == Nest([g], b1, false) == Nest([], Put(g, b1, false), false);
    assert Nest(ks, a, true) == Nest([g], a1, false) == Nest([], Put(g, a1, false), false);
    PutOne(h, a, b, true);
    PutOne(g, a1, b1, false);
  }

  lemma OneKept(key: string, text: string)
    requires key != ""
    ensures KeptAll([Attr(key, Scalar(text))]) == [KeyValue(key, Plain(text))]
  {
    var list := [Attr(key, Scalar(text))];
    assert list[1..] == [];
    assert KeptAll(list) == Kept(list[0]) + KeptAll([]);
    assert Kept(list[0]) == [KeyValue(key, Plain(text))];
  }

  lemma BlendRecords(ks: seq<Block>, first: seq<Attr>, second: seq<Attr>)
    requires first != [] && second != []
    requires
      var a, b := KeptAll(first), KeptAll(second);
      Blend(ks, a, true, b, true) == Nest(ks, b, true) != Nest(ks, a, true)
    ensures
      var view := View([], Scopes(ks));
      [] + Blend(ks, KeptAll(first), true, KeptAll(second), true) == Record(view, second) != Record(view, first)
  {
    var a, b := Nest(ks, KeptAll(first), true), Nest(ks, KeptAll(second), true);
    NestRecord([], ks, first);
    NestRecord([], ks, second);
    assert [] + a == a && [] + b == b;
  }

  lemma Changed(m: Memory, gs: seq<MemGroup>, first: seq<Attr>, second: seq<Attr>, room: nat -> seq<Cell>)
    requires InMemory(m, gs) && first != [] && second != []
    requires
      var ks, a, b := Blocks(m, gs), KeptAll(first), KeptAll(second);
      Blend(ks, a, true, b, true) == Nest(ks, b, true) != Nest(ks, a, true)
    ensures
      var view := View([], Scopes(Blocks(m, gs)));
      var (m', out) := RecordCells(m, [], gs, first, room);
      && ReadsAll(m', {}, out, Record(view, first)) && InMemory(m', gs)
      && ReadsAll(RecordCells(m', [], gs, second, room).0, {}, out, Record(view, second))
      && Record(view, second) != Record(view, first)
  {
    RecordReads(m, [], gs, first, room);
    BlendRecords(Blocks(m, gs), first, second);
    RecordTwice(m, [], gs, first, second, room);
  }

  /** A handler that fails: `WithGroup("g")`, `WithAttrs` of an attribute and of an empty one, which
      is dropped but counted for the capacity, `WithGroup("h")`.  After a second record the first one
      reads as the second. */
  lemma EarlierRecordChanges(room: nat -> seq<Cell>)
    ensures
      var ops := [WithGroup("g"), WithAttrs([Attr("a", Scalar("1")), Attr("", Nil)]), WithGroup("h")];
      var m: Memory := [[], [Whole(KeyValue("a", Plain("1"))), Whole(KeyValue("", Empty))]];
      var gs := [MemGroup("h", Slice(0, 0)), MemGroup("g", Slice(1, 1))];
      var first, second := [Attr("n", Scalar("1"))], [Attr("n", Scalar("2"))];
      && InMemory(m, gs) && DeriveAll(View([], []), ops) == View([], Scopes(Blocks(m, gs)))
      && var view := View([], Scopes(Blocks(m, gs)));
         var (m', out) := RecordCells(m, [], gs, first, room);
         && ReadsAll(m', {}, out, Record(view, first)) && InMemory(m', gs)
         && ReadsAll(RecordCells(m', [], gs, second, room).0, {}, out, Record(view, second))
         && Record(view, second) != Record(view, first)
  {
    var ops := [WithGroup("g"), WithAttrs([Attr("a", Scalar("1")), Attr("", Nil)]), WithGroup("h")];
    var m: Memory := [[], [Whole(KeyValue("a", Plain("1"))), Whole(KeyValue("", Empty))]];
    var gs := [MemGroup("h", Slice(0, 0)), MemGroup("g", Slice(1, 1))];
    var first, second := [Attr("n", Scalar("1"))], [Attr("n", Scalar("2"))];
    ExampleGroups(ops, m, gs);
    OneKept("n", "1");
    OneKept("n", "2");
    ExampleBlend(Blocks(m, gs), KeptAll(first), KeptAll(second));
    Changed(m, gs, first, second, room);
  }
}
