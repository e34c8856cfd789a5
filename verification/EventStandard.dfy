/** The client parser of pkg/sse/client.go against the standard it implements: how sections 9.2.5 and
    9.2.6 of the WHATWG HTML standard cut a stream into lines and read them, and when the client
    hands over the same events.  What the standard dispatches counts if the client has a callback
    for its type and its payload unmarshals. */
module EventStandard {
  import opened EventStream
  import opened Text
  import opened Wrappers

  // ---------- line ends ----------

  /** The complete lines of a stream: carriage return and line feed, or one of them alone, end a
      line.  `line` is what has been read of the current one. */
  function StdLines(line: string, s: string): seq<string>
    decreases |s|
  {
    if s == "" then []
    else if s[0] == '\n' then [line] + StdLines("", s[1..])
    else if s[0] == '\r' then [line] + StdLines("", if |s| > 1 && s[1] == '\n' then s[2..] else s[1..])
    else StdLines(line + [s[0]], s[1..])
  }

  predicate NoReturn(s: string) {
    '\r' !in s
  }

  lemma NoBreakNoLine(s: string)
    ensures OneLine(s) ==> Lines(s) == []
  {
    if Index(s, "\n") >= 0 {
      var i := Index(s, "\n");
      assert s[i..i + 1][0] == s[i];
    }
  }

  /** One character further: `line` is the beginning of the current line. */
  lemma {:induction false} LinesAgree(line: string, s: string)
    requires OneLine(line) && NoReturn(line)
    ensures Lines(line + s) == StdLines(line, s) <==> NoReturn(s)
    decreases |s|
  {
    if s == "" {
      assert line + s == line;
      NoBreakNoLine(line);
    } else if s[0] == '\n' {
      assert line + s == line + "\n" + s[1..];
      FirstBreak(line, s[1..]);
      LinesAgree("", s[1..]);
      assert "" + s[1..] == s[1..] && s == "\n" + s[1..];
      SameRest(line, Lines(s[1..]), StdLines("", s[1..]));
    } else if s[0] == '\r' {
      ReturnInFirst(line, s);
    } else {
      var longer := line + [s[0]];
      assert longer + s[1..] == line + s && s == [s[0]] + s[1..];
      LinesAgree(longer, s[1..]);
    }
  }

  lemma SameRest(line: string, a: seq<string>, b: seq<string>)
    ensures [line] + a == [line] + b <==> a == b
  {
    assert ([line] + a)[1..] == a && ([line] + b)[1..] == b;
  }

  /** The first line of the client goes on behind a carriage return. */
  lemma ReturnInFirst(line: string, s: string)
    requires NoReturn(line) && s != "" && s[0] == '\r' && OneLine(line)
    ensures Lines(line + s) == [] || Lines(line + s)[0] != line
  {
    var t := line + s;
    var i := Index(t, "\n");
    if i >= 0 {
      assert t[i..i + 1][0] == t[i];
      assert t[|line|] == '\r' && forall k :: 0 <= k < |line| ==> t[k] == line[k];
      assert i > |line|;
      assert Lines(t)[0] == t[..i] && |t[..i]| > |line|;
    }
  }

  /** The client sees the lines of the standard exactly if the stream has no carriage return. */
  lemma SameLinesIff(body: string)
    ensures Lines(body) == StdLines("", body) <==> '\r' !in body
  {
    assert "" + body == body;
    LinesAgree("", body);
  }

  // ---------- reading lines ----------

  /** The buffers of section 9.2.6 and the events dispatched so far.  Every value in `data` is followed
      by a line feed; `id` outlives the event. */
  datatype Standard = Standard(kind: string, data: string, id: string, events: seq<Event>)

  function TypeOf(kind: string): string {
    if kind == "" then "message" else kind
  }

  function StdDispatch(s: Standard): Standard {
    if s.data == "" then s.(kind := "")
    else s.(kind := "", data := "", events := s.events + [Event(s.id, TypeOf(s.kind), s.data[..|s.data| - 1])])
  }

  function StdField(s: Standard, name: string, value: string): Standard {
    if name == "event" then s.(kind := value)
    else if name == "data" then s.(data := s.data + value + "\n")
    else if name == "id" && '\0' !in value then s.(id := value)
    else s
  }

  function WithoutSpace(s: string): string {
    if s != "" && s[0] == ' ' then s[1..] else s
  }

  function FieldName(line: string): string {
    var i := Index(line, ":");
    if i < 0 then line else line[..i]
  }

  function FieldValue(line: string): string {
    var i := Index(line, ":");
    if i < 0 then "" else WithoutSpace(line[i + 1..])
  }

  function StdFeed(s: Standard, line: string): Standard {
    if line == "" then StdDispatch(s)
    else if line[0] == ':' then s
    else StdField(s, FieldName(line), FieldValue(line))
  }

  function StdAll(s: Standard, lines: seq<string>): Standard
    decreases |lines|
  {
    if lines == [] then s else StdAll(StdFeed(s, lines[0]), lines[1..])
  }

  const START := Standard("", "", "", [])

  // ---------- the events of both ----------

  /** Type and data of an event. */
  datatype Message = Message(kind: string, data: string)

  function Messages(events: seq<Event>): seq<Message> {
    seq(|events|, i requires 0 <= i < |events| => Message(events[i].kind, events[i].data))
  }

  /** What a client with these callbacks should hand over. */
  function Due(cfg: Config, events: seq<Event>): seq<Message>
    decreases |events|
  {
    if events == [] then []
    else
      var e := events[|events| - 1];
      Due(cfg, events[..|events| - 1])
      + if cfg.registered(e.kind) && cfg.valid(e.data) then [Message(e.kind, e.data)] else []
  }

  predicate Same(cfg: Config, c: State, s: Standard) {
    Messages(c.delivered) == Due(cfg, s.events)
  }

  /** At every point of the stream the client has handed over what it should. */
  ghost predicate SameThroughout(cfg: Config, lines: seq<string>) {
    forall n: nat :: n <= |lines| ==> SameAt(cfg, Fresh("", []), START, lines, n)
  }

  predicate SameAt(cfg: Config, c: State, s: Standard, lines: seq<string>, n: nat)
    requires n <= |lines|
  {
    Same(cfg, FeedAll(cfg, c, lines[..n]), StdAll(s, lines[..n]))
  }

  // ---------- how both read a line ----------

  /** The type a line sets and the data it adds, as the client reads it. */
  function ClientType(line: string): Option<string> {
    if HasPrefix(line, "event:") then Some(TrimSpace(line[6..])) else None
  }

  function ClientData(line: string): seq<string> {
    if HasPrefix(line, "data:") then [TrimSpace(line[5..])] else []
  }

  /** The same as the standard reads it. */
  function StdType(line: string): Option<string> {
    if FieldName(line) == "event" then Some(FieldValue(line)) else None
  }

  function StdData(line: string): seq<string> {
    if FieldName(line) == "data" then [FieldValue(line)] else []
  }

  /** No bare field name, and no more white space around a value than one space in front. */
  predicate Plain(line: string) {
    && line != "event" && line != "data"
    && (HasPrefix(line, "event:") ==> Trimmed(WithoutSpace(line[6..])))
    && (HasPrefix(line, "data:") ==> Trimmed(WithoutSpace(line[5..])))
  }

  lemma TrimIff(s: string)
    ensures TrimSpace(s) == WithoutSpace(s) <==> Trimmed(WithoutSpace(s))
  {
    TrimSpaceTidy(s);
    var w := WithoutSpace(s);
    if Trimmed(w) {
      if s == w {
        assert TrimLeft(s) == s && TrimRight(s) == s;
      } else {
        TrimAfterSpace(w);
        assert s == " " + w;
      }
    }
  }

  lemma ColonIff(s: string)
    ensures Index(s, ":") >= 0 <==> ':' in s
    ensures var i := Index(s, ":"); i >= 0 ==> s[..i + 1] == s[..i] + ":"
  {
    var i := Index(s, ":");
    if i >= 0 { assert s[i..i + 1][0] == s[i] && s[..i + 1] == s[..i] + s[i..i + 1]; }
    if ':' in s {
      var k :| 0 <= k < |s| && s[k] == ':';
      assert OccursAt(s, ":", k);
    }
  }

  lemma ColonAt(line: string, name: string)
    requires ':' !in name && HasPrefix(line, name + ":")
    ensures Index(line, ":") == |name| && line[..|name|] == name
  {
    var n := |name|;
    assert line[..n + 1] == name + ":";
    assert line[n..n + 1] == line[..n + 1][n..] == ":";
    forall k: nat | k < n
      ensures !OccursAt(line, ":", k)
    {
      assert line[k] == line[..n + 1][k] == name[k];
      assert line[k..k + 1][0] == line[k];
    }
    IndexIs(line, ":", n);
    assert line[..n] == line[..n + 1][..n];
  }

  lemma NameIs(line: string, name: string)
    requires ':' !in name && name != ""
    ensures FieldName(line) == name <==> line == name || HasPrefix(line, name + ":")
    ensures HasPrefix(line, name + ":") ==> FieldValue(line) == WithoutSpace(line[|name| + 1..])
    ensures line == name ==> FieldValue(line) == ""
  {
    ColonIff(line);
    if HasPrefix(line, name + ":") { ColonAt(line, name); }
  }

  /** Exactly the plain lines are read alike. */
  lemma PlainIff(line: string)
    ensures ClientType(line) == StdType(line) && ClientData(line) == StdData(line) <==> Plain(line)
  {
    NameIs(line, "event");
    NameIs(line, "data");
    assert "event" + ":" == "event:" && "data" + ":" == "data:";
    if HasPrefix(line, "event:") {
      TrimIff(line[6..]);
      assert line[..6][0] == 'e' && line[0] == 'e';
    } else if HasPrefix(line, "data:") {
      TrimIff(line[5..]);
    }
  }

  // ---------- what stands between two blank lines ----------

  /** What the client holds from before the last blank line; nothing more once it is closed. */
  datatype Held = Held(kind: string, data: seq<string>, closed: bool)

  function TypeSet(block: seq<string>): Option<string>
    decreases |block|
  {
    if block == [] then None
    else
      var last := ClientType(block[|block| - 1]);
      if last.Some? then last else TypeSet(block[..|block| - 1])
  }

  function DataAdded(block: seq<string>): seq<string>
    decreases |block|
  {
    if block == [] then [] else DataAdded(block[..|block| - 1]) + ClientData(block[|block| - 1])
  }

  predicate Closes(block: seq<string>)
    decreases |block|
  {
    block != [] && (Closes(block[..|block| - 1]) || ClientType(block[|block| - 1]) == Some("close"))
  }

  function StdTypeSet(block: seq<string>): string
    decreases |block|
  {
    if block == [] then ""
    else
      var last := StdType(block[|block| - 1]);
      if last.Some? then last.value else StdTypeSet(block[..|block| - 1])
  }

  function StdDataAdded(block: seq<string>): seq<string>
    decreases |block|
  {
    if block == [] then [] else StdDataAdded(block[..|block| - 1]) + StdData(block[|block| - 1])
  }

  function HeldType(held: Held, block: seq<string>): string {
    match TypeSet(block)
    case None => held.kind
    case Some(kind) => kind
  }

  function Made(cfg: Config, kind: string, data: seq<string>): seq<Message> {
    if data != [] && cfg.registered(TypeOf(kind)) && cfg.valid(Join(data, "\n"))
    then [Message(TypeOf(kind), Join(data, "\n"))]
    else []
  }

  function ClientMakes(cfg: Config, held: Held, block: seq<string>): seq<Message> {
    if held.closed || Closes(block) then []
    else Made(cfg, HeldType(held, block), held.data + DataAdded(block))
  }

  function StdMakes(cfg: Config, block: seq<string>): seq<Message> {
    Made(cfg, StdTypeSet(block), StdDataAdded(block))
  }

  /** Two things stay behind a blank line: a type without data, and type and data of a payload that
      does not unmarshal. */
  function HeldAfter(cfg: Config, held: Held, block: seq<string>): Held {
    var kind, data := HeldType(held, block), held.data + DataAdded(block);
    if held.closed || Closes(block) then Held("", [], true)
    else if data == [] || (cfg.registered(TypeOf(kind)) && !cfg.valid(Join(data, "\n"))) then Held(kind, data, false)
    else Held("", [], false)
  }

  /** At every blank line client and standard make the same of what stands before it. */
  predicate Follows(cfg: Config, held: Held, block: seq<string>, lines: seq<string>)
    decreases |lines|
  {
    lines == [] ||
    if lines[0] == ""
    then ClientMakes(cfg, held, block) == StdMakes(cfg, block)
         && Follows(cfg, HeldAfter(cfg, held, block), [], lines[1..])
    else Follows(cfg, held, block + [lines[0]], lines[1..])
  }

  // ---------- the buffers of both ----------

  /** The buffers of the client behind `block`. */
  ghost predicate ClientAt(c: State, held: Held, block: seq<string>) {
    && (c.stopped <==> held.closed || Closes(block))
    && (!c.stopped ==> c.kind == HeldType(held, block) && c.kind != "close" && c.data == held.data + DataAdded(block))
  }

  function Buffer(data: seq<string>): string
    decreases |data|
  {
    if data == [] then "" else Buffer(data[..|data| - 1]) + data[|data| - 1] + "\n"
  }

  ghost predicate StdAt(s: Standard, block: seq<string>) {
    s.kind == StdTypeSet(block) && s.data == Buffer(StdDataAdded(block))
  }

  lemma {:induction false} JoinSnoc(data: seq<string>, x: string)
    requires data != []
    ensures Join(data + [x], "\n") == Join(data, "\n") + "\n" + x
    decreases |data|
  {
    assert (data + [x])[1..] == data[1..] + [x];
    if |data| > 1 { JoinSnoc(data[1..], x); }
  }

  lemma {:induction false} BufferIsJoin(data: seq<string>)
    requires data != []
    ensures Buffer(data) == Join(data, "\n") + "\n"
    decreases |data|
  {
    var front, x := data[..|data| - 1], data[|data| - 1];
    assert data == front + [x];
    if front == [] {
      assert Buffer(front) == "" && data == [x];
    } else {
      BufferIsJoin(front);
      JoinSnoc(front, x);
    }
  }

  function Step(cfg: Config, c: State, line: string): State {
    if c.stopped then c else Feed(cfg, c, line)
  }

  lemma ClientLine(cfg: Config, c: State, held: Held, block: seq<string>, line: string)
    requires ClientAt(c, held, block) && line != ""
    ensures ClientAt(Step(cfg, c, line), held, block + [line]) && Step(cfg, c, line).delivered == c.delivered
  {
    var longer := block + [line];
    assert longer[..|longer| - 1] == block;
    Assoc(held.data, DataAdded(block), ClientData(line));
    assert held.data + DataAdded(block) + [] == held.data + DataAdded(block);
    PrefixesApart(line);
  }

  lemma PrefixesApart(line: string)
    ensures HasPrefix(line, ":") ==> !HasPrefix(line, "event:") && !HasPrefix(line, "data:")
    ensures HasPrefix(line, "id:") ==> !HasPrefix(line, "event:") && !HasPrefix(line, "data:")
    ensures HasPrefix(line, "event:") ==> !HasPrefix(line, "data:")
  {
    if HasPrefix(line, ":") { assert line[..1][0] == line[0]; }
    if HasPrefix(line, "id:") { assert line[..3][0] == line[0]; }
    if HasPrefix(line, "event:") { assert line[..6][0] == line[0]; }
    if HasPrefix(line, "data:") { assert line[..5][0] == line[0]; }
  }

  lemma BufferSnoc(data: seq<string>, x: string)
    ensures Buffer(data + [x]) == Buffer(data) + x + "\n"
  {
    assert (data + [x])[..|data|] == data;
  }

  lemma StdLine(s: Standard, block: seq<string>, line: string)
    requires StdAt(s, block) && line != ""
    ensures StdAt(StdFeed(s, line), block + [line]) && StdFeed(s, line).events == s.events
  {
    StdSnoc(block, line);
    StdFieldIs(s, line);
    AddedToBuffer(StdDataAdded(block), line);
  }

  lemma StdFieldIs(s: Standard, line: string)
    requires line != ""
    ensures
      var t := StdFeed(s, line);
      && t.events == s.events
      && t.kind == (if StdType(line).Some? then StdType(line).value else s.kind)
      && t.data == s.data + if StdData(line) == [] then "" else StdData(line)[0] + "\n"
  {
    if line[0] == ':' { Comment(line); }
    assert s.data + "" == s.data;
    Assoc(s.data, FieldValue(line), "\n");
  }

  lemma AddedToBuffer(data: seq<string>, line: string)
    ensures Buffer(data + StdData(line)) == Buffer(data) + if StdData(line) == [] then "" else StdData(line)[0] + "\n"
  {
    if StdData(line) == [] {
      assert data + [] == data && Buffer(data) + "" == Buffer(data);
    } else {
      BufferSnoc(data, FieldValue(line));
      Assoc(Buffer(data), FieldValue(line), "\n");
    }
  }

  lemma StdSnoc(block: seq<string>, line: string)
    ensures StdDataAdded(block + [line]) == StdDataAdded(block) + StdData(line)
    ensures StdTypeSet(block + [line]) == if StdType(line).Some? then StdType(line).value else StdTypeSet(block)
  {
    var longer := block + [line];
    assert longer[..|longer| - 1] == block;
  }

  lemma Comment(line: string)
    requires line != "" && line[0] == ':'
    ensures FieldName(line) == ""
  {
    assert line[0..1] == ":";
    IndexIs(line, ":", 0);
  }

  lemma MessagesAppend(a: seq<Event>, b: seq<Event>)
    ensures Messages(a + b) == Messages(a) + Messages(b)
  {}

  lemma ClientBlank(cfg: Config, c: State, held: Held, block: seq<string>)
    requires ClientAt(c, held, block)
    ensures
      var t := Step(cfg, c, "");
      && ClientAt(t, HeldAfter(cfg, held, block), [])
      && Messages(t.delivered) == Messages(c.delivered) + ClientMakes(cfg, held, block)
  {
    var t := Step(cfg, c, "");
    assert Messages(c.delivered) + [] == Messages(c.delivered);
    if t.delivered != c.delivered {
      var e := Event(c.id, TypeOf(c.kind), Join(c.data, "\n"));
      MessagesAppend(c.delivered, [e]);
      assert Messages([e]) == [Message(e.kind, e.data)];
    }
  }

  lemma DueSnoc(cfg: Config, events: seq<Event>, e: Event)
    ensures Due(cfg, events + [e]) ==
            Due(cfg, events) + if cfg.registered(e.kind) && cfg.valid(e.data) then [Message(e.kind, e.data)] else []
  {
    assert (events + [e])[..|events|] == events;
  }

  lemma StdBlank(cfg: Config, s: Standard, block: seq<string>)
    requires StdAt(s, block)
    ensures
      var t := StdFeed(s, "");
      StdAt(t, []) && Due(cfg, t.events) == Due(cfg, s.events) + StdMakes(cfg, block)
  {
    var data := StdDataAdded(block);
    assert Due(cfg, s.events) + [] == Due(cfg, s.events);
    if data != [] {
      BufferIsJoin(data);
      var text := Join(data, "\n");
      assert s.data == text + "\n" && s.data[..|s.data| - 1] == text;
      DueSnoc(cfg, s.events, Event(s.id, TypeOf(s.kind), text));
    }
  }

  // ---------- the same events at every point ----------

  ghost predicate SameAll(cfg: Config, c: State, s: Standard, lines: seq<string>)
    decreases |lines|
  {
    Same(cfg, c, s) && (lines == [] || SameAll(cfg, Step(cfg, c, lines[0]), StdFeed(s, lines[0]), lines[1..]))
  }

  lemma FeedsFirst(cfg: Config, c: State, s: Standard, lines: seq<string>, n: nat)
    requires 0 < n <= |lines|
    ensures SameAt(cfg, c, s, lines, n)
            <==> SameAt(cfg, Step(cfg, c, lines[0]), StdFeed(s, lines[0]), lines[1..], n - 1)
  {
    assert lines[..n][0] == lines[0] && lines[..n][1..] == lines[1..][..n - 1];
  }

  lemma {:induction false} SameAllIff(cfg: Config, c: State, s: Standard, lines: seq<string>)
    ensures (forall n: nat :: n <= |lines| ==> SameAt(cfg, c, s, lines, n)) <==> SameAll(cfg, c, s, lines)
    decreases |lines|
  {
    assert lines[..0] == [];
    assert SameAt(cfg, c, s, lines, 0) <==> Same(cfg, c, s);
    if lines != [] {
      var d, t, rest := Step(cfg, c, lines[0]), StdFeed(s, lines[0]), lines[1..];
      SameAllIff(cfg, d, t, rest);
      forall n: nat | n <= |rest|
        ensures SameAt(cfg, c, s, lines, n + 1) <==> SameAt(cfg, d, t, rest, n)
      {
        FeedsFirst(cfg, c, s, lines, n + 1);
      }
      forall n: nat | 0 < n <= |lines|
        ensures SameAt(cfg, c, s, lines, n) <==> SameAt(cfg, d, t, rest, n - 1)
      {
        FeedsFirst(cfg, c, s, lines, n);
      }
    }
  }

  lemma AppendSame(a: seq<Message>, b: seq<Message>, x: seq<Message>, y: seq<Message>)
    requires a == b
    ensures a + x == b + y <==> x == y
  {
    if a + x == b + y {
      assert x == (a + x)[|a|..] && y == (b + y)[|a|..];
    }
  }

  lemma {:induction false} SameAllFollows(cfg: Config, c: State, s: Standard, held: Held, block: seq<string>,
                                          lines: seq<string>)
    requires ClientAt(c, held, block) && StdAt(s, block) && Same(cfg, c, s)
    ensures SameAll(cfg, c, s, lines) <==> Follows(cfg, held, block, lines)
    decreases |lines|
  {
    if lines != [] {
      var line := lines[0];
      var d, t := Step(cfg, c, line), StdFeed(s, line);
      if line == "" {
        ClientBlank(cfg, c, held, block);
        StdBlank(cfg, s, block);
        AppendSame(Messages(c.delivered), Due(cfg, s.events), ClientMakes(cfg, held, block), StdMakes(cfg, block));
        if Same(cfg, d, t) { SameAllFollows(cfg, d, t, HeldAfter(cfg, held, block), [], lines[1..]); }
      } else {
        ClientLine(cfg, c, held, block, line);
        StdLine(s, block, line);
        SameAllFollows(cfg, d, t, held, block + [line], lines[1..]);
      }
    }
  }

  const NOTHING := Held("", [], false)

  /** For any lines: the client has handed over what the standard makes due, at every point of the
      stream, exactly if at every blank line what it holds and reads makes the same event. */
  lemma SameEventsIff(cfg: Config, lines: seq<string>)
    ensures SameThroughout(cfg, lines) <==> Follows(cfg, NOTHING, [], lines)
  {
    SameAllIff(cfg, Fresh("", []), START, lines);
    SameAllFollows(cfg, Fresh("", []), START, NOTHING, [], lines);
  }

  // ---------- the two leftovers ----------

  predicate PlainLines(lines: seq<string>) {
    forall line <- lines :: Plain(line)
  }

  lemma {:induction false} PlainRead(block: seq<string>)
    requires PlainLines(block)
    ensures StdDataAdded(block) == DataAdded(block)
    ensures StdTypeSet(block) == if TypeSet(block).Some? then TypeSet(block).value else ""
    decreases |block|
  {
    if block != [] {
      PlainRead(block[..|block| - 1]);
      PlainIff(block[|block| - 1]);
    }
  }

  /** A payload with this type reaches a callback. */
  predicate Reaches(cfg: Config, kind: string, data: seq<string>) {
    cfg.registered(TypeOf(kind)) && cfg.valid(Join(data, "\n"))
  }

  /** The leftovers do no harm to what was read since: there is no data; or only a type is left over,
      and it is not used, or the event has no callback with either type or no valid payload; or a
      payload is left over and the event reaches no callback with it or without it. */
  predicate Spared(cfg: Config, held: Held, block: seq<string>) {
    var kind := if TypeSet(block).Some? then TypeSet(block).value else "";
    var data := DataAdded(block);
    || data == []
    || (if held.closed || Closes(block) then !Reaches(cfg, kind, data)
        else if held.data != [] then !Reaches(cfg, kind, data) && !Reaches(cfg, HeldType(held, block), held.data + data)
        else || TypeOf(HeldType(held, block)) == TypeOf(kind)
             || (!Reaches(cfg, kind, data) && !Reaches(cfg, HeldType(held, block), data)))
  }

  /** A payload is left over because it does not unmarshal. */
  predicate Stuck(cfg: Config, held: Held) {
    held.data != [] ==> !cfg.valid(Join(held.data, "\n"))
  }

  lemma {:induction false} JoinLonger(a: seq<string>, b: seq<string>)
    requires a != [] && b != []
    ensures Join(a + b, "\n") != Join(b, "\n")
    ensures |Join(a + b, "\n")| > |Join(b, "\n")|
    decreases |a|
  {
    assert (a + b)[1..] == a[1..] + b;
    if |a| == 1 {
      assert a[1..] + b == b;
    } else {
      JoinLonger(a[1..], b);
    }
  }

  lemma MadeIff(cfg: Config, k: string, d: seq<string>, kind: string, data: seq<string>)
    requires d != [] && data != []
    ensures Made(cfg, k, d) == Made(cfg, kind, data)
            <==> (Reaches(cfg, k, d) <==> Reaches(cfg, kind, data))
                 && (Reaches(cfg, k, d) ==> TypeOf(k) == TypeOf(kind) && Join(d, "\n") == Join(data, "\n"))
  {
    if Reaches(cfg, k, d) && Reaches(cfg, kind, data) {
      assert Made(cfg, k, d)[0] == Message(TypeOf(k), Join(d, "\n"));
      assert Made(cfg, kind, data)[0] == Message(TypeOf(kind), Join(data, "\n"));
    }
  }

  lemma SparedIff(cfg: Config, held: Held, block: seq<string>)
    requires PlainLines(block) && Stuck(cfg, held)
    ensures ClientMakes(cfg, held, block) == StdMakes(cfg, block) <==> Spared(cfg, held, block)
  {
    PlainRead(block);
    var kind := if TypeSet(block).Some? then TypeSet(block).value else "";
    var data, k := DataAdded(block), HeldType(held, block);
    if data == [] {
      assert held.data + [] == held.data;
    } else if !held.closed && !Closes(block) {
      MadeIff(cfg, k, held.data + data, kind, data);
      if held.data == [] { assert [] + data == data; } else { JoinLonger(held.data, data); }
    }
  }

  /** At every blank line the leftovers are harmless. */
  predicate SparedThroughout(cfg: Config, held: Held, block: seq<string>, lines: seq<string>)
    decreases |lines|
  {
    lines == [] ||
    if lines[0] == ""
    then Spared(cfg, held, block) && SparedThroughout(cfg, HeldAfter(cfg, held, block), [], lines[1..])
    else SparedThroughout(cfg, held, block + [lines[0]], lines[1..])
  }

  lemma {:induction false} SparedFollows(cfg: Config, held: Held, block: seq<string>, lines: seq<string>)
    requires PlainLines(block) && PlainLines(lines) && Stuck(cfg, held)
    ensures SparedThroughout(cfg, held, block, lines) <==> Follows(cfg, held, block, lines)
    decreases |lines|
  {
    if lines != [] {
      assert lines[0] in lines;
      if lines[0] == "" {
        SparedIff(cfg, held, block);
        SparedFollows(cfg, HeldAfter(cfg, held, block), [], lines[1..]);
      } else {
        SparedFollows(cfg, held, block + [lines[0]], lines[1..]);
      }
    }
  }

  /** On lines that both read alike only the leftovers make a difference: a type without data and a
      payload that does not unmarshal, which the standard clears on a blank line. */
  lemma LeftoversIff(cfg: Config, lines: seq<string>)
    requires PlainLines(lines)
    ensures SameThroughout(cfg, lines) <==> SparedThroughout(cfg, NOTHING, [], lines)
  {
    SameEventsIff(cfg, lines);
    SparedFollows(cfg, NOTHING, [], lines);
  }

  /** A type without data is used for the next event, where the standard takes the default. */
  lemma TypeSticks(cfg: Config, kind: string, data: string)
    requires Trimmed(kind) && kind != "" && kind != "close" && Trimmed(data)
    requires cfg.registered(kind) && cfg.valid(data)
    ensures
      var lines := ["event:" + kind, "", "data:" + data, ""];
      && FeedAll(cfg, Fresh("", []), lines).delivered == [Event("", kind, data)]
      && StdAll(START, lines).events == [Event("", "message", data)]
  {
    var first, third := "event:" + kind, "data:" + data;
    assert first[..6] == "event:" && first[6..] == kind && third[..5] == "data:" && third[5..] == data;
    TypeSticksClient(cfg, first, kind, third, data);
    TypeSticksStandard(first, kind, third, data);
  }

  lemma UnrollTwo(cfg: Config, c: State, a: string, b: string, rest: seq<string>)
    requires !c.stopped && !Feed(cfg, c, a).stopped
    ensures FeedAll(cfg, c, [a, b] + rest) == FeedAll(cfg, Feed(cfg, Feed(cfg, c, a), b), rest)
  {
    assert ([a, b] + rest)[1..] == [b] + rest && ([b] + rest)[1..] == rest;
  }

  lemma TypeSticksClient(cfg: Config, first: string, kind: string, third: string, data: string)
    requires HasPrefix(first, "event:") && first[6..] == kind && HasPrefix(third, "data:") && third[5..] == data
    requires Trimmed(kind) && kind != "" && kind != "close" && Trimmed(data) && cfg.registered(kind) && cfg.valid(data)
    ensures FeedAll(cfg, Fresh("", []), [first, "", third, ""]).delivered == [Event("", kind, data)]
  {
    PrefixesApart(first);
    PrefixesApart(third);
    TrimIff(kind);
    TrimIff(data);
    var c := Fresh("", []);
    assert [first, "", third, ""] == [first, ""] + [third, ""] && [third, ""] + [] == [third, ""];
    UnrollTwo(cfg, c, first, "", [third, ""]);
    var d := Feed(cfg, Feed(cfg, c, first), "");
    assert d == c.(kind := kind);
    UnrollTwo(cfg, d, third, "", []);
    assert Feed(cfg, d, third) == d.(data := [data]);
    assert Join([data], "\n") == data;
  }

  lemma TypeSticksStandard(first: string, kind: string, third: string, data: string)
    requires HasPrefix(first, "event:") && first[6..] == kind && HasPrefix(third, "data:") && third[5..] == data
    requires Trimmed(kind) && Trimmed(data)
    ensures StdAll(START, [first, "", third, ""]).events == [Event("", "message", data)]
  {
    var s := TypeLine(START, first, kind);
    var t := DataLine(START, third, data);
    var events := [Event("", "message", data)];
    BlankClears(s, kind);
    DispatchOne(t, data);
    StdTwo(START, third, "", [], events);
    assert [third, ""] + [] == [third, ""] && [first, "", third, ""] == [first, ""] + [third, ""];
    StdTwo(START, first, "", [third, ""], events);
  }

  lemma BlankClears(s: Standard, kind: string)
    requires s == START.(kind := kind)
    ensures StdFeed(s, "") == START
  {}

  lemma DispatchOne(t: Standard, data: string)
    requires t == START.(data := "" + data + "\n")
    ensures StdEnds(StdFeed(t, ""), [], [Event("", "message", data)])
  {
    assert t.data[..|t.data| - 1] == data;
    assert StdFeed(t, "").events == [] + [Event("", "message", data)];
  }

  predicate StdEnds(s: Standard, lines: seq<string>, events: seq<Event>) {
    StdAll(s, lines).events == events
  }

  lemma StdTwo(s: Standard, a: string, b: string, rest: seq<string>, events: seq<Event>)
    requires StdEnds(StdFeed(StdFeed(s, a), b), rest, events)
    ensures StdEnds(s, [a, b] + rest, events)
  {
    assert ([a, b] + rest)[1..] == [b] + rest && ([b] + rest)[1..] == rest;
  }

  lemma TypeLine(s: Standard, line: string, kind: string) returns (t: Standard)
    requires HasPrefix(line, "event:") && line[6..] == kind && Trimmed(kind)
    ensures t == StdFeed(s, line) == s.(kind := kind)
  {
    t := StdFeed(s, line);
    assert "event" + ":" == "event:";
    NameIs(line, "event");
    assert line[0] == line[..6][0];
  }

  lemma DataLine(s: Standard, line: string, data: string) returns (t: Standard)
    requires HasPrefix(line, "data:") && line[5..] == data && Trimmed(data)
    ensures t == StdFeed(s, line) == s.(data := s.data + data + "\n")
  {
    t := StdFeed(s, line);
    assert "data" + ":" == "data:";
    NameIs(line, "data");
    assert line[0] == line[..5][0];
  }
}
