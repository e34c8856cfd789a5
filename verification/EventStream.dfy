/** The two ends of a server-sent event stream: the printer `UserClient.sendEvent` of
    pkg/sse/server.go and the line parser `SSEClient.stream` of pkg/sse/client.go.  The payload
    of an event is its JSON text; what `json.Unmarshal` accepts is a parameter.  Text is a sequence of
    characters, as `strings.TrimSpace` looks at it. */
module EventStream {
  import opened Text

  datatype Event = Event(id: string, kind: string, data: string)

  const DEFAULT_EVENT_TYPE := "message"

  // ---------- white space ----------

  predicate IsSpace(c: char) {
    || c in " \t\n\r" || c == '\U{0B}' || c == '\U{0C}' || c == '\U{85}' || c == '\U{A0}'
    || c == '\U{1680}' || '\U{2000}' <= c <= '\U{200A}' || c == '\U{2028}' || c == '\U{2029}'
    || c == '\U{202F}' || c == '\U{205F}' || c == '\U{3000}'
  }

  function TrimLeft(s: string): string {
    if s != "" && IsSpace(s[0]) then TrimLeft(s[1..]) else s
  }

  function TrimRight(s: string): string {
    if s != "" && IsSpace(s[|s| - 1]) then TrimRight(s[..|s| - 1]) else s
  }

  /** `strings.TrimSpace`. */
  function TrimSpace(s: string): string {
    TrimRight(TrimLeft(s))
  }

  predicate Trimmed(s: string) {
    s != "" ==> !IsSpace(s[0]) && !IsSpace(s[|s| - 1])
  }

  predicate OneLine(s: string) {
    '\n' !in s
  }

  // ---------- the printer ----------

  /** The text of one event on the wire. */
  function Wire(e: Event): string {
    "id: " + e.id + "\nevent: " + e.kind + "\ndata: " + e.data + "\n\n"
  }

  const HEARTBEAT := ": heartbeat\n\n"

  datatype Outcome = Sent | MarshalError | WriteError

  /** The server's end of one connection: what has gone out so far. */
  class UserClient {
    var written: string
    var isSendClosedEvent: bool

    constructor ()
      ensures written == "" && !isSendClosedEvent
    {
      written, isSendClosedEvent := "", false;
    }

    /** The writer takes the first `accepted` characters; taking fewer than offered is an error. */
    method Write(data: string, accepted: nat) returns (ok: bool)
      modifies this`written
      ensures ok == (accepted >= |data|)
      ensures written == old(written) + if ok then data else data[..accepted]
    {
      ok := accepted >= |data|;
      written := written + if ok then data else data[..accepted];
    }

    /** `marshalled` is the result of `json.Marshal` on the payload: the text, or an error. */
    method SendEvent(id: string, kind: string, marshalled: seq<string>, accepted: nat) returns (r: Outcome)
      requires |marshalled| <= 1
      modifies this
      ensures r.MarshalError? <==> marshalled == []
      ensures r.MarshalError? ==> written == old(written) && isSendClosedEvent == old(isSendClosedEvent)
      ensures r.Sent? ==> written == old(written) + Wire(Event(id, kind, marshalled[0]))
      ensures r.WriteError? ==>
                && accepted < |Wire(Event(id, kind, marshalled[0]))|
                && written == old(written) + Wire(Event(id, kind, marshalled[0]))[..accepted]
      ensures !r.MarshalError? ==> isSendClosedEvent == (old(isSendClosedEvent) || kind == "close")
    {
      var buf := "id: ";
      buf := buf + id;
      buf := buf + "\nevent: ";
      buf := buf + kind;
      buf := buf + "\ndata: ";
      if marshalled == [] {
        return MarshalError;
      }
      buf := buf + marshalled[0];
      buf := buf + "\n\n";
      if kind == "close" {
        isSendClosedEvent := true;
      }
      var ok := Write(buf, accepted);
      r := if ok then Sent else WriteError;
    }
  }

  // ---------- the parser ----------

  /** What the client has been told from outside: for which event types a callback is registered,
      and which texts `json.Unmarshal` accepts. */
  datatype Config = Config(registered: string -> bool, valid: string -> bool)

  datatype State = State(
    kind: string, id: string, data: seq<string>,
    lastEventID: string, delivered: seq<Event>, stopped: bool)

  /** `processEvent`, and the clearing of the fields unless it reports an error. */
  function Dispatch(cfg: Config, s: State): State {
    var text := Join(s.data, "\n");
    var t := if s.id != "" then s.(lastEventID := s.id) else s;
    var kind := if s.kind == "" then DEFAULT_EVENT_TYPE else s.kind;
    if cfg.registered(kind) && !cfg.valid(text) then t
    else
      var u := t.(kind := "", id := "", data := []);
      if cfg.registered(kind) then u.(delivered := s.delivered + [Event(s.id, kind, text)]) else u
  }

  /** One field line. */
  function Field(s: State, line: string): State {
    if HasPrefix(line, "event:") then s.(kind := TrimSpace(line[6..]))
    else if HasPrefix(line, "id:") then s.(id := TrimSpace(line[3..]))
    else if HasPrefix(line, "data:") then s.(data := s.data + [TrimSpace(line[5..])])
    else s
  }

  /** One complete line, without its line feed. */
  function Feed(cfg: Config, s: State, line: string): State {
    if line == "" then if |s.data| > 0 then Dispatch(cfg, s) else s
    else if HasPrefix(line, ":") then s
    else
      var t := Field(s, line);
      t.(stopped := t.stopped || t.kind == "close")
  }

  function FeedAll(cfg: Config, s: State, lines: seq<string>): State
    decreases |lines|
  {
    if lines == [] || s.stopped then s else FeedAll(cfg, Feed(cfg, s, lines[0]), lines[1..])
  }

  /** The complete lines of a text; what follows the last line feed is not one. */
  function Lines(body: string): seq<string>
    decreases |body|
  {
    var i := Index(body, "\n");
    if i < 0 then [] else [body[..i]] + Lines(body[i + 1..])
  }

  function Fresh(lastEventID: string, delivered: seq<Event>): State {
    State("", "", [], lastEventID, delivered, false)
  }

  class SSEClient {
    const cfg: Config
    var lastEventID: string
    var delivered: seq<Event>
    var connected: bool

    constructor (cfg: Config)
      ensures this.cfg == cfg && lastEventID == "" && delivered == [] && connected
    {
      this.cfg := cfg;
      lastEventID, delivered, connected := "", [], true;
    }

    /** `processEvent`; `ok` is false when the payload does not unmarshal. */
    method ProcessEvent(eventType: string, eventID: string, data: string) returns (ok: bool)
      modifies this`lastEventID, this`delivered
      ensures lastEventID == if eventID != "" then eventID else old(lastEventID)
      ensures
        var kind := if eventType == "" then DEFAULT_EVENT_TYPE else eventType;
        && ok == (cfg.registered(kind) ==> cfg.valid(data))
        && delivered == old(delivered) + if cfg.registered(kind) && ok then [Event(eventID, kind, data)] else []
    {
      if eventID != "" {
        lastEventID := eventID;
      }
      var kind := if eventType == "" then DEFAULT_EVENT_TYPE else eventType;
      if cfg.registered(kind) {
        if !cfg.valid(data) {
          return false;
        }
        delivered := delivered + [Event(eventID, kind, data)];
      }
      return true;
    }

    /** The field branches of the read loop, on the loop's three variables. */
    static method ParseField(line: string, eventType0: string, eventID0: string, eventData0: seq<string>)
      returns (eventType: string, eventID: string, eventData: seq<string>)
      ensures forall s: State | s.kind == eventType0 && s.id == eventID0 && s.data == eventData0 ::
                Field(s, line) == s.(kind := eventType, id := eventID, data := eventData)
    {
      eventType, eventID, eventData := eventType0, eventID0, eventData0;
      if HasPrefix(line, "event:") {
        eventType := TrimSpace(line[6..]);
      } else if HasPrefix(line, "id:") {
        eventID := TrimSpace(line[3..]);
      } else if HasPrefix(line, "data:") {
        eventData := eventData + [TrimSpace(line[5..])];
      }
    }

    /** `ReadString`: the line that starts at `pos`, if it is complete, and where the next one starts. */
    static method ReadString(body: string, pos: nat) returns (found: bool, line: string, next: nat)
      requires pos <= |body|
      ensures pos <= next <= |body|
      ensures !found ==> Lines(body[pos..]) == []
      ensures found ==> next > pos && Lines(body[pos..]) == [line] + Lines(body[next..])
    {
      var i := Index(body[pos..], "\n");
      if i < 0 {
        return false, "", pos;
      }
      NextLine(body, pos);
      return true, body[pos..][..i], pos + i + 1;
    }

    /** The read loop of `stream` over what arrives before the connection ends. */
    method Stream(body: string) returns (closedByEvent: bool)
      requires connected
      modifies this
      ensures
        var s := FeedAll(cfg, Fresh(old(lastEventID), old(delivered)), Lines(body));
        lastEventID == s.lastEventID && delivered == s.delivered &&
        closedByEvent == s.stopped && connected == !s.stopped
    {
      var eventType, eventID, eventData: seq<string> := "", "", [];
      var pos: nat := 0;
      assert body[0..] == body;
      ghost var s := Fresh(lastEventID, delivered);
      ghost var goal, left := FeedAll(cfg, s, Lines(body)), Lines(body);
      while true
        invariant pos <= |body| && connected && left == Lines(body[pos..])
        invariant s == State(eventType, eventID, eventData, lastEventID, delivered, false)
        invariant FeedAll(cfg, s, left) == goal
        decreases |body| - pos
      {
        var found, line, next := ReadString(body, pos);
        if !found {
          return false;
        }
        FeedFirst(cfg, s, line, Lines(body[next..]));
        ghost var was := s;
        s := Feed(cfg, s, line);
        pos, left := next, Lines(body[next..]);
        if line == "" {
          if |eventData| > 0 {
            var ok := ProcessEvent(eventType, eventID, Join(eventData, "\n"));
            if !ok {
              continue;
            }
            eventType, eventID, eventData := "", "", [];
          }
          continue;
        }
        if HasPrefix(line, ":") {
          continue;
        }
        eventType, eventID, eventData := ParseField(line, eventType, eventID, eventData);
        assert Field(was, line) == State(eventType, eventID, eventData, lastEventID, delivered, false);
        if eventType == "close" {
          connected := false;
          return true;
        }
      }
    }
  }

  lemma NextLine(body: string, pos: nat)
    requires pos <= |body| && Index(body[pos..], "\n") >= 0
    ensures
      var i := Index(body[pos..], "\n");
      pos + i + 1 <= |body| && Lines(body[pos..]) == [body[pos..][..i]] + Lines(body[pos + i + 1..])
  {
    var i := Index(body[pos..], "\n");
    assert body[pos..][i + 1..] == body[pos + i + 1..];
  }

  // ---------- trimming and splitting into lines ----------

  lemma {:induction false} TrimLeftFacts(s: string)
    ensures var r := TrimLeft(s);
            (r != "" ==> !IsSpace(r[0])) && (OneLine(s) ==> OneLine(r)) && |r| <= |s|
    decreases |s|
  {
    if s != "" && IsSpace(s[0]) {
      TrimLeftFacts(s[1..]);
    }
  }

  lemma {:induction false} TrimRightFacts(s: string)
    ensures var r := TrimRight(s);
            (r != "" ==> !IsSpace(r[|r| - 1]) && r[0] == s[0]) && (OneLine(s) ==> OneLine(r)) && |r| <= |s|
    decreases |s|
  {
    if s != "" && IsSpace(s[|s| - 1]) {
      TrimRightFacts(s[..|s| - 1]);
    }
  }

  lemma TrimSpaceTidy(s: string)
    ensures Trimmed(TrimSpace(s)) && (OneLine(s) ==> OneLine(TrimSpace(s)))
  {
    TrimLeftFacts(s);
    TrimRightFacts(TrimLeft(s));
  }

  /** The single space the printer writes before a value is taken off again, and nothing more. */
  lemma TrimAfterSpace(s: string)
    requires Trimmed(s)
    ensures TrimSpace(" " + s) == s
  {
    assert (" " + s)[1..] == s;
    assert TrimLeft(" " + s) == TrimLeft(s) == s;
  }

  lemma FirstBreak(l: string, rest: string)
    requires OneLine(l)
    ensures Lines(l + "\n" + rest) == [l] + Lines(rest)
  {
    var t := l + "\n" + rest;
    assert t[|l|..|l| + 1] == "\n";
    forall k: nat | k < |l|
      ensures !OccursAt(t, "\n", k)
    {
      assert t[k..k + 1][0] == l[k];
    }
    IndexIs(t, "\n", |l|);
    assert t[..|l|] == l && t[|l| + 1..] == rest;
  }

  lemma IndexIs(s: string, sub: string, at: nat)
    requires OccursAt(s, sub, at)
    requires forall k: nat :: k < at ==> !OccursAt(s, sub, k)
    ensures Index(s, sub) == at
  {
  }

  lemma {:induction false} LinesAreOneLine(body: string)
    ensures forall i :: 0 <= i < |Lines(body)| ==> OneLine(Lines(body)[i])
    decreases |body|
  {
    var i := Index(body, "\n");
    if i >= 0 {
      LinesAreOneLine(body[i + 1..]);
      forall k: nat | k < i
        ensures body[..i][k] != '\n'
      {
        assert !OccursAt(body, "\n", k);
        assert body[k..k + 1] == [body[k]];
      }
    }
  }

  /** The complete lines of a beginning are the first complete lines of the whole. */
  lemma {:induction false} LinesOfPrefix(p: string, q: string)
    ensures Lines(p) <= Lines(p + q)
    decreases |p|
  {
    var i := Index(p, "\n");
    if i >= 0 {
      IndexOfPrefix(p, q);
      PrefixSlices(p, q, i);
      LinesOfPrefix(p[i + 1..], q);
      LinesStep(p, i);
      LinesStep(p + q, i);
      PrefixCons(p[..i], Lines(p[i + 1..]), Lines(p[i + 1..] + q));
    }
  }

  lemma LinesStep(body: string, i: nat)
    requires Index(body, "\n") == i
    ensures Lines(body) == [body[..i]] + Lines(body[i + 1..])
  {
  }

  lemma PrefixCons(x: string, a: seq<string>, b: seq<string>)
    requires a <= b
    ensures [x] + a <= [x] + b
  {
  }

  lemma IndexOfPrefix(p: string, q: string)
    requires Index(p, "\n") >= 0
    ensures Index(p + q, "\n") == Index(p, "\n")
  {
    var t, i := p + q, Index(p, "\n");
    assert t[i..i + 1] == p[i..i + 1];
    forall k: nat | k < i
      ensures !OccursAt(t, "\n", k)
    {
      assert t[k..k + 1] == p[k..k + 1];
      assert !OccursAt(p, "\n", k);
    }
    IndexIs(t, "\n", i);
  }

  lemma PrefixSlices(p: string, q: string, i: nat)
    requires i < |p|
    ensures (p + q)[..i] == p[..i] && (p + q)[i + 1..] == p[i + 1..] + q
  {
  }

  lemma {:induction false} FeedAllAppend(cfg: Config, s: State, a: seq<string>, b: seq<string>)
    ensures FeedAll(cfg, s, a + b) == FeedAll(cfg, FeedAll(cfg, s, a), b)
    decreases |a|
  {
    if a == [] {
      assert a + b == b;
    } else if !s.stopped {
      assert (a + b)[1..] == a[1..] + b;
      FeedAllAppend(cfg, Feed(cfg, s, a[0]), a[1..], b);
    }
  }

  // ---------- what comes through ----------

  datatype Item = Ev(event: Event) | Beat

  function Bytes(items: seq<Item>): string {
    if items == [] then "" else ItemBytes(items[0]) + Bytes(items[1..])
  }

  function ItemBytes(item: Item): string {
    if item.Beat? then HEARTBEAT else Wire(item.event)
  }

  /** Names the wire format carries: one line, no white space around them, and a type that is
      neither missing nor the reserved word. */
  predicate CleanNames(e: Event) {
    && OneLine(e.id) && Trimmed(e.id)
    && OneLine(e.kind) && Trimmed(e.kind) && e.kind != "" && e.kind != "close"
  }

  /** JSON text as `json.Marshal` writes it: one line with nothing around it. */
  predicate CleanData(cfg: Config, e: Event) {
    OneLine(e.data) && Trimmed(e.data) && cfg.valid(e.data)
  }

  predicate CleanItems(cfg: Config, items: seq<Item>) {
    forall i :: 0 <= i < |items| && items[i].Ev? ==> CleanNames(items[i].event) && CleanData(cfg, items[i].event)
  }

  /** The events of a stream for which a callback is registered, in order. */
  function EventsOf(cfg: Config, items: seq<Item>): seq<Event> {
    if items == [] then []
    else if items[0].Ev? && cfg.registered(items[0].event.kind) then [items[0].event] + EventsOf(cfg, items[1..])
    else EventsOf(cfg, items[1..])
  }

  /** The last non-empty id among the events, or the one known before. */
  function LastID(before: string, items: seq<Item>): string
    decreases |items|
  {
    if items == [] then before
    else LastID(if items[0].Ev? && items[0].event.id != "" then items[0].event.id else before, items[1..])
  }

  function FieldLines(e: Event): seq<string> {
    ["id: " + e.id, "event: " + e.kind, "data: " + e.data]
  }

  lemma WireLines(e: Event, rest: string)
    requires OneLine(e.id) && OneLine(e.kind) && OneLine(e.data)
    ensures Lines(Wire(e) + rest) == FieldLines(e) + [""] + Lines(rest)
  {
    var l := FieldLines(e);
    WireParts(e);
    FourLines(l[0], l[1], l[2], "\n", rest);
    LinesOfFour(l[0], l[1], l[2], rest);
  }

  lemma WireParts(e: Event)
    ensures var l := FieldLines(e); Wire(e) == l[0] + "\n" + l[1] + "\n" + l[2] + "\n" + "\n"
  {
    assert "\nevent: " == "\n" + "event: " && "\ndata: " == "\n" + "data: " && "\n\n" == "\n" + "\n";
  }

  lemma FourLines(l0: string, l1: string, l2: string, n: string, rest: string)
    ensures l0 + n + l1 + n + l2 + n + n + rest == l0 + n + (l1 + n + (l2 + n + ("" + n + rest)))
  {
  }

  lemma LinesOfFour(l0: string, l1: string, l2: string, rest: string)
    requires OneLine(l0) && OneLine(l1) && OneLine(l2)
    ensures Lines(l0 + "\n" + (l1 + "\n" + (l2 + "\n" + ("" + "\n" + rest)))) == [l0, l1, l2] + [""] + Lines(rest)
  {
    var r3 := "" + "\n" + rest;
    var r2 := l2 + "\n" + r3;
    FirstBreak(l0, l1 + "\n" + r2);
    FirstBreak(l1, r2);
    FirstBreak(l2, r3);
    FirstBreak("", rest);
  }

  /** The three field lines of an event fill the fields and do nothing else. */
  lemma FeedFields(cfg: Config, s: State, e: Event)
    requires !s.stopped && s.kind != "close" && CleanNames(e) && Trimmed(e.data)
    ensures FeedAll(cfg, s, FieldLines(e)) == s.(id := e.id, kind := e.kind, data := s.data + [e.data])
  {
    FeedValue(s, "id:", e.id);
    FeedValue(s.(id := e.id), "event:", e.kind);
    FeedValue(s.(id := e.id, kind := e.kind), "data:", e.data);
    var lines := FieldLines(e);
    assert lines[0] == "id:" + " " + e.id && lines[1] == "event:" + " " + e.kind && lines[2] == "data:" + " " + e.data;
    var s1 := Feed(cfg, s, lines[0]);
    assert s1 == s.(id := e.id);
    var s2 := Feed(cfg, s1, lines[1]);
    assert s2 == s1.(kind := e.kind);
    var s3 := Feed(cfg, s2, lines[2]);
    assert s3 == s2.(data := s.data + [e.data]);
    FeedThree(cfg, s, lines[0], lines[1], lines[2]);
  }

  lemma FeedThree(cfg: Config, s: State, a: string, b: string, c: string)
    requires
      var s1 := Feed(cfg, s, a);
      var s2 := Feed(cfg, s1, b);
      !s.stopped && !s1.stopped && !s2.stopped
    ensures FeedAll(cfg, s, [a, b, c]) == Feed(cfg, Feed(cfg, Feed(cfg, s, a), b), c)
  {
    assert [a, b, c][1..] == [b, c] && [b, c][1..] == [c] && [c][1..] == [];
    var s1 := Feed(cfg, s, a);
    var s2 := Feed(cfg, s1, b);
    assert FeedAll(cfg, s2, [c]) == FeedAll(cfg, Feed(cfg, s2, c), []);
    assert FeedAll(cfg, s1, [b, c]) == FeedAll(cfg, s2, [c]);
  }

  lemma FeedValue(s: State, name: string, v: string)
    requires Trimmed(v) && name in {"id:", "event:", "data:"}
    ensures
      var line := name + " " + v;
      && line != "" && !HasPrefix(line, ":")
      && Field(s, line) ==
         if name == "id:" then s.(id := v)
         else if name == "event:" then s.(kind := v)
         else s.(data := s.data + [v])
  {
    var line := name + " " + v;
    assert line[..|name|] == name && line[|name|..] == " " + v;
    TrimAfterSpace(v);
    assert line[0] == name[0];
    assert line[0] != ':';
    assert HasPrefix(line, "event:") ==> line[..6][0] == 'e';
    assert HasPrefix(line, "id:") ==> line[..3][0] == 'i';
    assert HasPrefix(line, "data:") ==> line[..5][0] == 'd';
  }

  /** The client between two events: nothing pending. */
  predicate Idle(s: State) {
    s.kind == "" && s.id == "" && s.data == [] && !s.stopped
  }

  function Received(cfg: Config, s: State, items: seq<Item>): State {
    s.(delivered := s.delivered + EventsOf(cfg, items), lastEventID := LastID(s.lastEventID, items))
  }

  lemma OneItem(cfg: Config, before: string, item: Item)
    ensures EventsOf(cfg, [item]) ==
            if item.Ev? && cfg.registered(item.event.kind) then [item.event] else []
    ensures LastID(before, [item]) == if item.Ev? && item.event.id != "" then item.event.id else before
  {
    var items := [item];
    assert items[1..] == [] && items[0] == item;
    assert EventsOf(cfg, items[1..]) == [];
  }

  lemma BeatLines(rest: string)
    ensures Lines(HEARTBEAT + rest) == [": heartbeat"] + ([""] + Lines(rest))
  {
    var tail := "" + "\n" + rest;
    FirstBreak(": heartbeat", tail);
    FirstBreak("", rest);
    assert HEARTBEAT == ": heartbeat" + "\n" + ("" + "\n");
    FourParts(": heartbeat", "\n", "" + "\n", rest);
  }

  lemma FourParts(a: string, b: string, c: string, d: string)
    ensures a + b + c + d == a + b + (c + d)
  {
  }

  lemma FeedBeat(cfg: Config, s: State, after: seq<string>)
    requires Idle(s)
    ensures FeedAll(cfg, s, [": heartbeat"] + ([""] + after)) == FeedAll(cfg, s, after)
  {
    var beat := ": heartbeat";
    assert beat[..1] == ":";
    assert Feed(cfg, s, beat) == s && Feed(cfg, s, "") == s;
    FeedFirst(cfg, s, beat, [""] + after);
    FeedFirst(cfg, s, "", after);
  }

  lemma FeedFirst(cfg: Config, s: State, line: string, after: seq<string>)
    requires !s.stopped
    ensures FeedAll(cfg, s, [line] + after) == FeedAll(cfg, Feed(cfg, s, line), after)
  {
    assert ([line] + after)[1..] == after;
  }

  lemma FeedBlock(cfg: Config, s: State, e: Event, after: seq<string>)
    requires Idle(s) && CleanNames(e) && CleanData(cfg, e)
    ensures FeedAll(cfg, s, FieldLines(e) + [""] + after) ==
            FeedAll(cfg, Dispatch(cfg, s.(id := e.id, kind := e.kind, data := [e.data])), after)
  {
    FeedFields(cfg, s, e);
    assert s.data + [e.data] == [e.data];
    FeedAllAppend(cfg, s, FieldLines(e), [""] + after);
    assert FieldLines(e) + [""] + after == FieldLines(e) + ([""] + after);
    FeedFirst(cfg, s.(id := e.id, kind := e.kind, data := [e.data]), "", after);
  }

  lemma DispatchOne(cfg: Config, s: State, e: Event)
    requires Idle(s) && CleanNames(e) && CleanData(cfg, e)
    ensures Dispatch(cfg, s.(id := e.id, kind := e.kind, data := [e.data])) == Received(cfg, s, [Ev(e)])
  {
    OneItem(cfg, s.lastEventID, Ev(e));
    assert Join([e.data], "\n") == e.data;
    assert s.delivered + [] == s.delivered;
  }

  lemma FeedItem(cfg: Config, s: State, item: Item, rest: string)
    requires Idle(s) && CleanItems(cfg, [item])
    ensures
      FeedAll(cfg, s, Lines(ItemBytes(item) + rest)) == FeedAll(cfg, Received(cfg, s, [item]), Lines(rest))
    ensures Idle(Received(cfg, s, [item]))
  {
    OneItem(cfg, s.lastEventID, item);
    if item.Beat? {
      BeatLines(rest);
      FeedBeat(cfg, s, Lines(rest));
      assert s.delivered + [] == s.delivered;
    } else {
      assert [item][0] == item;
      WireLines(item.event, rest);
      FeedBlock(cfg, s, item.event, Lines(rest));
      DispatchOne(cfg, s, item.event);
    }
  }

  lemma ReceivedStep(cfg: Config, s: State, items: seq<Item>)
    requires items != []
    ensures Received(cfg, Received(cfg, s, [items[0]]), items[1..]) == Received(cfg, s, items)
  {
    var first, tail := EventsOf(cfg, [items[0]]), EventsOf(cfg, items[1..]);
    OneItem(cfg, s.lastEventID, items[0]);
    assert EventsOf(cfg, items) == first + tail;
    assert s.delivered + (first + tail) == s.delivered + first + tail;
    assert LastID(s.lastEventID, items) == LastID(LastID(s.lastEventID, [items[0]]), items[1..]);
  }

  /** The client parser undoes the printer over whole streams: from the text of any sequence of
      clean events and heartbeats it delivers exactly those events, and goes on with `rest`. */
  lemma {:induction false} StreamRoundTrip(cfg: Config, s: State, items: seq<Item>, rest: string)
    requires Idle(s) && CleanItems(cfg, items)
    ensures FeedAll(cfg, s, Lines(Bytes(items) + rest)) == FeedAll(cfg, Received(cfg, s, items), Lines(rest))
    decreases |items|
  {
    if items == [] {
      assert Bytes(items) + rest == rest;
      assert s.delivered + [] == s.delivered;
    } else {
      var tail := Bytes(items[1..]) + rest;
      assert Bytes(items) + rest == ItemBytes(items[0]) + tail;
      FeedItem(cfg, s, items[0], tail);
      StreamRoundTrip(cfg, Received(cfg, s, [items[0]]), items[1..], rest);
      ReceivedStep(cfg, s, items);
    }
  }

  // ---------- a stream that is cut ----------

  /** How many items have arrived completely in the first `cut` characters. */
  function WholeItems(items: seq<Item>, cut: nat): (n: nat)
    ensures n <= |items|
    decreases |items|
  {
    if items == [] || cut < |ItemBytes(items[0])| then 0
    else 1 + WholeItems(items[1..], cut - |ItemBytes(items[0])|)
  }

  /** Lines that are not blank deliver nothing. */
  lemma {:induction false} NoBlankNoDelivery(cfg: Config, s: State, lines: seq<string>)
    requires "" !in lines
    ensures var t := FeedAll(cfg, s, lines);
            t.delivered == s.delivered && t.lastEventID == s.lastEventID
    decreases |lines|
  {
    if lines != [] && !s.stopped {
      assert lines[0] in lines;
      NoBlankNoDelivery(cfg, Feed(cfg, s, lines[0]), lines[1..]);
    }
  }

  function ItemLines(item: Item): seq<string> {
    if item.Beat? then [": heartbeat"] else FieldLines(item.event)
  }

  /** Without its last character an item has no blank line yet. */
  lemma LinesButLast(item: Item)
    requires item.Ev? ==> OneLine(item.event.id) && OneLine(item.event.kind) && OneLine(item.event.data)
    ensures var all := ItemBytes(item); all != "" && Lines(all[..|all| - 1]) == ItemLines(item)
  {
    assert Lines("") == [];
    if item.Beat? {
      assert HEARTBEAT[..|HEARTBEAT| - 1] == ": heartbeat" + "\n" + "";
      FirstBreak(": heartbeat", "");
    } else {
      var l := FieldLines(item.event);
      WireParts(item.event);
      ThreeLines(l[0], l[1], l[2], "\n");
      LinesOfThree(l[0], l[1], l[2]);
    }
  }

  lemma LinesOfThree(l0: string, l1: string, l2: string)
    requires OneLine(l0) && OneLine(l1) && OneLine(l2)
    ensures Lines(l0 + "\n" + (l1 + "\n" + (l2 + "\n" + ""))) == [l0, l1, l2]
  {
    FirstBreak(l0, l1 + "\n" + (l2 + "\n" + ""));
    FirstBreak(l1, l2 + "\n" + "");
    FirstBreak(l2, "");
    assert Lines("") == [];
  }

  lemma ThreeLines(l0: string, l1: string, l2: string, n: string)
    requires |n| == 1
    ensures var all := l0 + n + l1 + n + l2 + n + n;
            all[..|all| - 1] == l0 + n + (l1 + n + (l2 + n + ""))
  {
  }

  lemma PartOfItem(item: Item, cut: nat)
    requires item.Ev? ==> OneLine(item.event.id) && OneLine(item.event.kind) && OneLine(item.event.data)
    requires cut < |ItemBytes(item)|
    ensures Lines(ItemBytes(item)[..cut]) <= ItemLines(item)
  {
    LinesButLast(item);
    LinesOfTake(ItemBytes(item), cut, |ItemBytes(item)| - 1);
  }

  lemma LinesOfTake(all: string, cut: nat, n: nat)
    requires cut <= n <= |all|
    ensures Lines(all[..cut]) <= Lines(all[..n])
  {
    assert all[..n] == all[..cut] + all[cut..n];
    LinesOfPrefix(all[..cut], all[cut..n]);
  }

  lemma FeedPart(cfg: Config, s: State, item: Item, lines: seq<string>)
    requires Idle(s) && CleanItems(cfg, [item]) && lines <= ItemLines(item)
    ensures
      var t := FeedAll(cfg, s, lines);
      t.delivered == s.delivered && t.lastEventID == s.lastEventID && !t.stopped
  {
    var all := ItemLines(item);
    assert "" !in all;
    NoBlankNoDelivery(cfg, s, lines);
    var rest := all[|lines|..];
    FeedAllAppend(cfg, s, lines, rest);
    assert lines + rest == all;
    if item.Ev? {
      assert [item][0] == item;
      FeedFields(cfg, s, item.event);
    } else {
      assert all[0][..1] == ":";
      assert FeedAll(cfg, s, all) == FeedAll(cfg, Feed(cfg, s, all[0]), all[1..]);
    }
  }

  /** `rest` is what has arrived of the item after the first `n`. */
  predicate CutAt(items: seq<Item>, cut: nat, n: nat, rest: string)
    requires cut <= |Bytes(items)| && n <= |items|
  {
    && Bytes(items)[..cut] == Bytes(items[..n]) + rest
    && if n == |items| then rest == ""
       else |rest| < |ItemBytes(items[n])| && rest == ItemBytes(items[n])[..|rest|]
  }

  lemma {:induction false} CutSplits(items: seq<Item>, cut: nat) returns (rest: string)
    requires cut <= |Bytes(items)|
    ensures CutAt(items, cut, WholeItems(items, cut), rest)
    decreases |items|
  {
    if items == [] {
      return "";
    }
    var b := ItemBytes(items[0]);
    if cut < |b| {
      rest := b[..cut];
      assert items[..0] == [];
    } else {
      rest := CutSplits(items[1..], cut - |b|);
      CutAtCons(items, cut, WholeItems(items[1..], cut - |b|), rest);
    }
  }

  lemma CutAtCons(items: seq<Item>, cut: nat, n: nat, rest: string)
    requires items != [] && |ItemBytes(items[0])| <= cut <= |Bytes(items)| && n < |items|
    requires CutAt(items[1..], cut - |ItemBytes(items[0])|, n, rest)
    ensures CutAt(items, cut, n + 1, rest)
  {
    var b, z := ItemBytes(items[0]), Bytes(items[1..]);
    TakeAfter(b, z, cut);
    BytesTake(items, n);
    FourParts(b, "", Bytes(items[1..][..n]), rest);
    assert b + "" == b;
    if n + 1 < |items| { assert items[1..][n] == items[n + 1]; }
  }

  lemma TakeAfter(b: string, z: string, cut: nat)
    requires |b| <= cut <= |b + z|
    ensures (b + z)[..cut] == b + z[..cut - |b|]
  {
  }

  lemma BytesTake(items: seq<Item>, n: nat)
    requires n + 1 <= |items|
    ensures Bytes(items[..n + 1]) == ItemBytes(items[0]) + Bytes(items[1..][..n])
  {
    assert items[..n + 1][1..] == items[1..][..n] && items[..n + 1][0] == items[0];
  }

  /** Wherever the connection breaks, the client has delivered exactly the events that arrived
      completely, and remembers the last id among them.  A break inside a character leaves the same
      complete lines as one in front of it. */
  lemma CutStream(cfg: Config, s: State, items: seq<Item>, cut: nat)
    requires Idle(s) && CleanItems(cfg, items) && cut <= |Bytes(items)|
    ensures
      var t := FeedAll(cfg, s, Lines(Bytes(items)[..cut]));
      var whole := items[..WholeItems(items, cut)];
      && t.delivered == s.delivered + EventsOf(cfg, whole)
      && t.lastEventID == LastID(s.lastEventID, whole)
      && !t.stopped
  {
    var n := WholeItems(items, cut);
    var rest := CutSplits(items, cut);
    StreamRoundTrip(cfg, s, items[..n], rest);
    var t := Received(cfg, s, items[..n]);
    if n < |items| {
      PartOfItem(items[n], |rest|);
      assert [items[n]][0] == items[n];
      FeedPart(cfg, t, items[n], Lines(rest));
    } else {
      assert Lines("") == [];
    }
  }

  // ---------- which events come through ----------

  /** Whatever arrives, ids and types are trimmed single lines and never the reserved word. */
  predicate Tidy(s: State) {
    && OneLine(s.id) && Trimmed(s.id) && OneLine(s.kind) && Trimmed(s.kind)
    && (s.kind == "close" ==> s.stopped)
    && forall i :: 0 <= i < |s.delivered| ==> CleanNames(s.delivered[i])
  }

  lemma {:induction false} DeliveredTidy(cfg: Config, s: State, lines: seq<string>)
    requires Tidy(s) && forall i :: 0 <= i < |lines| ==> OneLine(lines[i])
    ensures Tidy(FeedAll(cfg, s, lines))
    decreases |lines|
  {
    if lines != [] && !s.stopped {
      FeedTidy(cfg, s, lines[0]);
      DeliveredTidy(cfg, Feed(cfg, s, lines[0]), lines[1..]);
    }
  }

  lemma FeedTidy(cfg: Config, s: State, line: string)
    requires Tidy(s) && !s.stopped && OneLine(line)
    ensures Tidy(Feed(cfg, s, line))
  {
    if HasPrefix(line, "event:") { TrimSpaceTidy(line[6..]); }
    if HasPrefix(line, "id:") { TrimSpaceTidy(line[3..]); }
    assert CleanNames(Event(s.id, DEFAULT_EVENT_TYPE, ""));
  }

  /** An event with a marshalled payload comes through unchanged exactly if its names are clean. */
  lemma RoundTripIff(cfg: Config, e: Event)
    requires cfg.registered(e.kind) && CleanData(cfg, e)
    ensures FeedAll(cfg, Fresh("", []), Lines(Wire(e))).delivered == [e] <==> CleanNames(e)
  {
    var s := Fresh("", []);
    if CleanNames(e) {
      var items := [Ev(e)];
      assert items[0] == Ev(e) && items[1..] == [] && Bytes(items) == Wire(e) + "";
      StreamRoundTrip(cfg, s, items, "");
      OneItem(cfg, "", Ev(e));
      assert Bytes(items) + "" == Wire(e) && Lines("") == [];
    }
    LinesAreOneLine(Wire(e));
    DeliveredTidy(cfg, s, Lines(Wire(e)));
    var delivered := FeedAll(cfg, s, Lines(Wire(e))).delivered;
    assert |delivered| > 0 ==> CleanNames(delivered[0]);
  }

  // ---------- payloads that do not unmarshal ----------

  /** Text that fits its line, whether or not it unmarshals. */
  predicate Framed(e: Event) {
    CleanNames(e) && OneLine(e.data) && Trimmed(e.data)
  }

  predicate FramedItems(items: seq<Item>) {
    forall i :: 0 <= i < |items| && items[i].Ev? ==> Framed(items[i].event)
  }

  /** What `pending` payload texts and the one of `e` are read as. */
  function Glued(pending: seq<string>, e: Event): string {
    Join(pending + [e.data], "\n")
  }

  /** The payload texts still pending after `e`. */
  function Pending(cfg: Config, pending: seq<string>, e: Event): seq<string> {
    if cfg.registered(e.kind) && !cfg.valid(Glued(pending, e)) then pending + [e.data] else []
  }

  /** What the client makes of one event, and of a stream. */
  function Made(cfg: Config, pending: seq<string>, e: Event): seq<Event> {
    if cfg.registered(e.kind) && cfg.valid(Glued(pending, e)) then [Event(e.id, e.kind, Glued(pending, e))] else []
  }

  function Through(cfg: Config, pending: seq<string>, items: seq<Item>): seq<Event>
    decreases |items|
  {
    if items == [] then []
    else if items[0].Beat? then Through(cfg, pending, items[1..])
    else
      Made(cfg, pending, items[0].event) + Through(cfg, Pending(cfg, pending, items[0].event), items[1..])
  }

  /** What it should make of it: every event with a callback and a valid payload, as it was sent. */
  function Wanted(cfg: Config, items: seq<Item>): seq<Event>
    decreases |items|
  {
    if items == [] then []
    else if items[0].Ev? && cfg.registered(items[0].event.kind) && cfg.valid(items[0].event.data)
    then [items[0].event] + Wanted(cfg, items[1..])
    else Wanted(cfg, items[1..])
  }

  /** No event with a callback comes while an invalid payload is pending, but for those whose own
      payload is invalid and stays so together with it. */
  predicate Harmless(cfg: Config, pending: seq<string>, items: seq<Item>)
    decreases |items|
  {
    items == [] ||
    if items[0].Beat? then Harmless(cfg, pending, items[1..])
    else
      var e := items[0].event;
      && (pending != [] && cfg.registered(e.kind) ==> !cfg.valid(e.data) && !cfg.valid(Glued(pending, e)))
      && Harmless(cfg, Pending(cfg, pending, e), items[1..])
  }

  /** The client between two items: nothing pending, or payloads that did not unmarshal. */
  predicate Resting(cfg: Config, s: State) {
    && !s.stopped && s.kind != "close"
    && if s.data == [] then s.kind == "" && s.id == ""
       else s.kind != "" && cfg.registered(s.kind) && !cfg.valid(Join(s.data, "\n"))
  }

  lemma DispatchFramed(cfg: Config, s: State, e: Event)
    requires Resting(cfg, s) && Framed(e)
    ensures
      var t := Dispatch(cfg, s.(id := e.id, kind := e.kind, data := s.data + [e.data]));
      && Resting(cfg, t) && t.data == Pending(cfg, s.data, e)
      && t.delivered == s.delivered + Made(cfg, s.data, e)
  {
    assert s.delivered + [] == s.delivered;
  }

  lemma FeedFramed(cfg: Config, s: State, e: Event, after: seq<string>)
    requires Resting(cfg, s) && Framed(e)
    ensures FeedAll(cfg, s, FieldLines(e) + [""] + after) ==
            FeedAll(cfg, Dispatch(cfg, s.(id := e.id, kind := e.kind, data := s.data + [e.data])), after)
  {
    var t := s.(id := e.id, kind := e.kind, data := s.data + [e.data]);
    FeedFields(cfg, s, e);
    FeedAllAppend(cfg, s, FieldLines(e), [""] + after);
    assert FieldLines(e) + [""] + after == FieldLines(e) + ([""] + after);
    FeedFirst(cfg, t, "", after);
  }

  /** A heartbeat only makes the client fail once more on what is pending. */
  lemma RestingBeat(cfg: Config, s: State, after: seq<string>) returns (t: State)
    requires Resting(cfg, s)
    ensures Resting(cfg, t) && t.data == s.data && t.delivered == s.delivered
    ensures FeedAll(cfg, s, [": heartbeat"] + ([""] + after)) == FeedAll(cfg, t, after)
  {
    var beat := ": heartbeat";
    assert beat[..1] == ":";
    t := Feed(cfg, s, "");
    FeedFirst(cfg, s, beat, [""] + after);
    FeedFirst(cfg, s, "", after);
  }

  /** The parser, from any resting state, makes `Through` of the text of framed items. */
  lemma {:induction false} ParsedIsThrough(cfg: Config, s: State, items: seq<Item>)
    requires Resting(cfg, s) && FramedItems(items)
    ensures FeedAll(cfg, s, Lines(Bytes(items))).delivered == s.delivered + Through(cfg, s.data, items)
    decreases |items|
  {
    if items == [] {
      assert Lines("") == [];
    } else {
      var rest := Bytes(items[1..]);
      if items[0].Beat? {
        BeatLines(rest);
        var t := RestingBeat(cfg, s, Lines(rest));
        ParsedIsThrough(cfg, t, items[1..]);
      } else {
        var e := items[0].event;
        WireLines(e, rest);
        FeedFramed(cfg, s, e, Lines(rest));
        DispatchFramed(cfg, s, e);
        var t := Dispatch(cfg, s.(id := e.id, kind := e.kind, data := s.data + [e.data]));
        ParsedIsThrough(cfg, t, items[1..]);
        Regroup(s.delivered, Made(cfg, s.data, e), Through(cfg, t.data, items[1..]));
      }
    }
  }

  lemma Regroup(a: seq<Event>, b: seq<Event>, c: seq<Event>)
    ensures a + b + c == a + (b + c)
  {
  }

  lemma {:induction false} HarmlessComesThrough(cfg: Config, pending: seq<string>, items: seq<Item>)
    requires Harmless(cfg, pending, items)
    ensures Through(cfg, pending, items) == Wanted(cfg, items)
    decreases |items|
  {
    if items != [] {
      if items[0].Beat? {
        HarmlessComesThrough(cfg, pending, items[1..]);
      } else {
        var e := items[0].event;
        HarmlessComesThrough(cfg, Pending(cfg, pending, e), items[1..]);
        GluedOne(e);
      }
    }
  }

  lemma {:induction false} GluedBreaks(pending: seq<string>, e: Event)
    requires pending != []
    ensures !OneLine(Glued(pending, e))
    decreases |pending|
  {
    var parts := pending + [e.data];
    assert Join(parts, "\n") == parts[0] + "\n" + Join(parts[1..], "\n");
    assert Join(parts, "\n")[|parts[0]|] == '\n';
  }

  /** If nothing glued is delivered, nothing more than wanted is, and only as much if all was
      harmless. */
  lemma {:induction false} LossIsCounted(cfg: Config, pending: seq<string>, items: seq<Item>)
    requires forall x <- Through(cfg, pending, items) :: OneLine(x.data)
    ensures |Through(cfg, pending, items)| <= |Wanted(cfg, items)|
    ensures |Through(cfg, pending, items)| == |Wanted(cfg, items)| ==> Harmless(cfg, pending, items)
    decreases |items|
  {
    if items != [] {
      if items[0].Beat? {
        LossIsCounted(cfg, pending, items[1..]);
      } else {
        var e := items[0].event;
        var made, rest := Made(cfg, pending, e), Through(cfg, Pending(cfg, pending, e), items[1..]);
        assert forall x <- rest :: x in made + rest;
        assert made != [] ==> made[0] in made + rest;
        LossIsCounted(cfg, Pending(cfg, pending, e), items[1..]);
        if pending != [] { GluedBreaks(pending, e); }
        GluedOne(e);
      }
    }
  }

  lemma {:induction false} WantedOneLine(cfg: Config, items: seq<Item>)
    requires FramedItems(items)
    ensures forall x <- Wanted(cfg, items) :: OneLine(x.data)
    decreases |items|
  {
    if items != [] { WantedOneLine(cfg, items[1..]); }
  }

  /** On whole streams with payloads of any kind: the events that have a callback and a valid
      payload, and nothing else, are delivered as they were sent, exactly if no pending payload
      does harm. */
  lemma ComesThroughIff(cfg: Config, items: seq<Item>)
    requires FramedItems(items)
    ensures
      FeedAll(cfg, Fresh("", []), Lines(Bytes(items))).delivered == Wanted(cfg, items)
      <==> Harmless(cfg, [], items)
  {
    ParsedIsThrough(cfg, Fresh("", []), items);
    var through := Through(cfg, [], items);
    assert [] + through == through;
    if Harmless(cfg, [], items) {
      HarmlessComesThrough(cfg, [], items);
    } else if through == Wanted(cfg, items) {
      WantedOneLine(cfg, items);
      LossIsCounted(cfg, [], items);
    }
  }

  /** The fields are not cleared when a payload does not unmarshal: its text is glued in front of
      the payload of the next event, which is then not delivered as it was sent. */
  lemma BadPayloadSticks(cfg: Config, s: State, bad: Event, next: Event)
    requires Idle(s) && Framed(bad) && CleanNames(next) && CleanData(cfg, next)
    requires cfg.registered(bad.kind) && !cfg.valid(bad.data) && cfg.registered(next.kind)
    ensures
      var glued := bad.data + "\n" + next.data;
      FeedAll(cfg, s, FieldLines(bad) + [""] + (FieldLines(next) + [""])).delivered ==
      s.delivered + if cfg.valid(glued) then [Event(next.id, next.kind, glued)] else []
  {
    var second := FieldLines(next) + [""];
    GluedOne(bad);
    FeedFramed(cfg, s, bad, second);
    DispatchFramed(cfg, s, bad);
    var t := Dispatch(cfg, s.(id := bad.id, kind := bad.kind, data := s.data + [bad.data]));
    assert t.data == [bad.data] && t.delivered == s.delivered;
    assert second + [] == second;
    FeedFramed(cfg, t, next, []);
    DispatchFramed(cfg, t, next);
    GluedTwo(bad, next);
  }

  lemma GluedOne(e: Event)
    ensures [] + [e.data] == [e.data] && Glued([], e) == e.data
  {
  }

  lemma GluedTwo(bad: Event, next: Event)
    ensures Glued([bad.data], next) == bad.data + "\n" + next.data
  {
    assert [bad.data] + [next.data] == [bad.data, next.data] && [bad.data, next.data][1..] == [next.data];
    assert Join([next.data], "\n") == next.data;
  }

  // ---------- carriage returns ----------

  predicate TwoBreaks(s: string, k: nat) {
    k + 1 < |s| && s[k] == '\n' && s[k + 1] == '\n'
  }

  lemma {:induction false} BlankNeedsTwoBreaks(body: string)
    requires body != "" ==> body[0] != '\n'
    requires forall k: nat :: !TwoBreaks(body, k)
    ensures "" !in Lines(body)
    decreases |body|
  {
    var i := Index(body, "\n");
    if i >= 0 {
      var rest := body[i + 1..];
      assert body[i..i + 1][0] == body[i];
      assert !TwoBreaks(body, i);
      forall k: nat
        ensures !TwoBreaks(rest, k)
      {
        assert !TwoBreaks(body, i + 1 + k);
      }
      BlankNeedsTwoBreaks(rest);
    }
  }

  /** Only a line feed ends a line: a stream with carriage returns in front of all line feeds, which
      section 9.2.5 allows, has no blank line and delivers nothing. */
  lemma CarriageReturns(cfg: Config, s: State, body: string)
    requires forall i :: 0 <= i < |body| && body[i] == '\n' ==> i > 0 && body[i - 1] == '\r'
    ensures
      var t := FeedAll(cfg, s, Lines(body));
      t.delivered == s.delivered && t.lastEventID == s.lastEventID
  {
    BlankNeedsTwoBreaks(body);
    NoBlankNoDelivery(cfg, s, Lines(body));
  }
}
