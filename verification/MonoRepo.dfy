/** `adaptMonoRepo` of cmd/protoc-gen-go-gin: three import-path rewrites applied in the order in
    which Go happens to iterate over a map.  For some server names the result depends on that
    order; the names for which it never does are characterised exactly. */
module MonoRepo {
  import opened Text
  import opened Wrappers

  datatype Rule = Internal | Configs | Api

  const ALL_RULES: set<Rule> := {Internal, Configs, Api}

  /** The directory a rule looks for below the module path. */
  function Dir(k: Rule): string {
    match k
    case Internal => "internal/"
    case Configs => "configs"
    case Api => "api"
  }

  function OldPath(m: string, k: Rule): string {
    m + "/" + Dir(k)
  }

  function NewPath(m: string, s: string, k: Rule): string {
    m + "/" + s + "/" + Dir(k)
  }

  predicate QuoteFree(x: string) {
    '"' !in x
  }

  /** One turn of the loop: the map entry for rule `k`. */
  function Rewrite(m: string, s: string, k: Rule, data: string): string {
    ReplaceAll(data, "\"" + OldPath(m, k), "\"" + NewPath(m, s, k))
  }

  /** The whole loop for one iteration order of the map. */
  function AdaptIn(m: string, s: string, order: seq<Rule>, data: string): string {
    if order == [] then data
    else Rewrite(m, s, order[|order| - 1], AdaptIn(m, s, order[..|order| - 1], data))
  }

  predicate IsOrder(order: seq<Rule>) {
    multiset(order) == multiset{Internal, Configs, Api}
  }

  /** The server names below which no rule finds anything to rewrite again. */
  predicate SafeServer(s: string) {
    !HasPrefix(s, "configs") && !HasPrefix(s, "api") && s != "internal" && !HasPrefix(s, "internal/")
  }

  predicate Applies(m: string, rules: set<Rule>, data: string, k: Rule) {
    k in rules && HasPrefix(data, "\"" + OldPath(m, k))
  }

  /** Independent reference: every quoted path is looked at once, in the original text. */
  function Simultaneous(m: string, s: string, rules: set<Rule>, data: string): string
    decreases |data|
  {
    if data == "" then ""
    else if Applies(m, rules, data, Internal) then After(m, s, rules, data, Internal)
    else if Applies(m, rules, data, Configs) then After(m, s, rules, data, Configs)
    else if Applies(m, rules, data, Api) then After(m, s, rules, data, Api)
    else [data[0]] + Simultaneous(m, s, rules, data[1..])
  }

  function After(m: string, s: string, rules: set<Rule>, data: string, k: Rule): string
    requires HasPrefix(data, "\"" + OldPath(m, k))
    decreases |data|, 0
  {
    "\"" + NewPath(m, s, k) + Simultaneous(m, s, rules, data[1 + |OldPath(m, k)|..])
  }

  // ---------- no directory name is a prefix of another, nor of a rewritten path ----------

  /** At most one rule applies at a position. */
  lemma OneRuleApplies(m: string, data: string, k: Rule, j: Rule)
    requires HasPrefix(data, "\"" + OldPath(m, k)) && HasPrefix(data, "\"" + OldPath(m, j))
    ensures k == j
  {
    var at := |m| + 2;
    assert data[at] == ("\"" + OldPath(m, k))[at] == Dir(k)[0];
    assert data[at] == ("\"" + OldPath(m, j))[at] == Dir(j)[0];
  }

  lemma PrefixCancel(h: string, x: string, y: string)
    ensures HasPrefix(h + x, h + y) <==> HasPrefix(x, y)
  {
    if |y| <= |x| {
      assert (h + x)[..|h| + |y|] == h + x[..|y|];
      assert (h + y)[|h|..] == y && (h + x[..|y|])[|h|..] == x[..|y|];
    }
  }

  lemma Regroup(q: string, m: string, slash: string, s: string, d: string, z: string)
    ensures q + (m + slash + s + slash + d) + z == q + m + slash + (s + slash + (d + z))
  {
  }

  /** Whether rule `k` applies to a path just written by rule `j` depends on the server name only. */
  lemma AppliesToNew(m: string, s: string, k: Rule, j: Rule, z: string)
    ensures HasPrefix("\"" + NewPath(m, s, j) + z, "\"" + OldPath(m, k)) <==>
            HasPrefix(s + "/", Dir(k))
  {
    var head, y := "\"" + m + "/", Dir(j) + z;
    Regroup("\"", m, "/", s, Dir(j), z);
    assert "\"" + OldPath(m, k) == head + Dir(k);
    PrefixCancel(head, s + "/" + y, Dir(k));
    SlashEndsPrefix(s, y, Dir(k));
  }

  lemma SlashEndsPrefix(s: string, y: string, d: string)
    requires forall i :: 0 <= i < |d| - 1 ==> d[i] != '/'
    ensures HasPrefix(s + "/" + y, d) <==> HasPrefix(s + "/", d)
  {
    var t := s + "/" + y;
    assert t[|s|] == '/';
    if |d| <= |s| + 1 {
      assert t[..|d|] == (s + "/")[..|d|];
    }
  }

  lemma FitsServer(s: string, k: Rule)
    ensures HasPrefix(s + "/", Dir(k)) <==>
            if k.Internal? then s == "internal" || HasPrefix(s, "internal/") else HasPrefix(s, Dir(k))
  {
    var t, d := s + "/", Dir(k);
    if |d| <= |s| {
      assert t[..|d|] == s[..|d|];
    } else if |d| == |s| + 1 {
      assert t[..|d|] == t && t[|s|] == '/';
      assert k.Internal? ==> d == "internal" + "/" && d[..|s|] == "internal" && t[..|s|] == s;
    }
  }

  lemma SafeIffNoRuleFits(s: string)
    ensures SafeServer(s) <==> forall k :: !HasPrefix(s + "/", Dir(k))
  {
    FitsServer(s, Internal);
    FitsServer(s, Configs);
    FitsServer(s, Api);
    assert HasPrefix(s, Dir(Configs)) <==> HasPrefix(s, "configs");
    assert (forall k :: !HasPrefix(s + "/", Dir(k))) ==>
        !HasPrefix(s + "/", Dir(Internal)) && !HasPrefix(s + "/", Dir(Configs)) && !HasPrefix(s + "/", Dir(Api));
  }

  // ---------- rewriting copies quote-free text ----------

  lemma {:induction false} ReplaceSkips(t: string, z: string, old_: string, new_: string)
    requires QuoteFree(t) && old_ != "" && old_[0] == '"'
    ensures ReplaceAll(t + z, old_, new_) == t + ReplaceAll(z, old_, new_)
    decreases |t|
  {
    if t == "" {
      assert t + z == z;
    } else {
      assert (t + z)[0] == t[0] != '"';
      assert (t + z)[1..] == t[1..] + z;
      ReplaceSkips(t[1..], z, old_, new_);
    }
  }

  lemma NoQuoteHere(m: string, s: string, rules: set<Rule>, t: string)
    requires t != "" && t[0] != '"'
    ensures Simultaneous(m, s, rules, t) == [t[0]] + Simultaneous(m, s, rules, t[1..])
  {
    forall k
      ensures !Applies(m, rules, t, k)
    {
      assert ("\"" + OldPath(m, k))[0] == '"';
    }
  }

  lemma {:induction false} SimultaneousSkips(m: string, s: string, rules: set<Rule>, t: string, z: string)
    requires QuoteFree(t)
    ensures Simultaneous(m, s, rules, t + z) == t + Simultaneous(m, s, rules, z)
    decreases |t|
  {
    if t == "" {
      assert t + z == z;
    } else {
      SimultaneousSkips(m, s, rules, t[1..], z);
      SkipOne(m, s, rules, t[0], t[1..], z, Simultaneous(m, s, rules, z));
      assert t == [t[0]] + t[1..];
    }
  }

  lemma SkipOne(m: string, s: string, rules: set<Rule>, c: char, t: string, z: string, r: string)
    requires c != '"' && Simultaneous(m, s, rules, t + z) == t + r
    ensures Simultaneous(m, s, rules, [c] + t + z) == [c] + t + r
  {
    var text := [c] + t + z;
    Assoc([c], t, z);
    Assoc([c], t, r);
    assert text[0] == c && text[1..] == t + z;
    NoQuoteHere(m, s, rules, text);
  }

  lemma QuoteKept(m: string, s: string, rules: set<Rule>, t: string)
    requires t != "" && t[0] == '"'
    ensures var r := Simultaneous(m, s, rules, t); r != "" && r[0] == '"'
  {
    forall k | HasPrefix(t, "\"" + OldPath(m, k))
      ensures var r := After(m, s, rules, t, k); r != "" && r[0] == '"'
    {
    }
  }

  /** Rewriting neither makes nor destroys a quote-free prefix. */
  lemma {:induction false} QuoteFreePrefixKept(m: string, s: string, rules: set<Rule>, t: string, q: string)
    requires QuoteFree(q)
    ensures HasPrefix(Simultaneous(m, s, rules, t), q) <==> HasPrefix(t, q)
    decreases |q|
  {
    var r := Simultaneous(m, s, rules, t);
    if q != "" && t != "" {
      if t[0] == '"' {
        QuoteKept(m, s, rules, t);
      } else {
        NoQuoteHere(m, s, rules, t);
        QuoteFreePrefixKept(m, s, rules, t[1..], q[1..]);
        assert q == [q[0]] + q[1..] && t == [t[0]] + t[1..];
        PrefixOfCons(r, q);
        PrefixOfCons(t, q);
      }
    }
  }

  lemma PrefixOfCons(x: string, q: string)
    requires x != "" && q != ""
    ensures HasPrefix(x, q) <==> x[0] == q[0] && HasPrefix(x[1..], q[1..])
  {
    if |q| <= |x| {
      assert x[..|q|] == [x[0]] + x[1..][..|q| - 1];
      assert q == [q[0]] + q[1..];
    }
  }

  // ---------- one rewrite after a simultaneous one ----------

  predicate Names(m: string, s: string) {
    QuoteFree(m) && QuoteFree(s)
  }

  lemma PathsQuoteFree(m: string, s: string, k: Rule)
    requires Names(m, s)
    ensures QuoteFree(OldPath(m, k)) && QuoteFree(NewPath(m, s, k))
  {
  }

  /** The rule that applies is the one the reference uses. */
  lemma UsesApplying(m: string, s: string, rules: set<Rule>, data: string, k: Rule)
    requires Applies(m, rules, data, k)
    ensures Simultaneous(m, s, rules, data) == After(m, s, rules, data, k)
  {
    forall j | Applies(m, rules, data, j)
      ensures j == k
    {
      OneRuleApplies(m, data, j, k);
    }
    assert data != "";
  }

  lemma KeepsOther(m: string, s: string, rules: set<Rule>, data: string)
    requires data != "" && forall k :: !Applies(m, rules, data, k)
    ensures Simultaneous(m, s, rules, data) == [data[0]] + Simultaneous(m, s, rules, data[1..])
  {
    assert !Applies(m, rules, data, Internal) && !Applies(m, rules, data, Configs) && !Applies(m, rules, data, Api);
  }

  lemma RewriteKeepsQuoted(m: string, s: string, k: Rule, t: string, z: string)
    requires QuoteFree(t) && !HasPrefix("\"" + t + z, "\"" + OldPath(m, k))
    ensures Rewrite(m, s, k, "\"" + t + z) == "\"" + t + Rewrite(m, s, k, z)
  {
    ReplaceKeepsFirst("\"" + t + z, t + z, "\"" + OldPath(m, k), "\"" + NewPath(m, s, k));
    ReplaceSkips(t, z, "\"" + OldPath(m, k), "\"" + NewPath(m, s, k));
    Assoc("\"", t, Rewrite(m, s, k, z));
  }

  lemma ReplaceKeepsFirst(text: string, rest: string, old_: string, new_: string)
    requires old_ != "" && text != "" && text[1..] == rest && !HasPrefix(text, old_)
    ensures ReplaceAll(text, old_, new_) == [text[0]] + ReplaceAll(rest, old_, new_)
  {}

  lemma RewriteNew(m: string, s: string, k: Rule, j: Rule, z: string)
    requires Names(m, s) && SafeServer(s)
    ensures Rewrite(m, s, k, "\"" + NewPath(m, s, j) + z) == "\"" + NewPath(m, s, j) + Rewrite(m, s, k, z)
  {
    AppliesToNew(m, s, k, j, z);
    SafeIffNoRuleFits(s);
    PathsQuoteFree(m, s, j);
    RewriteKeepsQuoted(m, s, k, NewPath(m, s, j), z);
  }

  lemma RewriteOld(m: string, s: string, k: Rule, z: string)
    ensures Rewrite(m, s, k, "\"" + OldPath(m, k) + z) == "\"" + NewPath(m, s, k) + Rewrite(m, s, k, z)
  {
    var old_ := "\"" + OldPath(m, k);
    assert (old_ + z)[..|old_|] == old_ && (old_ + z)[|old_|..] == z;
  }

  /** Rewriting with one more rule is the same as having used it from the start; with a rule
      already used it changes nothing. */
  lemma {:induction false} OneMoreRule(m: string, s: string, rules: set<Rule>, k: Rule, data: string)
    requires Names(m, s) && SafeServer(s)
    ensures Rewrite(m, s, k, Simultaneous(m, s, rules, data)) == Simultaneous(m, s, rules + {k}, data)
    decreases |data|
  {
    if data == "" {
    } else if j :| Applies(m, rules, data, j) {
      var rest := data[1 + |OldPath(m, j)|..];
      OneMoreRule(m, s, rules, k, rest);
      UsesApplying(m, s, rules, data, j);
      UsesApplying(m, s, rules + {k}, data, j);
      RewriteNew(m, s, k, j, Simultaneous(m, s, rules, rest));
    } else if Applies(m, {k}, data, k) {
      NewRuleApplies(m, s, rules, k, data);
      OneMoreRule(m, s, rules, k, data[1 + |OldPath(m, k)|..]);
    } else {
      OneMoreRule(m, s, rules, k, data[1..]);
      forall j
        ensures !Applies(m, rules + {k}, data, j)
      {
        assert !Applies(m, rules, data, j) && !Applies(m, {k}, data, j);
      }
      KeepsOther(m, s, rules, data);
      KeepsOther(m, s, rules + {k}, data);
      NoneAppliesAfter(m, s, rules, k, data);
    }
  }

  lemma NewRuleApplies(m: string, s: string, rules: set<Rule>, k: Rule, data: string)
    requires Names(m, s) && Applies(m, {k}, data, k) && forall j :: !Applies(m, rules, data, j)
    ensures
      var rest := data[1 + |OldPath(m, k)|..];
      && Rewrite(m, s, k, Simultaneous(m, s, rules, data)) ==
         "\"" + NewPath(m, s, k) + Rewrite(m, s, k, Simultaneous(m, s, rules, rest))
      && Simultaneous(m, s, rules + {k}, data) ==
         "\"" + NewPath(m, s, k) + Simultaneous(m, s, rules + {k}, rest)
  {
    var rest := data[1 + |OldPath(m, k)|..];
    OldStays(m, s, rules, k, data, rest);
    RewriteOld(m, s, k, Simultaneous(m, s, rules, rest));
    UsesApplying(m, s, rules + {k}, data, k);
  }

  lemma OldStays(m: string, s: string, rules: set<Rule>, k: Rule, data: string, rest: string)
    requires Names(m, s) && Applies(m, {k}, data, k) && forall j :: !Applies(m, rules, data, j)
    requires rest == data[1 + |OldPath(m, k)|..]
    ensures Simultaneous(m, s, rules, data) == "\"" + OldPath(m, k) + Simultaneous(m, s, rules, rest)
  {
    var old_ := OldPath(m, k);
    FitCut(data, old_, rest);
    KeepsOther(m, s, rules, data);
    PathsQuoteFree(m, s, k);
    SimultaneousSkips(m, s, rules, old_, rest);
    Assoc("\"", old_, Simultaneous(m, s, rules, rest));
  }

  lemma FitCut(data: string, old_: string, rest: string)
    requires HasPrefix(data, "\"" + old_) && rest == data[1 + |old_|..]
    ensures data[0] == '"' && data[1..] == old_ + rest
  {
    var quoted := "\"" + old_;
    assert data == quoted + rest;
    assert quoted[0] == '"' && quoted[1..] == old_;
  }

  lemma NoneAppliesAfter(m: string, s: string, rules: set<Rule>, k: Rule, data: string)
    requires Names(m, s) && data != "" && !Applies(m, {k}, data, k)
    ensures
      var z := Simultaneous(m, s, rules, data[1..]);
      Rewrite(m, s, k, [data[0]] + z) == [data[0]] + Rewrite(m, s, k, z)
  {
    var z, old_ := Simultaneous(m, s, rules, data[1..]), "\"" + OldPath(m, k);
    PathsQuoteFree(m, s, k);
    QuoteFreePrefixKept(m, s, rules, data[1..], OldPath(m, k));
    PrefixOfCons([data[0]] + z, old_);
    PrefixOfCons(data, old_);
    assert old_[1..] == OldPath(m, k) && ([data[0]] + z)[1..] == z;
  }

  lemma {:induction false} SimultaneousNone(m: string, s: string, data: string)
    ensures Simultaneous(m, s, {}, data) == data
    decreases |data|
  {
    if data != "" {
      KeepsOther(m, s, {}, data);
      SimultaneousNone(m, s, data[1..]);
    }
  }

  // ---------- the loop ----------

  function RulesOf(order: seq<Rule>): set<Rule> {
    set k | k in order
  }

  /** For a safe server name the loop computes the reference, whatever the order. */
  lemma {:induction false} AnyOrderIsSimultaneous(m: string, s: string, order: seq<Rule>, data: string)
    requires Names(m, s) && SafeServer(s)
    ensures AdaptIn(m, s, order, data) == Simultaneous(m, s, RulesOf(order), data)
    decreases |order|
  {
    if order == [] {
      assert RulesOf(order) == {};
      SimultaneousNone(m, s, data);
    } else {
      var front, k := order[..|order| - 1], order[|order| - 1];
      AnyOrderIsSimultaneous(m, s, front, data);
      OneMoreRule(m, s, RulesOf(front), k, data);
      assert order == front + [k];
      assert RulesOf(order) == RulesOf(front) + {k};
    }
  }

  /** `adaptMonoRepo`.  The map is iterated by picking any entry not visited yet. */
  method AdaptMonoRepo(moduleName: string, serverName: string, input: string) returns (data: string)
    requires Names(moduleName, serverName)
    ensures exists order :: IsOrder(order) && data == AdaptIn(moduleName, serverName, order, input)
    ensures SafeServer(serverName) ==> data == Simultaneous(moduleName, serverName, ALL_RULES, input)
  {
    data := input;
    var todo := ALL_RULES;
    ghost var order: seq<Rule> := [];
    while todo != {}
      invariant data == AdaptIn(moduleName, serverName, order, input)
      invariant multiset(order) + multiset(todo) == multiset{Internal, Configs, Api}
      decreases todo
    {
      var k :| k in todo;
      data := ReplaceAll(data, "\"" + OldPath(moduleName, k), "\"" + NewPath(moduleName, serverName, k));
      todo := todo - {k};
      assert (order + [k])[..|order|] == order;
      order := order + [k];
    }
    assert IsOrder(order);
    if SafeServer(serverName) {
      AnyOrderIsSimultaneous(moduleName, serverName, order, input);
      OrderHasAll(order);
    }
  }

  lemma OrderHasAll(order: seq<Rule>)
    requires IsOrder(order)
    ensures RulesOf(order) == ALL_RULES
  {
    var all := multiset{Internal, Configs, Api};
    assert all[Internal] == 1 && all[Configs] == 1 && all[Api] == 1;
    assert Internal in multiset(order) && Configs in multiset(order) && Api in multiset(order);
    assert Internal in order && Configs in order && Api in order;
    forall k
      ensures k in ALL_RULES && k in RulesOf(order)
    {
      match k { case Internal => case Configs => case Api => }
    }
  }

  // ---------- what that does to one import after another ----------

  predicate Moved(d: string) {
    d == "internal/" || d == "configs" || d == "api"
  }

  /** Text without a quote stays, and behind an opening quote the server name goes in between the
      module path and one of the three directories; then the same with what follows. */
  lemma ImportMoves(m: string, s: string, order: seq<Rule>, x: string, d: string, z: string)
    requires Names(m, s) && SafeServer(s) && IsOrder(order) && QuoteFree(x) && Moved(d)
    ensures
      AdaptIn(m, s, order, x + ("\"" + (m + "/" + d) + z)) ==
      x + ("\"" + (m + "/" + s + "/" + d) + AdaptIn(m, s, order, z))
  {
    var k := if d == "internal/" then Internal else if d == "configs" then Configs else Api;
    var data := "\"" + OldPath(m, k) + z;
    OrderHasAll(order);
    AnyOrderIsSimultaneous(m, s, order, x + data);
    AnyOrderIsSimultaneous(m, s, order, z);
    SimultaneousSkips(m, s, ALL_RULES, x, data);
    RuleApplies(m, k, z);
    UsesApplying(m, s, ALL_RULES, data, k);
  }

  lemma RuleApplies(m: string, k: Rule, z: string)
    ensures
      var data := "\"" + OldPath(m, k) + z;
      Applies(m, ALL_RULES, data, k) && data[1 + |OldPath(m, k)|..] == z
  {
    var old_ := "\"" + OldPath(m, k);
    assert (old_ + z)[..|old_|] == old_ && (old_ + z)[|old_|..] == z;
    match k { case Internal => case Configs => case Api => }
  }

  predicate NothingMoved(m: string, text: string) {
    && !HasPrefix(text, "\"" + (m + "/" + "internal/"))
    && !HasPrefix(text, "\"" + (m + "/" + "configs")) && !HasPrefix(text, "\"" + (m + "/" + "api"))
  }

  lemma NoneApplies(m: string, text: string)
    requires NothingMoved(m, text)
    ensures forall k :: !Applies(m, ALL_RULES, text, k)
  {
    forall k
      ensures !Applies(m, ALL_RULES, text, k)
    {
      match k { case Internal => case Configs => case Api => }
    }
  }

  lemma QuotedStays(m: string, s: string, t: string, z: string, text: string)
    requires QuoteFree(t) && text == "\"" + t + z && forall k :: !Applies(m, ALL_RULES, text, k)
    ensures Simultaneous(m, s, ALL_RULES, text) == "\"" + t + Simultaneous(m, s, ALL_RULES, z)
  {
    assert text[0] == '"' && text[1..] == t + z;
    KeepsOther(m, s, ALL_RULES, text);
    SimultaneousSkips(m, s, ALL_RULES, t, z);
    Assoc("\"", t, Simultaneous(m, s, ALL_RULES, z));
  }

  /** Behind any other quote nothing changes up to the next one. */
  lemma OtherQuoteStays(m: string, s: string, order: seq<Rule>, x: string, t: string, z: string)
    requires Names(m, s) && SafeServer(s) && IsOrder(order) && QuoteFree(x) && QuoteFree(t)
    requires NothingMoved(m, "\"" + t + z)
    ensures AdaptIn(m, s, order, x + ("\"" + t + z)) == x + ("\"" + t + AdaptIn(m, s, order, z))
  {
    var text := "\"" + t + z;
    OrderHasAll(order);
    AnyOrderIsSimultaneous(m, s, order, x + text);
    AnyOrderIsSimultaneous(m, s, order, z);
    SimultaneousSkips(m, s, ALL_RULES, x, text);
    NoneApplies(m, text);
    QuotedStays(m, s, t, z, text);
  }

  // ---------- when the order matters ----------

  /** What one rule does to the text of a single quoted path. */
  function OnPath(m: string, s: string, k: Rule, t: string): string {
    if HasPrefix(t, OldPath(m, k)) then NewPath(m, s, k) + t[|OldPath(m, k)|..] else t
  }

  lemma RewriteQuoteFree(m: string, s: string, k: Rule, z: string)
    requires QuoteFree(z)
    ensures Rewrite(m, s, k, z) == z
  {
    assert z + "" == z;
    ReplaceSkips(z, "", "\"" + OldPath(m, k), "\"" + NewPath(m, s, k));
  }

  lemma RewriteOnPath(m: string, s: string, k: Rule, t: string)
    requires Names(m, s) && QuoteFree(t)
    ensures Rewrite(m, s, k, "\"" + t) == "\"" + OnPath(m, s, k, t)
    ensures QuoteFree(OnPath(m, s, k, t))
  {
    var old_ := OldPath(m, k);
    PathsQuoteFree(m, s, k);
    PrefixCancel("\"", t, old_);
    if HasPrefix(t, old_) {
      var z := t[|old_|..];
      RewriteQuoteFree(m, s, k, z);
      RewriteFits(m, s, k, z);
      assert t == old_ + z;
    } else {
      RewriteQuoteFree(m, s, k, "");
      RewriteKeepsQuoted(m, s, k, t, "");
      assert "\"" + t + "" == "\"" + t;
    }
  }

  lemma RewriteFits(m: string, s: string, k: Rule, z: string)
    requires Rewrite(m, s, k, z) == z
    ensures Rewrite(m, s, k, "\"" + (OldPath(m, k) + z)) == "\"" + (NewPath(m, s, k) + z)
  {
    RewriteOld(m, s, k, z);
    Assoc("\"", OldPath(m, k), z);
    Assoc("\"", NewPath(m, s, k), z);
  }

  lemma OnOld(m: string, s: string, k: Rule, i: Rule)
    ensures OnPath(m, s, k, OldPath(m, i)) == if k == i then NewPath(m, s, i) else OldPath(m, i)
  {
    var old_ := OldPath(m, i);
    assert old_[..|old_|] == old_ && old_[|old_|..] == "";
    assert NewPath(m, s, i) + "" == NewPath(m, s, i);
    if HasPrefix(old_, OldPath(m, k)) {
      PrefixCancel("\"", old_, OldPath(m, k));
      PrefixCancel("\"", old_, old_);
      OneRuleApplies(m, "\"" + old_, k, i);
    }
  }

  /** On a path that a rule wrote, another rule either does nothing or writes a longer one. */
  lemma OnNew(m: string, s: string, k: Rule, i: Rule, z: string) returns (j: Rule, y: string)
    ensures OnPath(m, s, k, NewPath(m, s, i) + z) == NewPath(m, s, j) + y
    ensures |NewPath(m, s, j) + y| ==
            |NewPath(m, s, i) + z| + if HasPrefix(s + "/", Dir(k)) then |s| + 1 else 0
  {
    var t, old_ := NewPath(m, s, i) + z, OldPath(m, k);
    PrefixCancel("\"", t, old_);
    assert "\"" + NewPath(m, s, i) + z == "\"" + t;
    AppliesToNew(m, s, k, i, z);
    if HasPrefix(s + "/", Dir(k)) {
      return k, t[|old_|..];
    }
    return i, z;
  }

  /** The text a single quoted path becomes under a whole iteration order. */
  lemma OrderOnPath(m: string, s: string, order: seq<Rule>, t: string)
    requires Names(m, s) && QuoteFree(t) && |order| == 3
    ensures
      var r := OnPath(m, s, order[2], OnPath(m, s, order[1], OnPath(m, s, order[0], t)));
      QuoteFree(r) && AdaptIn(m, s, order, "\"" + t) == "\"" + r
  {
    var a := OnPath(m, s, order[0], t);
    var b := OnPath(m, s, order[1], a);
    var data := "\"" + t;
    RewriteOnPath(m, s, order[0], t);
    RewriteOnPath(m, s, order[1], a);
    RewriteOnPath(m, s, order[2], b);
    assert AdaptIn(m, s, order[..0], data) == data;
    assert order[..1][..0] == order[..0] && order[..2][..1] == order[..1];
    assert AdaptIn(m, s, order[..1], data) == Rewrite(m, s, order[0], data);
    assert AdaptIn(m, s, order[..2], data) == Rewrite(m, s, order[1], AdaptIn(m, s, order[..1], data));
  }

  lemma OnlyOneFits(s: string, k: Rule, j: Rule)
    requires HasPrefix(s + "/", Dir(k)) && HasPrefix(s + "/", Dir(j))
    ensures k == j
  {
    assert (s + "/")[0] == Dir(k)[0] == Dir(j)[0];
  }

  lemma ThreeRules(order: seq<Rule>)
    requires IsOrder(order)
    ensures |order| == 3 && order[0] != order[1] && order[0] != order[2] && order[1] != order[2]
  {
    var all := multiset{Internal, Configs, Api};
    assert |multiset(order)| == |all| == 3;
    assert order == [order[0]] + [order[1]] + [order[2]];
    var ms := multiset{order[0], order[1], order[2]};
    assert ms == multiset(order);
    assert all[order[0]] <= 1 && all[order[1]] <= 1;
  }

  /** The result is the same for every iteration order exactly for the safe server names. */
  lemma OrderIndependentIffSafe(m: string, s: string)
    requires Names(m, s)
    ensures SafeServer(s) <==>
            forall data, o, p | IsOrder(o) && IsOrder(p) :: AdaptIn(m, s, o, data) == AdaptIn(m, s, p, data)
  {
    if SafeServer(s) {
      forall data, o, p | IsOrder(o) && IsOrder(p)
        ensures AdaptIn(m, s, o, data) == AdaptIn(m, s, p, data)
      {
        AnyOrderIsSimultaneous(m, s, o, data);
        AnyOrderIsSimultaneous(m, s, p, data);
        OrderHasAll(o);
        OrderHasAll(p);
      }
    } else {
      SafeIffNoRuleFits(s);
      var k :| HasPrefix(s + "/", Dir(k));
      var data, o, p := OrderMatters(m, s, k);
    }
  }

  lemma OrderMatters(m: string, s: string, k: Rule) returns (data: string, o: seq<Rule>, p: seq<Rule>)
    requires Names(m, s) && HasPrefix(s + "/", Dir(k))
    ensures IsOrder(o) && IsOrder(p) && AdaptIn(m, s, o, data) != AdaptIn(m, s, p, data)
  {
    var i := if k.Internal? then Configs else Internal;
    var j := if k.Api? then Configs else Api;
    var t := OldPath(m, i);
    data, o, p := "\"" + t, [i, k, j], [k, i, j];
    DistinctIsOrder(i, k, j);
    DistinctIsOrder(k, i, j);
    PathsQuoteFree(m, s, i);
    OrderOnPath(m, s, o, t);
    OrderOnPath(m, s, p, t);
    OrdersDiffer(m, s, i, k, j);
  }

  lemma DistinctIsOrder(a: Rule, b: Rule, c: Rule)
    requires a != b && a != c && b != c
    ensures IsOrder([a, b, c])
  {
    assert multiset([a, b, c]) == multiset{a, b, c};
    OneOfThree(a, b, c, Internal);
    OneOfThree(a, b, c, Configs);
    OneOfThree(a, b, c, Api);
    forall k
      ensures multiset{a, b, c}[k] == multiset{Internal, Configs, Api}[k]
    {
      match k { case Internal => case Configs => case Api => }
    }
  }

  lemma OneOfThree(a: Rule, b: Rule, c: Rule, k: Rule)
    requires a != b && a != c && b != c
    ensures multiset{a, b, c}[k] == 1
  {
    assert k == a || k == b || k == c;
  }

  lemma OrdersDiffer(m: string, s: string, i: Rule, k: Rule, j: Rule)
    requires HasPrefix(s + "/", Dir(k)) && i != k && j != k
    ensures
      var t := OldPath(m, i);
      |OnPath(m, s, j, OnPath(m, s, k, OnPath(m, s, i, t)))| > |OnPath(m, s, j, OnPath(m, s, i, OnPath(m, s, k, t)))|
  {
    var n := NewPath(m, s, i);
    OnOld(m, s, i, i);
    OnOld(m, s, k, i);
    if HasPrefix(s + "/", Dir(j)) { OnlyOneFits(s, k, j); }
    assert n + "" == n;
    var a, y := OnNew(m, s, k, i, "");
    var b, z := OnNew(m, s, j, a, y);
    var c, x := OnNew(m, s, j, i, "");
  }

  /** A second run changes nothing, again exactly for the safe server names and whatever the order. */
  lemma IdempotentIffSafe(m: string, s: string, order: seq<Rule>)
    requires Names(m, s) && IsOrder(order)
    ensures SafeServer(s) <==>
            forall data :: AdaptIn(m, s, order, AdaptIn(m, s, order, data)) == AdaptIn(m, s, order, data)
  {
    if SafeServer(s) {
      forall data
        ensures AdaptIn(m, s, order, AdaptIn(m, s, order, data)) == AdaptIn(m, s, order, data)
      {
        OrderHasAll(order);
        AnyOrderIsSimultaneous(m, s, order, data);
        RewritesNothingMore(m, s, order, data);
      }
    } else {
      SafeIffNoRuleFits(s);
      var k :| HasPrefix(s + "/", Dir(k));
      var data := SecondRunGrows(m, s, order, k);
    }
  }

  lemma {:induction false} RewritesNothingMore(m: string, s: string, order: seq<Rule>, data: string)
    requires Names(m, s) && SafeServer(s)
    ensures AdaptIn(m, s, order, Simultaneous(m, s, ALL_RULES, data)) == Simultaneous(m, s, ALL_RULES, data)
    decreases |order|
  {
    if order != [] {
      var k := order[|order| - 1];
      RewritesNothingMore(m, s, order[..|order| - 1], data);
      OneMoreRule(m, s, ALL_RULES, k, data);
      assert k in ALL_RULES by { match k { case Internal => case Configs => case Api => } }
      assert ALL_RULES + {k} == ALL_RULES;
    }
  }

  lemma SecondRunGrows(m: string, s: string, order: seq<Rule>, k: Rule) returns (data: string)
    requires Names(m, s) && IsOrder(order) && HasPrefix(s + "/", Dir(k))
    ensures AdaptIn(m, s, order, AdaptIn(m, s, order, data)) != AdaptIn(m, s, order, data)
  {
    data := "\"" + OldPath(m, k);
    ThreeRules(order);
    OrderHasAll(order);
    assert k in order by { match k { case Internal => case Configs => case Api => } }
    PathsQuoteFree(m, s, k);
    FirstRun(m, s, order, k);
    OrderOnPath(m, s, order, OldPath(m, k));
    OrderOnPath(m, s, order, NewPath(m, s, k));
    SecondRun(m, s, order, k);
  }

  lemma FirstRun(m: string, s: string, order: seq<Rule>, k: Rule)
    requires HasPrefix(s + "/", Dir(k)) && |order| == 3 && k in order
    requires order[0] != order[1] && order[0] != order[2] && order[1] != order[2]
    ensures OnPath(m, s, order[2], OnPath(m, s, order[1], OnPath(m, s, order[0], OldPath(m, k)))) == NewPath(m, s, k)
  {
    forall j | j != k
      ensures OnPath(m, s, j, NewPath(m, s, k)) == NewPath(m, s, k) && OnPath(m, s, j, OldPath(m, k)) == OldPath(m, k)
    {
      if HasPrefix(s + "/", Dir(j)) { OnlyOneFits(s, k, j); }
      RewritesOnlyOwn(m, s, j, k);
      OnOld(m, s, j, k);
    }
    OnOld(m, s, k, k);
  }

  lemma SecondRun(m: string, s: string, order: seq<Rule>, k: Rule)
    requires HasPrefix(s + "/", Dir(k)) && |order| == 3 && k in order
    ensures
      var n := NewPath(m, s, k);
      |OnPath(m, s, order[2], OnPath(m, s, order[1], OnPath(m, s, order[0], n)))| > |n|
  {
    ThreeOnNew(m, s, order[0], order[1], order[2], k);
  }

  lemma ThreeOnNew(m: string, s: string, i: Rule, j: Rule, l: Rule, k: Rule)
    requires HasPrefix(s + "/", Dir(k)) && (k == i || k == j || k == l)
    ensures |OnPath(m, s, l, OnPath(m, s, j, OnPath(m, s, i, NewPath(m, s, k))))| > |NewPath(m, s, k)|
  {
    assert NewPath(m, s, k) + "" == NewPath(m, s, k);
    var a, y := OnNew(m, s, i, k, "");
    var b, z := OnNew(m, s, j, a, y);
    var c, x := OnNew(m, s, l, b, z);
  }

  lemma RewritesOnlyOwn(m: string, s: string, j: Rule, k: Rule)
    requires !HasPrefix(s + "/", Dir(j))
    ensures OnPath(m, s, j, NewPath(m, s, k)) == NewPath(m, s, k)
  {
    var n := NewPath(m, s, k);
    PrefixCancel("\"", n, OldPath(m, j));
    assert "\"" + n + "" == "\"" + n;
    AppliesToNew(m, s, j, k, "");
  }
}
