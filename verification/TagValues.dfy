/** What each tag of a template stands for, in any text and in each of its four spellings
    (plm_k8s_template.c:384-403, 606-661). */
module TagValues {
  import opened Strings
  import opened EnvBlock
  import opened Tags
  import opened Spans
  import opened Sections
  import opened Identity

  /** The four ways to write the tag of that name. */
  function Written(name: string): seq<string> {
    ["{{" + name + "}}", "{{ " + name + " }}", "{{." + name + "}}", "{{ ." + name + " }}"]
  }

  lemma WrittenTag(tag: Tag, w: string) returns (sp: Spelling)
    requires w in Written(Base(tag))
    ensures sp.tag == tag && sp.Text() == w
  {
    var k :| 0 <= k < 4 && Written(Base(tag))[k] == w;
    sp := Spelling(tag, FORMS[k]);
    assert FORMS[0] == Tight && FORMS[1] == Spaced && FORMS[2] == Dotted && FORMS[3] == SpacedDotted;
  }

  /** Wherever `w` stands in a span, `v` is rendered there, and the text on either side as it would be. */
  ghost predicate Renders(w: string, scope: Scope, v: string)
    requires scope.Valid()
  {
    forall a: string, b: string {:trigger SpanMeaning(a + (w + b), scope)} ::
      SpanMeaning(a + (w + b), scope) == SpanMeaning(a, scope) + (v + Eval(Tokens(b), None, scope))
  }

  lemma {:induction false} EvalCut(ts: seq<Token>, sp: Spelling, us: seq<Token>, col: Column, scope: Scope)
    requires scope.Valid() && sp.tag != Env
    ensures Eval(ts + ([Hole(sp)] + us), col, scope)
         == Eval(ts, col, scope) + (Value(sp.tag, scope, "") + Eval(us, None, scope))
  {
    hide Value;
    var all := ts + ([Hole(sp)] + us);
    if ts == [] {
      assert all == [Hole(sp)] + us && all[1..] == us;
      ValueAnywhere(sp.tag, scope, Blanks(col));
    } else {
      var next := match ts[0] case Lit(c) => Advance(col, c) case Hole(_) => None;
      var head := match ts[0] case Lit(c) => [c] case Hole(t) => Value(t.tag, scope, Blanks(col));
      assert all[1..] == ts[1..] + ([Hole(sp)] + us);
      EvalCut(ts[1..], sp, us, next, scope);
      Grouped(head, Eval(ts[1..], next, scope), Value(sp.tag, scope, "") + Eval(us, None, scope));
    }
  }

  lemma Grouped(a: string, b: string, c: string)
    ensures a + (b + c) == a + b + c
  {
  }

  lemma TagRenders(tag: Tag, w: string, scope: Scope)
    requires scope.Valid() && tag != Env && w in Written(Base(tag))
    ensures Renders(w, scope, Value(tag, scope, ""))
  {
    var sp := WrittenTag(tag, w);
    hide Value, Written, Base, Spelling.Text;
    forall a: string, b: string
      ensures SpanMeaning(a + (w + b), scope)
           == SpanMeaning(a, scope) + (Value(tag, scope, "") + Eval(Tokens(b), None, scope))
    {
      TokensCut(a, sp, b);
      EvalCut(Tokens(a), sp, Tokens(b), Some(""), scope);
    }
  }

  /** The scope outside the sections, or in the body for one node. */
  ghost predicate ScopeOf(scope: Scope, ctx: Tctx) {
    scope == GlobalScope(ctx) || exists i: nat :: i < |ctx.nodes| && scope == NodeScope(ctx, i)
  }

  // ------------------------------------------------------------------- numbers

  function ReadInt(s: string): Option<int> {
    if s != "" && s[0] == '-' then
      if forall i :: 1 <= i < |s| ==> '0' <= s[i] <= '9' then Some(0 - ReadNat(s[1..])) else None
    else if forall i :: 0 <= i < |s| ==> '0' <= s[i] <= '9' then Some(ReadNat(s)) else None
  }

  lemma DecReads(n: int)
    ensures ReadInt(Dec(n)) == Some(n)
  {
    if n < 0 {
      ReadDec(-n);
      assert Dec(n)[1..] == DecNat(-n);
    } else {
      ReadDec(n);
    }
  }

  /** Decimal digits, most significant first. */
  lemma DecDigits()
    ensures Dec(0) == "0" && Dec(1904) == "1904" && Dec(-27) == "-27"
  {
    LastDigit(190, 4);
    LastDigit(19, 0);
    LastDigit(1, 9);
    LastDigit(2, 7);
    OneDigit();
  }

  lemma OneDigit()
    ensures Dec(0) == "0" && DecNat(1) == "1" && DecNat(2) == "2"
  {
  }

  lemma LastDigit(n: nat, d: nat)
    requires 0 < n && d < 10
    ensures DecNat(10 * n + d) == DecNat(n) + ["0123456789"[d]]
  {
    assert "0123456789"[d] == Digit(d);
  }

  // ---------------------------------------------------------- the tags, one by one

  lemma NameRenders(w: string, scope: Scope, ctx: Tctx)
    requires w in Written("name") && ScopeOf(scope, ctx)
    ensures scope.Valid() && Renders(w, scope, ctx.name)
  {
    TagRenders(Tag.Name, w, scope);
  }

  /** The number of nodes. */
  lemma NumNodesRenders(w: string, scope: Scope, ctx: Tctx) returns (v: string)
    requires w in Written("numnodes") && ScopeOf(scope, ctx)
    ensures scope.Valid() && Renders(w, scope, v) && ReadInt(v) == Some(|ctx.nodes|)
  {
    TagRenders(NumNodes, w, scope);
    v := Dec(|ctx.nodes|);
    DecReads(|ctx.nodes|);
  }

  /** The first vpid of the launch. */
  lemma VpidStartRenders(w: string, scope: Scope, ctx: Tctx) returns (v: string)
    requires w in Written("vpid_start") && ScopeOf(scope, ctx)
    ensures scope.Valid() && Renders(w, scope, v) && ReadInt(v) == Some(ctx.vpidStart)
  {
    TagRenders(VpidStart, w, scope);
    v := Dec(ctx.vpidStart);
    DecReads(ctx.vpidStart);
  }

  /** The names of the nodes, between commas. */
  lemma NodesCsvRenders(w: string, scope: Scope, ctx: Tctx) returns (v: string)
    requires w in Written("nodes_csv") && ScopeOf(scope, ctx) && ctx.nodes != []
    requires forall k :: 0 <= k < |ctx.nodes| ==> ',' !in ctx.nodes[k].node
    ensures scope.Valid() && Renders(w, scope, v)
    ensures |Split(v, ',')| == |ctx.nodes| && forall k :: 0 <= k < |ctx.nodes| ==> Split(v, ',')[k] == ctx.nodes[k].node
  {
    TagRenders(NodesCsv, w, scope);
    v := Join(NodeNames(ctx), ",");
    SplitJoin(NodeNames(ctx), ',');
  }

  /** Each node with its rank. */
  lemma NodeVpidsRenders(w: string, scope: Scope, ctx: Tctx) returns (v: string)
    requires w in Written("node_vpids") && ScopeOf(scope, ctx) && ctx.nodes != []
    requires forall k :: 0 <= k < |ctx.nodes| ==> ',' !in ctx.nodes[k].node && ',' !in ctx.nodes[k].rank
    ensures scope.Valid() && Renders(w, scope, v)
    ensures |Split(v, ',')| == |ctx.nodes|
    ensures forall k :: 0 <= k < |ctx.nodes| ==> Split(v, ',')[k] == ctx.nodes[k].node + ":" + ctx.nodes[k].rank
  {
    TagRenders(NodeVpids, w, scope);
    v := Join(NodePairs(ctx), ",");
    SplitJoin(NodePairs(ctx), ',');
  }

  /** The env tag, however it is written; where it stands, an env block is laid out (Columns.EnvTagRendered). */
  lemma EnvWritten(w: string) returns (sp: Spelling)
    requires w in Written("env")
    ensures sp.tag == Tag.Env && sp.Text() == w
  {
    sp := WrittenTag(Tag.Env, w);
  }

  /** Inside a section: the node's own name, rank, slots and place among the nodes. */
  lemma NodeTagsRender(ctx: Tctx, i: nat) returns (slots: string, index: string)
    requires i < |ctx.nodes|
    ensures forall w :: w in Written("node") ==> Renders(w, NodeScope(ctx, i), ctx.nodes[i].node)
    ensures forall w :: w in Written("rank") ==> Renders(w, NodeScope(ctx, i), ctx.nodes[i].rank)
    ensures forall w :: w in Written("slots") ==> Renders(w, NodeScope(ctx, i), slots)
    ensures forall w :: w in Written("index") ==> Renders(w, NodeScope(ctx, i), index)
    ensures ReadInt(slots) == Some(ctx.nodes[i].slots) && ReadInt(index) == Some(i)
  {
    var scope := NodeScope(ctx, i);
    slots, index := Dec(ctx.nodes[i].slots), Dec(i);
    DecReads(ctx.nodes[i].slots);
    DecReads(i);
    NodeValues(ctx, i);
    hide Renders, Written, Value, NodeScope;
    BaseNames();
    forall w | w in Written("node")
      ensures Renders(w, scope, ctx.nodes[i].node)
    {
      TagRenders(Node, w, scope);
    }
    forall w | w in Written("rank")
      ensures Renders(w, scope, ctx.nodes[i].rank)
    {
      TagRenders(Rank, w, scope);
    }
    forall w | w in Written("slots")
      ensures Renders(w, scope, slots)
    {
      TagRenders(Slots, w, scope);
    }
    forall w | w in Written("index")
      ensures Renders(w, scope, index)
    {
      TagRenders(Index, w, scope);
    }
  }

  lemma BaseNames()
    ensures Base(Node) == "node" && Base(Rank) == "rank" && Base(Slots) == "slots" && Base(Index) == "index"
  {
  }

  lemma NodeValues(ctx: Tctx, i: nat)
    requires i < |ctx.nodes|
    ensures var scope := NodeScope(ctx, i);
            && Value(Node, scope, "") == ctx.nodes[i].node && Value(Rank, scope, "") == ctx.nodes[i].rank
            && Value(Slots, scope, "") == Dec(ctx.nodes[i].slots) && Value(Index, scope, "") == Dec(i)
  {
  }

  /** Outside the sections these four stand for nothing. */
  lemma NodeTagsVanish(w: string, ctx: Tctx)
    requires w in Written("node") + Written("rank") + Written("slots") + Written("index")
    ensures Renders(w, GlobalScope(ctx), "")
  {
    var scope := GlobalScope(ctx);
    BaseNames();
    hide Renders, Written, Base;
    if w in Written("node") {
      TagRenders(Node, w, scope);
    } else if w in Written("rank") {
      TagRenders(Rank, w, scope);
    } else if w in Written("slots") {
      TagRenders(Slots, w, scope);
    } else {
      TagRenders(Index, w, scope);
    }
  }
}
