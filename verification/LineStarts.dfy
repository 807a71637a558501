/** When the text that is rendered next starts a line of the manifest (plm_k8s_template.c:589-664, 767-822). */
module LineStarts {
  import opened Strings
  import opened EnvBlock
  import opened Tags
  import opened Spans
  import opened Sections

  // ------------------------------------------------------ from the template to its parse

  /** The text rendered for block `k` starts a line of the template; `bol`: the template does. */
  predicate Begins(bol: bool, bs: seq<Block>, k: nat)
    requires k < |bs|
  {
    if k == 0 then bol
    else match bs[k]
      case Section(opener, _, _) => EndsInNewline(opener)
      case Plain(_) => bs[k - 1].Section? && EndsInNewline(bs[k - 1].closer)
  }

  /** The template text that is rendered at all; `copies`: there are nodes to repeat bodies for. */
  function Shown(bs: seq<Block>, copies: bool): string {
    if bs == [] then "" else ShownOf(bs[0], copies) + Shown(bs[1..], copies)
  }

  function ShownOf(b: Block, copies: bool): string {
    match b
    case Plain(text) => text
    case Section(_, body, _) => if copies then body else ""
  }

  /** `s` is followed by the start of a line, if it follows one when `bol`. */
  predicate Fresh(bol: bool, s: string) {
    if s == "" then bol else EndsInNewline(s)
  }

  lemma FreshChain(bol: bool, first: bool, second: bool, text: string, body: string, s: string)
    requires (first ==> Fresh(bol, text)) && (second ==> Fresh(first, body)) && Fresh(second, s)
    ensures Fresh(bol, text + (body + s))
  {
  }

  lemma ShownCons(b: Block, rest: seq<Block>, copies: bool)
    ensures Shown([b] + rest, copies) == ShownOf(b, copies) + Shown(rest, copies)
  {
    assert ([b] + rest)[1..] == rest;
  }

  lemma TakenFresh(bol: bool, before: string, region: string, tag: string, after: string)
    requires Taken(bol, before, region, tag, after) && Braced(tag) && EndsInNewline(region)
    ensures Fresh(bol, before)
  {
  }

  lemma SectionFresh(bol: bool, before: string, b: Block, rest: string)
    requires ProperSection(bol, before, b, rest)
    ensures EndsInNewline(b.opener) ==> Fresh(bol, before)
    ensures EndsInNewline(b.closer) ==> Fresh(EndsInNewline(b.opener), b.body)
  {
    hide Taken, IsForm, NoTag, Fresh;
    var d: Delims :| && IsForm(d)
                     && Taken(bol, before, b.opener, d.open, b.body + (b.closer + rest))
                     && Taken(EndsInNewline(b.opener), b.body, b.closer, d.close, rest);
    FormsBraced(d);
    if EndsInNewline(b.opener) {
      TakenFresh(bol, before, b.opener, d.open, b.body + (b.closer + rest));
    }
    if EndsInNewline(b.closer) {
      TakenFresh(EndsInNewline(b.opener), b.body, b.closer, d.close, rest);
    }
  }

  /** Where a span starts a line of the template, what is rendered of the template before it ends one. */
  lemma {:induction false} ShownFresh(bol: bool, bs: seq<Block>, k: nat)
    requires Proper(bol, bs) && k < |bs| && Begins(bol, bs, k)
    ensures Fresh(bol, Shown(bs[..k], true))
    decreases k
  {
    hide Taken, NoTag, Unterminated, Fresh, EndsInNewline;
    if k == 0 {
      NothingShown(bol, bs);
      return;
    }
    var text, b, rest := bs[0].text, bs[1], bs[2..];
    SectionFresh(bol, text, b, Unparse(rest));
    if k == 1 {
      OneShown(bs);
    } else {
      var next := EndsInNewline(b.closer);
      assert rest[k - 2] == bs[k] && (k > 2 ==> rest[k - 3] == bs[k - 1]);
      ShownFresh(next, rest, k - 2);
      ShownPair(bs, k);
      FreshChain(bol, EndsInNewline(b.opener), next, text, b.body, Shown(rest[..k - 2], true));
    }
  }

  lemma NothingShown(bol: bool, bs: seq<Block>)
    requires bol
    ensures Fresh(bol, Shown(bs[..0], true))
  {
  }

  lemma OneShown(bs: seq<Block>)
    requires |bs| > 0 && bs[0].Plain?
    ensures Shown(bs[..1], true) == bs[0].text
  {
    assert bs[..1][1..] == [] && bs[0].text + "" == bs[0].text;
  }

  lemma ShownPair(bs: seq<Block>, k: nat)
    requires 2 <= k <= |bs| && bs[0].Plain? && bs[1].Section?
    ensures Shown(bs[..k], true) == bs[0].text + (bs[1].body + Shown(bs[2..][..k - 2], true))
  {
    ShownCons(bs[0], bs[1..k], true);
    ShownCons(bs[1], bs[2..k], true);
    assert bs[..k] == [bs[0]] + bs[1..k] && bs[1..k] == [bs[1]] + bs[2..k] && bs[2..k] == bs[2..][..k - 2];
  }

  // ------------------------------------------------------ from the parse to the manifest

  lemma {:induction false} EvalEnds(ts: seq<Token>, col: Column, scope: Scope)
    requires scope.Valid() && |ts| > 0 && ts[|ts| - 1] == Lit('\n')
    ensures EndsInNewline(Eval(ts, col, scope))
  {
    hide Spelling.Text, Value;
    var next := match ts[0] case Lit(c) => Advance(col, c) case Hole(_) => None;
    if |ts| > 1 {
      EvalEnds(ts[1..], next, scope);
    } else {
      assert ts[1..] == [] && Eval([], next, scope) == "";
    }
  }

  /** A text that ends its line renders to one that does. */
  lemma SpanEnds(s: string, scope: Scope)
    requires scope.Valid() && EndsInNewline(s)
    ensures EndsInNewline(SpanMeaning(s, scope))
  {
    LastToken(s);
    EvalEnds(Tokens(s), Some(""), scope);
  }

  lemma {:induction false} CopiesEnd(body: string, ctx: Tctx, n: nat)
    requires n <= |ctx.nodes|
    ensures body == "" ==> EachNode(body, ctx, n) == ""
    ensures EndsInNewline(body) && n > 0 ==> EndsInNewline(EachNode(body, ctx, n))
  {
    hide SpanMeaning, NodeScope, EndsInNewline;
    if n > 0 {
      CopiesEnd(body, ctx, n - 1);
      if body == "" {
        NoText(NodeScope(ctx, n - 1));
      } else if EndsInNewline(body) {
        SpanEnds(body, NodeScope(ctx, n - 1));
        EndsBehind(EachNode(body, ctx, n - 1), SpanMeaning(body, NodeScope(ctx, n - 1)));
      }
    }
  }

  lemma NoText(scope: Scope)
    requires scope.Valid()
    ensures SpanMeaning("", scope) == ""
  {
  }

  lemma EndsBehind(a: string, b: string)
    ensures EndsInNewline(b) ==> EndsInNewline(a + b)
    ensures b == "" ==> a + b == a
  {
  }

  /** What is rendered for a block ends a line if the block's text does, and is nothing if that is nothing. */
  lemma BlockEnds(b: Block, ctx: Tctx)
    ensures var shown := ShownOf(b, |ctx.nodes| > 0);
            && (shown == "" ==> BlockMeaning(b, ctx) == "")
            && (EndsInNewline(shown) ==> EndsInNewline(BlockMeaning(b, ctx)))
  {
    match b
    case Plain(text) =>
      NoText(GlobalScope(ctx));
      if EndsInNewline(text) {
        SpanEnds(text, GlobalScope(ctx));
      }
      hide SpanMeaning, GlobalScope;
    case Section(_, body, _) =>
      CopiesEnd(body, ctx, |ctx.nodes|);
      assert |ctx.nodes| == 0 ==> EachNode(body, ctx, |ctx.nodes|) == "";
      hide EachNode;
  }

  /** If the template text that is rendered ends a line, so does the manifest. */
  lemma {:induction false} ShownEnds(bs: seq<Block>, ctx: Tctx)
    ensures var shown := Shown(bs, |ctx.nodes| > 0);
            && (shown == "" ==> Meaning(bs, ctx) == "")
            && (EndsInNewline(shown) ==> EndsInNewline(Meaning(bs, ctx)))
  {
    hide BlockMeaning, ShownOf, EndsInNewline;
    if bs == [] {
      NothingEnds();
    } else {
      var copies := |ctx.nodes| > 0;
      ShownEnds(bs[1..], ctx);
      BlockEnds(bs[0], ctx);
      BothEnd(ShownOf(bs[0], copies), Shown(bs[1..], copies), BlockMeaning(bs[0], ctx), Meaning(bs[1..], ctx));
    }
  }

  lemma NothingEnds()
    ensures !EndsInNewline("")
  {
  }

  lemma BothEnd(a: string, b: string, x: string, y: string)
    requires (a == "" ==> x == "") && (b == "" ==> y == "")
    requires (EndsInNewline(a) ==> EndsInNewline(x)) && (EndsInNewline(b) ==> EndsInNewline(y))
    ensures a + b == "" ==> x + y == ""
    ensures EndsInNewline(a + b) ==> EndsInNewline(x + y)
  {
    if EndsInNewline(a + b) {
      if b == "" {
        assert a + b == a && x + y == x;
      } else {
        assert (a + b)[|a + b| - 1] == b[|b| - 1];
      }
    }
  }

  // ---------------------------------------------------------- what never ends a line

  /** Neither empty nor the end of a line. */
  predicate Solid(s: string) {
    s != "" && !EndsInNewline(s)
  }

  /** Names and ranks are there and end no line. */
  ghost predicate SolidContext(ctx: Tctx) {
    Solid(ctx.name) && forall k :: 0 <= k < |ctx.nodes| ==> Solid(ctx.nodes[k].node) && Solid(ctx.nodes[k].rank)
  }

  lemma {:induction false} JoinSolid(parts: seq<string>, sep: string)
    requires parts != [] && Solid(parts[|parts| - 1])
    ensures Solid(Join(parts, sep))
  {
    if |parts| > 1 {
      JoinSolid(parts[1..], sep);
      SolidBehind(parts[0] + sep, Join(parts[1..], sep));
    }
  }

  lemma SolidBehind(a: string, b: string)
    requires Solid(b)
    ensures Solid(a + b)
  {
  }

  lemma {:induction false} LastEntryLine(envars: seq<string>)
    requires EntryLines(envars) != []
    ensures Solid(EntryLines(envars)[|EntryLines(envars)| - 1])
  {
    hide Quote, Escape, Find;
    var n := |envars| - 1;
    var last := LinesOf(envars[n]);
    if last == [] {
      assert EntryLines(envars) == EntryLines(envars[..n]);
      LastEntryLine(envars[..n]);
    } else {
      var eq := Find(envars[n], 0, "=").value;
      QuoteSolid(envars[n][eq + 1..]);
      assert EntryLines(envars)[|EntryLines(envars)| - 1] == last[1];
    }
  }

  lemma QuoteSolid(v: string)
    ensures Solid("  value: " + Quote(v))
  {
    hide Escape;
  }

  lemma EnvSolid(envars: seq<string>)
    ensures Solid(EnvText(envars))
  {
    if EntryLines(envars) != [] {
      LastEntryLine(envars);
      hide EntryLines, Join;
      JoinSolid(EntryLines(envars), "\n");
    }
  }

  lemma ReindentSolid(block: string, indent: string)
    requires Solid(block)
    ensures Solid(Reindent(block, indent))
  {
    JoinLines(block);
    var lines := Lines(block);
    var n := |lines| - 1;
    if lines[n] == "" {
      LastEmpty(lines);
    } else {
      assert Solid(lines[n]) by {
        assert lines[n] in lines;
      }
      JoinSolid(lines, "\n" + indent);
    }
  }

  lemma {:induction false} LastEmpty(lines: seq<string>)
    requires lines != [] && lines[|lines| - 1] == ""
    ensures !Solid(Join(lines, "\n"))
  {
    if |lines| > 1 {
      LastEmpty(lines[1..]);
      assert Join(lines, "\n") == lines[0] + "\n" + Join(lines[1..], "\n");
    }
  }

  lemma DecSolid(n: int)
    ensures Solid(Dec(n))
  {
    if n < 0 {
      assert Dec(n)[|Dec(n)| - 1] == DecNat(-n)[|DecNat(-n)| - 1];
    }
  }

  /** Every tag stands for something solid, for every node. */
  lemma ValueSolid(tag: Tag, ctx: Tctx, i: nat, indent: string)
    requires i < |ctx.nodes| && SolidContext(ctx)
    ensures Solid(Value(tag, NodeScope(ctx, i), indent))
  {
    hide EnvText, Reindent, Join, Dec;
    match tag
    case Env =>
      EnvSolid(ctx.nodes[i].envars);
      ReindentSolid(EnvText(ctx.nodes[i].envars), indent);
    case NodesCsv => JoinSolid(NodeNames(ctx), ",");
    case NodeVpids =>
      var n := |ctx.nodes| - 1;
      SolidBehind(ctx.nodes[n].node + ":", ctx.nodes[n].rank);
      JoinSolid(NodePairs(ctx), ",");
    case NumNodes => DecSolid(|ctx.nodes|);
    case VpidStart => DecSolid(ctx.vpidStart);
    case Slots => DecSolid(ctx.nodes[i].slots);
    case Index => DecSolid(i);
    case _ =>
  }

  lemma {:induction false} EvalSolid(ts: seq<Token>, col: Column, ctx: Tctx, i: nat)
    requires i < |ctx.nodes| && SolidContext(ctx) && ts != [] && ts[|ts| - 1] != Lit('\n')
    ensures Solid(Eval(ts, col, NodeScope(ctx, i)))
  {
    hide Value, NodeScope, SolidContext, Advance;
    var scope := NodeScope(ctx, i);
    var next := match ts[0] case Lit(c) => Advance(col, c) case Hole(_) => None;
    var head := match ts[0] case Lit(c) => [c] case Hole(sp) => Value(sp.tag, scope, Blanks(col));
    assert Eval(ts, col, scope) == head + Eval(ts[1..], next, scope);
    if |ts| > 1 {
      EvalSolid(ts[1..], next, ctx, i);
      SolidBehind(head, Eval(ts[1..], next, scope));
    } else {
      if ts[0].Hole? {
        ValueSolid(ts[0].spelling.tag, ctx, i, Blanks(col));
      }
      assert ts[1..] == [] && head + "" == head;
    }
  }

  lemma {:induction false} LastSource(ts: seq<Token>)
    requires ts != [] && ts[|ts| - 1] == Lit('\n')
    ensures EndsInNewline(Source(ts))
  {
    hide Spelling.Text;
    if |ts| > 1 {
      LastSource(ts[1..]);
    }
  }

  /** A body that does not end a line is rendered to something that does not. */
  lemma BodySolid(body: string, ctx: Tctx, i: nat)
    requires i < |ctx.nodes| && SolidContext(ctx) && Solid(body)
    ensures Solid(SpanMeaning(body, NodeScope(ctx, i)))
  {
    SourceTokens(body);
    hide Tokens, NodeScope, SolidContext;
    var ts := Tokens(body);
    if ts[|ts| - 1] == Lit('\n') {
      LastSource(ts);
    } else {
      EvalSolid(ts, Some(""), ctx, i);
    }
  }
}
