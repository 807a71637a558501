/** What "passed through verbatim" amounts to for the text behind the last section
    (plm_k8s_template.c:773-784). */
module Verbatim {
  import opened Strings
  import opened EnvBlock
  import opened Tags
  import opened Spans
  import opened Sections

  /** How many opening braces a text holds. */
  function Braces(s: string): nat {
    if s == "" then 0 else (if s[0] == '{' then 1 else 0) + Braces(s[1..])
  }

  function Holes(ts: seq<Token>): nat {
    if ts == [] then 0 else (if ts[0].Hole? then 1 else 0) + Holes(ts[1..])
  }

  lemma {:induction false} BracesConcat(a: string, b: string)
    ensures Braces(a + b) == Braces(a) + Braces(b)
  {
    if a == "" {
      assert a + b == b;
    } else {
      assert (a + b)[1..] == a[1..] + b;
      BracesConcat(a[1..], b);
    }
  }

  lemma {:induction false} NoBraces(s: string)
    ensures Braces(s) == 0 <==> '{' !in s
  {
    if s != "" {
      NoBraces(s[1..]);
      assert s == [s[0]] + s[1..];
    }
  }

  lemma SpellingBraces(sp: Spelling)
    ensures Braces(sp.Text()) == 2
  {
    SpellingShape(sp);
    var t := sp.Text();
    hide Spelling.Text;
    assert '{' !in t[2..];
    NoBraces(t[2..]);
    assert t[1..][1..] == t[2..];
  }

  /** No value that a tag can stand for in this scope holds an opening brace. */
  ghost predicate PlainValues(scope: Scope) {
    && '{' !in scope.ctx.name && '{' !in scope.nodesCsv && '{' !in scope.nodeVpids
    && '{' !in scope.commonEnv && '{' !in scope.nodeEnv
    && forall n :: n in scope.ctx.nodes ==> '{' !in n.node && '{' !in n.rank
  }

  lemma {:induction false} JoinClean(parts: seq<string>, sep: string)
    requires '{' !in sep && forall p :: p in parts ==> '{' !in p
    ensures '{' !in Join(parts, sep)
  {
    if |parts| > 1 {
      JoinClean(parts[1..], sep);
    }
  }

  lemma {:induction false} LinesClean(s: string)
    requires '{' !in s
    ensures forall l :: l in Lines(s) ==> '{' !in l
  {
    if s != "" {
      var nl := Find(s, 0, "\n");
      if nl.Some? {
        LinesClean(s[nl.value + 1..]);
      }
    }
  }

  lemma DecClean(n: int)
    ensures '{' !in Dec(n)
  {
    if n < 0 {
      assert '{' !in DecNat(-n);
    }
  }

  lemma ValueClean(tag: Tag, scope: Scope, indent: string)
    requires scope.Valid() && PlainValues(scope) && '{' !in indent
    ensures '{' !in Value(tag, scope, indent)
  {
    match tag
    case NumNodes => DecClean(|scope.ctx.nodes|);
    case VpidStart => DecClean(scope.ctx.vpidStart);
    case Slots =>
      if scope.index.Some? {
        DecClean(scope.ctx.nodes[scope.index.value].slots);
      }
    case Index =>
      if scope.index.Some? {
        DecClean(scope.index.value);
      }
    case Env =>
      var block := if scope.index.Some? then scope.nodeEnv else scope.commonEnv;
      LinesClean(block);
      JoinClean(Lines(block), "\n" + indent);
    case Node =>
      assert scope.index.Some? ==> scope.ctx.nodes[scope.index.value] in scope.ctx.nodes;
    case Rank =>
      assert scope.index.Some? ==> scope.ctx.nodes[scope.index.value] in scope.ctx.nodes;
    case _ =>
  }

  /** Rendering takes two braces away with every tag. */
  lemma {:induction false} EvalBraces(ts: seq<Token>, col: Column, scope: Scope)
    requires scope.Valid() && PlainValues(scope) && '{' !in Blanks(col)
    ensures Braces(Eval(ts, col, scope)) + 2 * Holes(ts) == Braces(Source(ts))
  {
    hide Value, Spelling.Text, PlainValues, Scope.Valid;
    if ts != [] {
      var rest := ts[1..];
      match ts[0]
      case Lit(c) =>
        EvalBraces(rest, Advance(col, c), scope);
        BracesConcat([c], Eval(rest, Advance(col, c), scope));
        BracesConcat([c], Source(rest));
      case Hole(sp) =>
        var v := Value(sp.tag, scope, Blanks(col));
        EvalBraces(rest, None, scope);
        ValueClean(sp.tag, scope, Blanks(col));
        NoBraces(v);
        BracesConcat(v, Eval(rest, None, scope));
        SpellingBraces(sp);
        BracesConcat(sp.Text(), Source(rest));
    }
  }

  lemma {:induction false} HoleCounts(ts: seq<Token>, k: nat)
    requires k < |ts| && ts[k].Hole?
    ensures Holes(ts) > 0
  {
    if k > 0 {
      HoleCounts(ts[1..], k - 1);
    }
  }

  ghost predicate TagFree(s: string) {
    forall i :: 0 <= i <= |s| ==> !TagAt(s, i)
  }

  /** A span without a tag renders to itself; where the values hold no braces, no other span does. */
  lemma SpanVerbatim(s: string, scope: Scope)
    requires scope.Valid()
    ensures TagFree(s) ==> SpanMeaning(s, scope) == s
    ensures PlainValues(scope) ==> (SpanMeaning(s, scope) == s <==> TagFree(s))
  {
    hide Eval, Tokens, Spelling.Text, PlainValues, Scope.Valid, Holes;
    if TagFree(s) {
      SpanIdentity(s, Some(""), scope);
    } else if PlainValues(scope) {
      var i :| 0 <= i <= |s| && TagAt(s, i);
      var sp: Spelling :| At(s, i, sp.Text());
      EveryOccurrenceRead(s, i, sp);
      HoleCounts(Tokens(s), |Tokens(s[..i])|);
      SourceTokens(s);
      EvalBraces(Tokens(s), Some(""), scope);
    }
  }

  /** No name, rank or setting of the launch holds an opening brace. */
  ghost predicate PlainContext(ctx: Tctx) {
    && '{' !in ctx.name
    && (forall n :: n in ctx.nodes ==> '{' !in n.node && '{' !in n.rank)
    && (forall e :: e in ctx.commonEnvars ==> '{' !in e)
  }

  lemma {:induction false} EscapeClean(v: string)
    requires '{' !in v
    ensures '{' !in Escape(v)
  {
    if v != "" {
      EscapeClean(v[1..]);
      assert v[0] in v;
    }
  }

  lemma EntryClean(e: string)
    requires '{' !in e
    ensures forall l :: l in LinesOf(e) ==> '{' !in l
  {
    var eq := Find(e, 0, "=");
    if eq.Some? {
      EscapeClean(e[eq.value + 1..]);
      hide Escape;
      assert '{' !in "- name: " && '{' !in "  value: ";
    }
  }

  lemma {:induction false} EnvClean(envars: seq<string>)
    requires forall e :: e in envars ==> '{' !in e
    ensures forall l :: l in EntryLines(envars) ==> '{' !in l
  {
    hide LinesOf;
    if envars != [] {
      EnvClean(envars[..|envars| - 1]);
      EntryClean(envars[|envars| - 1]);
    }
  }

  lemma GlobalPlain(ctx: Tctx)
    requires PlainContext(ctx)
    ensures PlainValues(GlobalScope(ctx))
  {
    EnvClean(ctx.commonEnvars);
    hide EntryLines, Join;
    if EntryLines(ctx.commonEnvars) != [] {
      JoinClean(EntryLines(ctx.commonEnvars), "\n");
    }
    NodesClean(ctx);
    JoinClean(NodeNames(ctx), ",");
    JoinClean(NodePairs(ctx), ",");
  }

  lemma NodesClean(ctx: Tctx)
    requires PlainContext(ctx)
    ensures forall p :: p in NodeNames(ctx) || p in NodePairs(ctx) ==> '{' !in p
  {
    forall p | p in NodeNames(ctx) || p in NodePairs(ctx)
      ensures '{' !in p
    {
      var k :| 0 <= k < |ctx.nodes| && (p == NodeNames(ctx)[k] || p == NodePairs(ctx)[k]);
      assert ctx.nodes[k] in ctx.nodes;
    }
  }

  /** The text behind the last section comes out as it is exactly if it holds no tag, whether or not an opening
      tag stands in it; for the one half no name, rank or setting may hold a brace. */
  lemma LastVerbatim(text: string, ctx: Tctx)
    ensures var bs, last := Parse(true, text), LastText(true, text);
            && bs[|bs| - 1] == Plain(last)
            && (TagFree(last) ==> BlockMeaning(Plain(last), ctx) == last)
            && (PlainContext(ctx) ==> (BlockMeaning(Plain(last), ctx) == last <==> TagFree(last)))
  {
    LastBlock(true, text);
    hide Parse, LastText, BlockMeaning, PlainContext, TagFree, Unterminated;
    PlainVerbatim(Plain(LastText(true, text)), ctx);
  }

  lemma PlainVerbatim(b: Block, ctx: Tctx)
    requires b.Plain?
    ensures TagFree(b.text) ==> BlockMeaning(b, ctx) == b.text
    ensures PlainContext(ctx) ==> (BlockMeaning(b, ctx) == b.text <==> TagFree(b.text))
  {
    if PlainContext(ctx) {
      GlobalPlain(ctx);
    }
    SpanVerbatim(b.text, GlobalScope(ctx));
    hide SpanMeaning, GlobalScope, PlainContext, PlainValues, TagFree;
  }

  /** A template whose first opening tag, if it has one, is never closed comes out as it is exactly if it holds no
      tag: what stands behind that opening tag is rendered like any other text. */
  lemma UnterminatedVerbatim(text: string, ctx: Tctx)
    requires FirstSection(true, text).None?
    ensures TagFree(text) ==> Meaning(Parse(true, text), ctx) == text
    ensures PlainContext(ctx) ==> (Meaning(Parse(true, text), ctx) == text <==> TagFree(text))
  {
    PlainVerbatim(Plain(text), ctx);
    hide SpanMeaning, GlobalScope, PlainContext, TagFree;
    assert Parse(true, text)[1..] == [];
    assert SpanMeaning(text, GlobalScope(ctx)) + "" == SpanMeaning(text, GlobalScope(ctx));
  }
}
