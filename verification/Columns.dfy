/** The column of an env tag, from its line in the template to its lines in the manifest
    (plm_k8s_template.c:445-483, 657-699, 767-822). */
module Columns {
  import opened Strings
  import opened EnvBlock
  import opened Tags
  import opened Spans
  import opened Sections
  import opened LineStarts
  import opened Standalone

  // -------------------------------------------------- tags and section tags keep apart

  /** What all section delimiters look like. */
  ghost predicate DelimText(w: string) {
    && |w| > 2 && w[0] == '{' && w[|w| - 1] == '}'
    && (w[1] == '%' || (w[1] == '{' && (w[2] == '#' || w[2] == '/')))
    && forall k :: 2 <= k < |w| ==> w[k] != '{'
  }

  lemma OpensLook()
    ensures DelimText(MUSTACHE.open) && DelimText(JINJA.open)
  {
  }

  lemma ClosesLook()
    ensures DelimText(MUSTACHE.close) && DelimText(JINJA.close)
  {
  }

  lemma DelimsLook(d: Delims)
    requires IsForm(d)
    ensures DelimText(d.open) && DelimText(d.close)
  {
    OpensLook();
    ClosesLook();
  }

  lemma ThirdChar(sp: Spelling)
    ensures |sp.Text()| > 4 && sp.Text()[2] !in "#/%{"
  {
    BaseChars(sp.tag);
    SpellingShape(sp);
    var c := sp.Text()[2];
    assert c == ' ' || c == '.' || IsNameChar(c);
  }

  /** An occurrence of a tag and one of a delimiter have no character in common. */
  lemma Apart(s: string, p: nat, sp: Spelling, q: nat, w: string)
    requires At(s, p, sp.Text()) && At(s, q, w) && DelimText(w)
    ensures p + |sp.Text()| <= q || q + |w| <= p
  {
    var t := sp.Text();
    SpellingShape(sp);
    ThirdChar(sp);
    hide Spelling.Text;
    CharAt(s, p, t);
    CharAt(s, q, w);
    forall i | p + 2 <= i < p + |t|
      ensures s[i] != '{'
    {
      assert s[p + (i - p)] == t[i - p];
    }
    forall i | q + 2 <= i < q + |w|
      ensures s[i] != '{'
    {
      assert s[q + (i - q)] == w[i - q];
    }
    assert s[p + 0] == '{' && s[p + 1] == '{' && s[p + 2] == t[2];
    assert s[q + 0] == '{' && s[q + 1] == w[1] && s[q + 2] == w[2];
  }

  lemma WidenedChars(text: string, o: nat, e: nat)
    requires o <= e <= |text|
    ensures var (o1, e1) := WidenedAt(text, o, e);
            && (forall i :: o1 <= i < o ==> IsBlank(text[i]))
            && (forall i :: e <= i < e1 ==> IsBlank(text[i]) || text[i] == '\n')
  {
    var (o1, e1) := WidenedAt(text, o, e);
    forall i | e <= i < e1
      ensures IsBlank(text[i]) || text[i] == '\n'
    {
      SwallowedChar(text[e..], i - e);
    }
  }

  /** So no tag reaches into what a section tag takes with it. */
  lemma Beside(text: string, p: nat, sp: Spelling, o: nat, w: string)
    requires At(text, p, sp.Text()) && At(text, o, w) && DelimText(w)
    ensures var (o1, e1) := WidenedAt(text, o, o + |w|); p + |sp.Text()| <= o1 || e1 <= p
  {
    hide Spelling.Text, WidenedAt;
    Apart(text, p, sp, o, w);
    WidenedChars(text, o, o + |w|);
    TagEnds(text, p, sp);
  }

  lemma TagEnds(text: string, p: nat, sp: Spelling)
    requires At(text, p, sp.Text())
    ensures var n := |sp.Text()|; n > 0 && p + n <= |text| && text[p] == '{' && text[p + n - 1] == '}'
  {
    SpellingShape(sp);
    var n := |sp.Text()|;
    hide Spelling.Text;
    CharAt(text, p, sp.Text());
    assert text[p + 0] == '{' && text[p + (n - 1)] == '}';
  }

  // --------------------------------------------------------- the span a tag ends up in

  /** The template text that is rendered for a block. */
  function SpanText(b: Block): string {
    match b
    case Plain(text) => text
    case Section(_, body, _) => body
  }

  /** The blanks before `p` on its line. */
  function Margin(text: string, p: nat): string
    requires p <= |text|
  {
    text[LineStart(text, p)..p]
  }

  /** A tag with what stands around it. */
  function Around(before: string, margin: string, tag: string, after: string): string {
    before + (margin + (tag + after))
  }

  lemma SpanCut(text: string, s: nat, p: nat, sp: Spelling, e: nat)
    requires s <= p && p + |sp.Text()| <= e <= |text| && At(text, p, sp.Text())
    requires Barrier(text, s) && AllBlank(Margin(text, p))
    ensures var l := LineStart(text, p);
            && s <= l && StartsLines(text[s..l])
            && text[s..e] == Around(text[s..l], Margin(text, p), sp.Text(), text[p + |sp.Text()|..e])
  {
    hide Spelling.Text, Around;
    NotAtEnd(text, p, sp);
    ColumnKept(text, s, p);
    FreshLine(text, s, LineStart(text, p));
    FourSlices(text, s, LineStart(text, p), p, p + |sp.Text()|, e);
  }

  lemma NotAtEnd(text: string, p: nat, sp: Spelling)
    requires At(text, p, sp.Text())
    ensures p < |text|
  {
    SpellingShape(sp);
  }

  lemma FreshLine(text: string, s: nat, l: nat)
    requires s <= l <= |text| && StartsLine(text, l)
    ensures StartsLines(text[s..l])
  {
    assert l > s ==> text[s..l][l - s - 1] == text[l - 1];
  }

  lemma FourSlices(text: string, a: nat, b: nat, c: nat, d: nat, e: nat)
    requires a <= b <= c <= d <= e <= |text|
    ensures text[a..e] == Around(text[a..b], text[b..c], text[c..d], text[d..e])
  {
  }

  /** If the first opening tag ahead is not closed by its own form, the rest is one block. */
  lemma ParseLast(text: string, c: nat)
    requires c <= |text| && Barrier(text, c)
    requires var o := FirstOpening(text, c);
             o.None? || (Braced(o.value.form.open) && Braced(o.value.form.close)
                         && Find(text, o.value.pos + |o.value.form.open|, o.value.form.close).None?)
    ensures Parse(StartsLine(text, c), text[c..]) == [Plain(text[c..])]
  {
    hide WidenedAt, Find, StartsLine, At, EndsInNewline, CutTag, Barrier;
    OpeningShift(text, c);
    var o := FirstOpening(text, c);
    if o.Some? {
      var Opening(open, d) := o.value;
      AtEnd(text, open, d.open);
      CutFrom(text, c, open, d.open);
      CloseShift(text, open, d.open, d.close);
    }
    assert FirstSection(StartsLine(text, c), text[c..]) == None;
  }

  /** The span of block `k` is `x1`, which ends a line if it is not empty, and behind it the tag at its margin; where
      it is empty, the span starts a line of the template. */
  ghost predicate Found(bol: bool, bs: seq<Block>, k: nat, x1: string, margin: string, tag: string, x2: string) {
    && k < |bs| && StartsLines(x1) && (x1 == "" ==> Begins(bol, bs, k))
    && SpanText(bs[k]) == Around(x1, margin, tag, x2)
  }

  lemma FoundFirst(bol: bool, bs: seq<Block>, x1: string, margin: string, tag: string, x2: string)
    requires bs != [] && SpanText(bs[0]) == Around(x1, margin, tag, x2) && StartsLines(x1) && (x1 == "" ==> bol)
    ensures Found(bol, bs, 0, x1, margin, tag, x2)
  {
  }

  lemma FoundBody(bol: bool, a: Block, b: Block, rest: seq<Block>, x1: string, margin: string, tag: string, x2: string)
    requires b.Section? && b.body == Around(x1, margin, tag, x2)
    requires StartsLines(x1) && (x1 == "" ==> EndsInNewline(b.opener))
    ensures Found(bol, [a, b] + rest, 1, x1, margin, tag, x2)
  {
  }

  lemma FoundLater(bol: bool, a: Block, b: Block, rest: seq<Block>, next: bool, k: nat, x1: string, margin: string,
                   tag: string, x2: string)
    requires Found(next, rest, k, x1, margin, tag, x2)
    requires b.Section? && FirstPlain(rest) && (next ==> EndsInNewline(b.closer))
    ensures Found(bol, [a, b] + rest, k + 2, x1, margin, tag, x2)
  {
    var bs := [a, b] + rest;
    assert bs[k + 2] == rest[k] && (k > 0 ==> bs[k + 1] == rest[k - 1]);
    hide Around;
  }

  lemma EmptyStart(text: string, c: nat, l: nat)
    requires c <= l <= |text| && StartsLine(text, l)
    ensures text[c..l] == "" ==> StartsLine(text, c)
  {
  }

  lemma RegionEnds(text: string, o: nat, e: nat)
    requires o < e <= |text|
    ensures StartsLine(text, e) ==> EndsInNewline(text[o..e])
  {
  }

  /** Every tag with only blanks before it on its line of the template is inside one span, whole, with all of
      its line before it. */
  lemma {:induction false} TagInBlock(text: string, c: nat, p: nat, sp: Spelling)
    returns (k: nat, x1: string, x2: string)
    requires c <= p && At(text, p, sp.Text()) && Barrier(text, c) && AllBlank(Margin(text, p))
    ensures Found(StartsLine(text, c), Parse(StartsLine(text, c), text[c..]), k, x1, Margin(text, p), sp.Text(), x2)
    decreases |text| - c
  {
    hide Spelling.Text, Parse, WidenedAt, FirstOpening, Find, Around, Margin, StartsLine, CloseOf, Found, Barrier,
      StartsLines, EndsInNewline, At, FirstPlain;
    TagBounds(text, p, sp);
    OpeningInText(text, c);
    var n, l, margin, bol := |sp.Text()|, LineStart(text, p), Margin(text, p), StartsLine(text, c);
    var found := FirstOpening(text, c);
    var end := if found.None? then None else CloseOf(text, found.value);
    if end.None? {
      LastAhead(text, c);
      SpanCut(text, c, p, sp, |text|);
      EmptyStart(text, c, l);
      x1, x2 := text[c..l], text[p + n..|text|];
      FoundFirst(bol, [Plain(text[c..|text|])], x1, margin, sp.Text(), x2);
      return 0, x1, x2;
    }
    var Opening(open, d) := found.value;
    var (o1, e1) := WidenedAt(text, open, open + |d.open|);
    var (o2, e2) := WidenedAt(text, end.value, end.value + |d.close|);
    SectionAhead(text, c, open, d, end.value, p, sp);
    var rest := Parse(StartsLine(text, e2), text[e2..]);
    var a, b := Plain(text[c..o1]), Section(text[o1..e1], text[e1..o2], text[o2..e2]);
    if p + n <= o1 {
      SpanCut(text, c, p, sp, o1);
      EmptyStart(text, c, l);
      x1, x2 := text[c..l], text[p + n..o1];
      FoundFirst(bol, [a, b] + rest, x1, margin, sp.Text(), x2);
      return 0, x1, x2;
    } else if p + n <= o2 {
      SpanCut(text, e1, p, sp, o2);
      EmptyStart(text, e1, l);
      RegionEnds(text, o1, e1);
      x1, x2 := text[e1..l], text[p + n..o2];
      FoundBody(bol, a, b, rest, x1, margin, sp.Text(), x2);
      return 1, x1, x2;
    }
    RegionEnds(text, o2, e2);
    PlainFirst(text, e2);
    k, x1, x2 := TagInBlock(text, e2, p, sp);
    FoundLater(bol, a, b, rest, StartsLine(text, e2), k, x1, margin, sp.Text(), x2);
    k := k + 2;
  }

  lemma OpeningInText(text: string, c: nat)
    requires c <= |text|
    ensures var o := FirstOpening(text, c); o.Some? ==> o.value.pos + |o.value.form.open| <= |text|
  {
  }

  lemma TagBounds(text: string, p: nat, sp: Spelling)
    requires At(text, p, sp.Text())
    ensures p + |sp.Text()| <= |text| && StartsLine(text, LineStart(text, p))
  {
  }

  /** Where the section that opens there is closed. */
  function CloseOf(text: string, o: Opening): (r: Option<nat>)
    requires o.pos + |o.form.open| <= |text|
    ensures r.Some? ==> r.value + |o.form.close| <= |text|
  {
    Find(text, o.pos + |o.form.open|, o.form.close)
  }

  lemma LastAhead(text: string, c: nat)
    requires c <= |text| && Barrier(text, c)
    requires FirstOpening(text, c).None? || CloseOf(text, FirstOpening(text, c).value).None?
    ensures Parse(StartsLine(text, c), text[c..]) == [Plain(text[c..|text|])]
  {
    if FirstOpening(text, c).Some? {
      FormsBraced(FirstOpening(text, c).value.form);
    }
    ParseLast(text, c);
    assert text[c..] == text[c..|text|];
  }

  /** What the parse and the widened indices of the next section are, and that the tag is beside both tags. */
  lemma SectionAhead(text: string, c: nat, open: nat, d: Delims, close: nat, p: nat, sp: Spelling)
    requires c <= |text| && Barrier(text, c) && At(text, p, sp.Text())
    requires FirstOpening(text, c) == Some(Opening(open, d)) && open + |d.open| <= |text|
    requires CloseOf(text, Opening(open, d)) == Some(close)
    ensures var (o1, e1) := WidenedAt(text, open, open + |d.open|);
            var (o2, e2) := WidenedAt(text, close, close + |d.close|);
            && c <= o1 < e1 <= o2 < e2 <= |text|
            && Barrier(text, e1) && Barrier(text, e2)
            && (p + |sp.Text()| <= o1 || e1 <= p) && (p + |sp.Text()| <= o2 || e2 <= p)
            && Parse(StartsLine(text, c), text[c..])
               == [Plain(text[c..o1]), Section(text[o1..e1], text[e1..o2], text[o2..e2])]
                    + Parse(StartsLine(text, e2), text[e2..])
  {
    hide Spelling.Text, Parse, WidenedAt, StartsLine, FirstOpening, Find;
    FoundThere(text, c, open, d, close);
    ParseSection(text, c, open, d, close);
    SectionOrder(text, c, open, d, close);
    BothBeside(text, p, sp, open, close, d);
  }

  predicate FirstPlain(bs: seq<Block>) {
    bs != [] && bs[0].Plain?
  }

  lemma PlainFirst(text: string, c: nat)
    requires c <= |text|
    ensures FirstPlain(Parse(StartsLine(text, c), text[c..]))
  {
    hide FirstSection;
  }

  lemma FoundThere(text: string, c: nat, open: nat, d: Delims, close: nat)
    requires c <= |text| && FirstOpening(text, c) == Some(Opening(open, d)) && open + |d.open| <= |text|
    requires Find(text, open + |d.open|, d.close) == Some(close)
    ensures c <= open && IsForm(d) && Braced(d.open) && Braced(d.close)
    ensures At(text, open, d.open) && At(text, close, d.close)
  {
    FormsBraced(d);
  }

  lemma BothBeside(text: string, p: nat, sp: Spelling, open: nat, close: nat, d: Delims)
    requires At(text, p, sp.Text()) && IsForm(d) && At(text, open, d.open) && At(text, close, d.close)
    ensures var (o1, e1) := WidenedAt(text, open, open + |d.open|);
            var (o2, e2) := WidenedAt(text, close, close + |d.close|);
            (p + |sp.Text()| <= o1 || e1 <= p) && (p + |sp.Text()| <= o2 || e2 <= p)
  {
    hide Spelling.Text, WidenedAt;
    DelimsLook(d);
    Beside(text, p, sp, open, d.open);
    Beside(text, p, sp, close, d.close);
  }

  // ------------------------------------------------------------- where it is rendered

  lemma {:induction false} MeaningSplit(bs: seq<Block>, k: nat, ctx: Tctx)
    requires k < |bs|
    ensures Meaning(bs, ctx) == Meaning(bs[..k], ctx) + (BlockMeaning(bs[k], ctx) + Meaning(bs[k + 1..], ctx))
  {
    hide BlockMeaning;
    if k == 0 {
      assert bs[..0] == [] && "" + Meaning(bs, ctx) == Meaning(bs, ctx);
    } else {
      MeaningSplit(bs[1..], k - 1, ctx);
      assert bs[1..][..k - 1] == bs[..k][1..] && bs[1..][k..] == bs[k + 1..];
      Grouped3(BlockMeaning(bs[0], ctx), Meaning(bs[..k][1..], ctx),
               BlockMeaning(bs[k], ctx) + Meaning(bs[k + 1..], ctx));
    }
  }

  lemma Grouped3(a: string, b: string, c: string)
    ensures a + (b + c) == (a + b) + c
  {
  }

  lemma {:induction false} EachNodePrefix(body: string, ctx: Tctx, i: nat, n: nat)
    requires i <= n <= |ctx.nodes|
    ensures EachNode(body, ctx, i) <= EachNode(body, ctx, n)
    decreases n - i
  {
    hide SpanMeaning, NodeScope;
    if i < n {
      EachNodePrefix(body, ctx, i, n - 1);
      PrefixLonger(EachNode(body, ctx, i), EachNode(body, ctx, n - 1), SpanMeaning(body, NodeScope(ctx, n - 1)));
    }
  }

  lemma PrefixLonger(a: string, b: string, c: string)
    requires a <= b
    ensures a <= b + c
  {
  }

  /** Behind `before`, the output goes on with every line of the block at the margin, and taking the margin off
      gives the block back, but for a final line break. */
  ghost predicate Emits(out: string, before: string, margin: string, block: string) {
    && before + (margin + Reindent(block, margin)) <= out
    && Unindent(margin + Reindent(block, margin), margin)
       == Some(if EndsInNewline(block) then block[..|block| - 1] else block)
  }

  /** A span that holds the tag at a margin, rendered as a part of the whole. */
  lemma SpanEmits(x1: string, margin: string, sp: Spelling, x2: string, scope: Scope, front: string, out: string)
    requires scope.Valid() && sp.tag == Tag.Env && AllBlank(margin) && StartsLines(x1)
    requires front + SpanMeaning(Around(x1, margin, sp.Text(), x2), scope) <= out
    ensures var block := if scope.index.Some? then scope.nodeEnv else scope.commonEnv;
            Emits(out, front + SpanMeaning(x1, scope), margin, block)
  {
    hide Spelling.Text, SpanMeaning, Reindent, Unindent, EndsInNewline;
    var block := if scope.index.Some? then scope.nodeEnv else scope.commonEnv;
    EnvAtColumn(x1, margin, sp, x2, scope) by {
      FreshStart(x1);
    }
    PrefixChain(front, SpanMeaning(x1, scope), margin, Reindent(block, margin), Eval(Tokens(x2), None, scope), out);
  }

  lemma FreshStart(s: string)
    requires StartsLines(s)
    ensures s == "" || EndsInNewline(s)
  {
  }

  lemma PrefixChain(front: string, a: string, m: string, r: string, z: string, out: string)
    requires front + (a + (m + (r + z))) <= out
    ensures front + a + (m + r) <= out
  {
    assert front + (a + (m + (r + z))) == (front + a + (m + r)) + z;
  }

  lemma PlainEmits(bs: seq<Block>, k: nat, x1: string, margin: string, sp: Spelling, x2: string, ctx: Tctx)
    requires k < |bs| && bs[k].Plain? && SpanText(bs[k]) == Around(x1, margin, sp.Text(), x2)
    requires sp.tag == Tag.Env && AllBlank(margin) && StartsLines(x1)
    ensures Emits(Meaning(bs, ctx), Meaning(bs[..k], ctx) + SpanMeaning(x1, GlobalScope(ctx)), margin,
                  EnvText(ctx.commonEnvars))
  {
    hide Spelling.Text, SpanMeaning, Meaning, Around, Emits;
    MeaningSplit(bs, k, ctx);
    Behind(Meaning(bs[..k], ctx), BlockMeaning(bs[k], ctx), Meaning(bs[k + 1..], ctx));
    SpanEmits(x1, margin, sp, x2, GlobalScope(ctx), Meaning(bs[..k], ctx), Meaning(bs, ctx));
  }

  lemma Behind(a: string, b: string, c: string)
    ensures a + b <= a + (b + c)
  {
    assert a + (b + c) == (a + b) + c;
  }

  lemma SectionEmits(bs: seq<Block>, k: nat, x1: string, margin: string, sp: Spelling, x2: string, ctx: Tctx, i: nat)
    requires k < |bs| && bs[k].Section? && SpanText(bs[k]) == Around(x1, margin, sp.Text(), x2)
    requires sp.tag == Tag.Env && AllBlank(margin) && StartsLines(x1) && i < |ctx.nodes|
    ensures Emits(Meaning(bs, ctx),
                  Meaning(bs[..k], ctx) + EachNode(bs[k].body, ctx, i) + SpanMeaning(x1, NodeScope(ctx, i)), margin,
                  EnvText(ctx.nodes[i].envars))
  {
    hide Spelling.Text, SpanMeaning, Meaning, BlockMeaning, Around, Emits, EnvText, EachNode, NodeScope, GlobalScope;
    MeaningSplit(bs, k, ctx);
    var body, front := bs[k].body, Meaning(bs[..k], ctx);
    EachNodePrefix(body, ctx, i + 1, |ctx.nodes|);
    EachNodeNext(body, ctx, i);
    CopiesMeant(bs[k], ctx);
    NodeBlock(ctx, i);
    CopyBehind(front, EachNode(body, ctx, i), SpanMeaning(body, NodeScope(ctx, i)),
               EachNode(body, ctx, |ctx.nodes|), Meaning(bs[k + 1..], ctx));
    SpanEmits(x1, margin, sp, x2, NodeScope(ctx, i), front + EachNode(body, ctx, i), Meaning(bs, ctx));
  }

  lemma CopiesMeant(b: Block, ctx: Tctx)
    requires b.Section?
    ensures BlockMeaning(b, ctx) == EachNode(b.body, ctx, |ctx.nodes|) && SpanText(b) == b.body
  {
  }

  lemma NodeBlock(ctx: Tctx, i: nat)
    requires i < |ctx.nodes|
    ensures NodeScope(ctx, i).index.Some? && NodeScope(ctx, i).nodeEnv == EnvText(ctx.nodes[i].envars)
  {
  }

  lemma EachNodeNext(body: string, ctx: Tctx, i: nat)
    requires i < |ctx.nodes|
    ensures EachNode(body, ctx, i + 1) == EachNode(body, ctx, i) + SpanMeaning(body, NodeScope(ctx, i))
  {
  }

  lemma CopyBehind(front: string, a: string, b: string, each: string, rest: string)
    requires a + b <= each
    ensures front + a + b <= front + (each + rest)
  {
    var z := each[|a + b|..];
    assert each == a + b + z;
    assert front + (each + rest) == (front + a + b) + (z + rest);
  }

  /** What stands in the manifest before the margin of a tag in plain text, behind `x1` of its span. */
  ghost function GlobalFront(bs: seq<Block>, k: nat, x1: string, ctx: Tctx): string
    requires k < |bs|
  {
    Meaning(bs[..k], ctx) + SpanMeaning(x1, GlobalScope(ctx))
  }

  /** What stands before it in the copy of a section's body for node `i`. */
  ghost function CopyFront(bs: seq<Block>, k: nat, x1: string, ctx: Tctx, i: nat): string
    requires k < |bs| && bs[k].Section? && i < |ctx.nodes|
  {
    Meaning(bs[..k], ctx) + EachNode(bs[k].body, ctx, i) + SpanMeaning(x1, NodeScope(ctx, i))
  }

  /** In a copy of a body, a line of it starts a line: it is not the body's first, or the body ends its last line, or
      this is the first copy. */
  predicate LineApart(x1: string, body: string, i: nat) {
    x1 != "" || EndsInNewline(body) || i == 0
  }

  lemma GlobalFrontFresh(bs: seq<Block>, k: nat, x1: string, ctx: Tctx)
    requires Proper(true, bs) && k < |bs| && StartsLines(x1) && (x1 == "" ==> Begins(true, bs, k))
    ensures |ctx.nodes| > 0 || StartsLines(Shown(bs[..k], false) + x1) ==> StartsLines(GlobalFront(bs, k, x1, ctx))
  {
    hide Proper, Begins, Shown, Meaning, SpanMeaning, GlobalScope;
    if x1 != "" {
      SpanEnds(x1, GlobalScope(ctx));
      EndsBehind(Meaning(bs[..k], ctx), SpanMeaning(x1, GlobalScope(ctx)));
    } else {
      NoText(GlobalScope(ctx));
      EndsBehind(Meaning(bs[..k], ctx), "");
      ShownFresh(true, bs, k);
      ShownEnds(bs[..k], ctx);
      EndsBehind(Shown(bs[..k], false), "");
    }
  }

  lemma CopyFrontFresh(bs: seq<Block>, k: nat, x1: string, ctx: Tctx, i: nat)
    requires Proper(true, bs) && k < |bs| && StartsLines(x1) && (x1 == "" ==> Begins(true, bs, k))
    requires bs[k].Section? && bs[k].body != "" && i < |ctx.nodes|
    ensures LineApart(x1, bs[k].body, i) ==> StartsLines(CopyFront(bs, k, x1, ctx, i))
    ensures SolidContext(ctx) ==> (StartsLines(CopyFront(bs, k, x1, ctx, i)) <==> LineApart(x1, bs[k].body, i))
  {
    hide Proper, Begins, Shown, Meaning, SpanMeaning, EachNode, NodeScope, SolidContext;
    var front, body := Meaning(bs[..k], ctx), bs[k].body;
    if x1 != "" {
      SpanEnds(x1, NodeScope(ctx, i));
      EndsBehind(front + EachNode(body, ctx, i), SpanMeaning(x1, NodeScope(ctx, i)));
    } else {
      NoText(NodeScope(ctx, i));
      EndsBehind(front + EachNode(body, ctx, i), "");
      CopiesBefore(front, body, ctx, i);
      if i == 0 {
        ShownFresh(true, bs, k);
        ShownEnds(bs[..k], ctx);
      }
    }
  }

  /** Behind complete copies of a body, a line starts exactly if the body ends its last one. */
  lemma CopiesBefore(front: string, body: string, ctx: Tctx, i: nat)
    requires body != "" && i <= |ctx.nodes|
    ensures i == 0 ==> front + EachNode(body, ctx, i) == front
    ensures i > 0 && EndsInNewline(body) ==> EndsInNewline(front + EachNode(body, ctx, i))
    ensures i > 0 && !EndsInNewline(body) && SolidContext(ctx) ==> Solid(front + EachNode(body, ctx, i))
  {
    hide SpanMeaning, NodeScope, SolidContext;
    CopiesEnd(body, ctx, i);
    EndsBehind(front, EachNode(body, ctx, i));
    if i > 0 && !EndsInNewline(body) && SolidContext(ctx) {
      BodySolid(body, ctx, i - 1);
      SolidBehind(EachNode(body, ctx, i - 1), SpanMeaning(body, NodeScope(ctx, i - 1)));
      SolidBehind(front, EachNode(body, ctx, i));
    }
  }

  lemma BodyHolds(text: string, x1: string, margin: string, sp: Spelling, x2: string)
    requires text == Around(x1, margin, sp.Text(), x2)
    ensures text != ""
  {
    SpellingShape(sp);
  }

  /** An env tag with only blanks before it on its line of the template, wherever the sections are: its whole
      line up to it is in one span, and in the manifest - for each node, if that span is a section's body -
      every line of the env block stands behind those blanks, and taking them off gives the block back. In plain
      text the margin starts a line of the manifest, if there are nodes; in a section's body it does so exactly
      where the copies of the body keep their lines apart, if names and ranks are there and end no line. */
  lemma EnvTagRendered(text: string, p: nat, sp: Spelling, ctx: Tctx) returns (k: nat, x1: string, x2: string)
    requires At(text, p, sp.Text()) && sp.tag == Tag.Env && AllBlank(Margin(text, p))
    ensures var bs, margin := Parse(true, text), Margin(text, p);
            && k < |bs| && StartsLines(x1)
            && SpanText(bs[k]) == Around(x1, margin, sp.Text(), x2)
            && (bs[k].Plain? ==>
                  && Emits(Meaning(bs, ctx), GlobalFront(bs, k, x1, ctx), margin, EnvText(ctx.commonEnvars))
                  && (|ctx.nodes| > 0 || StartsLines(Shown(bs[..k], false) + x1) ==>
                        StartsLines(GlobalFront(bs, k, x1, ctx))))
            && (bs[k].Section? ==> forall i: nat :: i < |ctx.nodes| ==>
                  && Emits(Meaning(bs, ctx), CopyFront(bs, k, x1, ctx, i), margin, EnvText(ctx.nodes[i].envars))
                  && (LineApart(x1, bs[k].body, i) ==> StartsLines(CopyFront(bs, k, x1, ctx, i)))
                  && (SolidContext(ctx) ==>
                        (StartsLines(CopyFront(bs, k, x1, ctx, i)) <==> LineApart(x1, bs[k].body, i))))
  {
    WholeText(text);
    k, x1, x2 := TagInBlock(text, 0, p, sp);
    ParseProper(true, text);
    BodyHolds(SpanText(Parse(true, text)[k]), x1, Margin(text, p), sp, x2);
    hide Spelling.Text, SpanMeaning, Meaning, Around, Emits, Margin, Parse, EnvText, EachNode, GlobalScope, NodeScope,
      Proper, Begins, Shown, LineApart, SolidContext, StartsLines;
    var bs, margin := Parse(true, text), Margin(text, p);
    if bs[k].Plain? {
      PlainEmits(bs, k, x1, margin, sp, x2, ctx);
      GlobalFrontFresh(bs, k, x1, ctx);
    } else {
      forall i: nat | i < |ctx.nodes|
        ensures Emits(Meaning(bs, ctx), CopyFront(bs, k, x1, ctx, i), margin, EnvText(ctx.nodes[i].envars))
        ensures LineApart(x1, bs[k].body, i) ==> StartsLines(CopyFront(bs, k, x1, ctx, i))
        ensures SolidContext(ctx) ==> (StartsLines(CopyFront(bs, k, x1, ctx, i)) <==> LineApart(x1, bs[k].body, i))
      {
        SectionEmits(bs, k, x1, margin, sp, x2, ctx, i);
        CopyFrontFresh(bs, k, x1, ctx, i);
      }
    }
  }

  lemma WholeText(text: string)
    ensures text[0..] == text && StartsLine(text, 0)
  {
  }
}
