/** What the standalone-tag rule is for: a section whose tags stand on lines of their own leaves nothing but
    its body, once per node (plm_k8s_template.c:666-699; templates/single-job.yaml.tmpl:64-74). */
module Standalone {
  import opened Strings
  import opened EnvBlock
  import opened Tags
  import opened Spans
  import opened Sections
  import opened Identity

  /** A tag on a line of its own. */
  function OwnLine(ind: string, tag: string): (r: string)
    ensures EndsInNewline(r)
  {
    ind + tag + "\n"
  }

  /** Text that begins with such a line. */
  function Line(ind: string, tag: string, rest: string): string {
    OwnLine(ind, tag) + rest
  }

  /** The template text with a section whose tags stand on lines of their own. */
  function OwnLines(pre: string, ind: string, d: Delims, body: string, ind2: string, post: string): string {
    pre + Line(ind, d.open, body + Line(ind2, d.close, post))
  }

  lemma Pieces(a: string, ind: string, tag: string, rest: string)
    ensures var s, i := a + Line(ind, tag, rest), |a| + |ind|;
            At(s, i, tag) && i + |tag| <= |s| && s[..i] == a + ind && s[i + |tag|..] == "\n" + rest
  {
    var s, i := a + Line(ind, tag, rest), |a| + |ind|;
    assert s == a + (ind + (tag + ("\n" + rest)));
    assert s[i..i + |tag|] == tag;
  }

  lemma BlanksBehind(a: string, ind: string)
    requires StartsLines(a) && AllBlank(ind)
    ensures TrailingBlanks(a + ind) == |ind|
  {
    assert forall j :: |a| <= j < |a + ind| ==> IsBlank((a + ind)[j]);
    assert a != "" ==> (a + ind)[|a| - 1] == '\n';
    OnlyThose(a + ind, |a|);
  }

  lemma OnlyThose(s: string, n: nat)
    requires n <= |s| && (forall i :: n <= i < |s| ==> IsBlank(s[i])) && (n > 0 ==> !IsBlank(s[n - 1]))
    ensures TrailingBlanks(s) == |s| - n
  {
  }

  /** A tag behind blanks on a fresh line, with nothing behind it, takes exactly its line. */
  lemma CutAlone(bol: bool, a: string, ind: string, tag: string, rest: string)
    requires StartsLines(a) && (a == "" ==> bol) && AllBlank(ind)
    ensures CutTag(bol, a + ind, tag, "\n" + rest) == Cut(a, OwnLine(ind, tag), rest)
  {
    var pre, post := a + ind, "\n" + rest;
    BlanksBehind(a, ind);
    assert LineBegins(bol, pre) by {
      assert a != "" ==> pre[|a| - 1] == '\n';
    }
    assert LeadingBlanks(post) == 0 && post[0] == '\n';
    assert Widths(bol, pre, post) == (|ind|, 1);
    assert pre[..|a|] == a && pre[|a|..] == ind && post[..1] == "\n" && post[1..] == rest;
  }

  /** Behind text on lines of its own and blanks, the first occurrence is the one that stands there. */
  lemma FirstHere(a: string, ind: string, tag: string, rest: string, w: string)
    requires StartsLines(a) && AllBlank(ind) && w != "" && w[0] == '{' && '\n' !in w && NoTag(a, w)
    ensures forall i: nat :: i < |a| + |ind| ==> !At(a + Line(ind, tag, rest), i, w)
  {
    var s := a + Line(ind, tag, rest);
    assert forall k :: 0 <= k < |ind| ==> Line(ind, tag, rest)[k] == ind[k];
    hide Line;
    forall i: nat | i < |a| + |ind|
      ensures !At(s, i, w)
    {
      AtFirst(s, i, w);
      if i < |a| {
        AtPrefix(s, |a|, i, w);
        AtHolds(s, |a| - 1, i, w);
        assert s[..|a|] == a && s[|a| - 1] == '\n';
      } else {
        assert s[i] == Line(ind, tag, rest)[i - |a|] == ind[i - |a|];
      }
    }
  }

  lemma AtPrefix(s: string, n: nat, i: nat, w: string)
    requires n <= |s|
    ensures At(s, i, w) && i + |w| <= n ==> At(s[..n], i, w)
  {
    if i + |w| <= n {
      assert s[..n][i..i + |w|] == s[i..i + |w|];
    }
  }

  lemma AtHolds(s: string, j: nat, i: nat, w: string)
    requires j < |s|
    ensures At(s, i, w) && i <= j < i + |w| ==> s[j] in w
  {
    if At(s, i, w) && i <= j < i + |w| {
      CharAt(s, i, w);
      assert s[i + (j - i)] == w[j - i];
    }
  }

  lemma FirstFormHere(a: string, ind: string, d: Delims, rest: string)
    requires StartsLines(a) && AllBlank(ind) && IsForm(d)
    requires forall e: Delims :: IsForm(e) ==> NoTag(a, e.open)
    ensures FirstOpening(a + Line(ind, d.open, rest), 0) == Some(Opening(|a| + |ind|, d))
  {
    var s, n := a + Line(ind, d.open, rest), |a| + |ind|;
    Pieces(a, ind, d.open, rest);
    hide NoTag, StartsLines, IsForm, At, Line;
    FormText(d);
    forall e: Delims | IsForm(e)
      ensures forall i: nat :: i < n ==> !At(s, i, e.open)
    {
      FormText(e);
      FirstHere(a, ind, d.open, rest, e.open);
    }
    var o := FirstOpening(s, 0);
    assert o.Some? && o.value.pos == n;
    SameOpening(s, n, d, o.value.form);
  }

  lemma FirstCloseHere(body: string, ind: string, close: string, rest: string)
    requires StartsLines(body) && AllBlank(ind)
    requires close != "" && close[0] == '{' && '\n' !in close && NoTag(body, close)
    ensures Find(body + Line(ind, close, rest), 0, close) == Some(|body| + |ind|)
  {
    Pieces(body, ind, close, rest);
    FirstHere(body, ind, close, rest, close);
    hide At, Line;
  }

  /** The section's own lines disappear, its body is left, and the rest is a template of its own. */
  lemma OwnLinesParse(pre: string, ind: string, d: Delims, body: string, ind2: string, post: string)
    requires IsForm(d) && StartsLines(pre) && AllBlank(ind) && AllBlank(ind2)
    requires StartsLines(body) && NoTag(body, d.close) && forall e: Delims :: IsForm(e) ==> NoTag(pre, e.open)
    ensures Parse(true, OwnLines(pre, ind, d, body, ind2, post))
         == [Plain(pre), Section(OwnLine(ind, d.open), body, OwnLine(ind2, d.close))] + Parse(true, post)
  {
    hide Line, OwnLine, OwnLines, SectionAt, FirstOpening, Parse;
    FormText(d);
    FirstFormHere(pre, ind, d, body + Line(ind2, d.close, post));
    OwnLinesIs(pre, ind, d, body, ind2, post);
    OwnLinesCuts(pre, ind, d, body, ind2, post);
    ParseIs(OwnLines(pre, ind, d, body, ind2, post), |pre| + |ind|, d,
            Cut(pre, OwnLine(ind, d.open), body + Line(ind2, d.close, post)), Cut(body, OwnLine(ind2, d.close), post));
  }

  lemma OwnLinesIs(pre: string, ind: string, d: Delims, body: string, ind2: string, post: string)
    ensures OwnLines(pre, ind, d, body, ind2, post) == pre + Line(ind, d.open, body + Line(ind2, d.close, post))
    ensures EndsInNewline(OwnLine(ind2, d.close))
  {
  }

  lemma OwnLinesCuts(pre: string, ind: string, d: Delims, body: string, ind2: string, post: string)
    requires |d.open| > 0 && d.close != "" && d.close[0] == '{' && '\n' !in d.close
    requires StartsLines(pre) && AllBlank(ind) && AllBlank(ind2) && StartsLines(body) && NoTag(body, d.close)
    ensures SectionAt(OwnLines(pre, ind, d, body, ind2, post), |pre| + |ind|, d)
              == Some((Cut(pre, OwnLine(ind, d.open), body + Line(ind2, d.close, post)),
                       Cut(body, OwnLine(ind2, d.close), post)))
  {
    hide Line, OwnLine, SectionAt, Find, CutAtTag, EndsInNewline, At;
    var rest := body + Line(ind2, d.close, post);
    FirstCloseHere(body, ind2, d.close, post);
    CutHere(true, pre, ind, d.open, rest);
    CutHere(true, body, ind2, d.close, post);
    SectionIs(OwnLines(pre, ind, d, body, ind2, post), |pre| + |ind|, d, Cut(pre, OwnLine(ind, d.open), rest),
              |body| + |ind2|, Cut(body, OwnLine(ind2, d.close), post));
  }

  /** The cut around a tag that stands at `i`, if one does. */
  function CutAtTag(bol: bool, s: string, i: nat, tag: string): Option<Cut> {
    if At(s, i, tag) then Some(CutTag(bol, s[..i], tag, s[i + |tag|..])) else None
  }

  lemma CutHere(bol: bool, a: string, ind: string, tag: string, rest: string)
    requires StartsLines(a) && (a == "" ==> bol) && AllBlank(ind)
    ensures CutAtTag(bol, a + Line(ind, tag, rest), |a| + |ind|, tag) == Some(Cut(a, OwnLine(ind, tag), rest))
  {
    hide StartsLines, CutTag, Line;
    Pieces(a, ind, tag, rest);
    CutAlone(bol, a, ind, tag, rest);
  }

  /** The cuts around a section that opens at `n`, if one does. */
  function SectionAt(t: string, n: nat, d: Delims): Option<(Cut, Cut)> {
    if At(t, n, d.open) && |d.open| > 0 then SectionFrom(true, t, n, d) else None
  }

  lemma SectionIs(t: string, n: nat, d: Delims, o: Cut, j: nat, c: Cut)
    requires |d.open| > 0
    ensures (CutAtTag(true, t, n, d.open) == Some(o) && EndsInNewline(o.region)
             && Find(o.after, 0, d.close) == Some(j) && CutAtTag(true, o.after, j, d.close) == Some(c))
            ==> SectionAt(t, n, d) == Some((o, c))
  {
    hide CutTag, Find;
  }

  lemma ParseIs(t: string, n: nat, d: Delims, o: Cut, c: Cut)
    requires FirstOpening(t, 0) == Some(Opening(n, d)) && |d.open| > 0 && EndsInNewline(c.region)
    requires SectionAt(t, n, d) == Some((o, c))
    ensures Parse(true, t) == [Plain(o.before), Section(o.region, c.before, c.region)] + Parse(true, c.after)
  {
    hide SectionFrom, FirstOpening, EndsInNewline;
    assert FirstSection(true, t) == Some((o, c));
  }

  /** So the whole means: the text before, the body for each node, the text behind. */
  lemma OwnLinesMeaning(pre: string, ind: string, d: Delims, body: string, ind2: string, post: string, ctx: Tctx)
    requires IsForm(d) && StartsLines(pre) && AllBlank(ind) && AllBlank(ind2)
    requires StartsLines(body) && NoTag(body, d.close) && forall e: Delims :: IsForm(e) ==> NoTag(pre, e.open)
    ensures Meaning(Parse(true, OwnLines(pre, ind, d, body, ind2, post)), ctx)
         == SpanMeaning(pre, GlobalScope(ctx)) + (EachNode(body, ctx, |ctx.nodes|) + Meaning(Parse(true, post), ctx))
  {
    OwnLinesParse(pre, ind, d, body, ind2, post);
    hide Parse, SpanMeaning, GlobalScope, EachNode, Meaning;
    MeaningPair(pre, OwnLine(ind, d.open), body, OwnLine(ind2, d.close), Parse(true, post), ctx);
  }

  /** The same for both pairs of section tags as they are written. */
  lemma SectionMeaning(open: string, close: string, pre: string, ind: string, body: string, ind2: string,
                       post: string, ctx: Tctx)
    requires (open == "{{#nodes}}" && close == "{{/nodes}}")
          || (open == "{% for node in nodes %}" && close == "{% endfor %}")
    requires StartsLines(pre) && NoTag(pre, "{{#nodes}}") && NoTag(pre, "{% for node in nodes %}")
    requires forall i :: 0 <= i < |ind| ==> ind[i] == ' ' || ind[i] == '\t'
    requires forall i :: 0 <= i < |ind2| ==> ind2[i] == ' ' || ind2[i] == '\t'
    requires StartsLines(body) && NoTag(body, close)
    ensures Meaning(Parse(true, pre + (ind + open + "\n" + (body + (ind2 + close + "\n" + post)))), ctx)
         == SpanMeaning(pre, GlobalScope(ctx)) + (EachNode(body, ctx, |ctx.nodes|) + Meaning(Parse(true, post), ctx))
  {
    var d := Delims(open, close);
    assert IsForm(d) && AllBlank(ind) && AllBlank(ind2);
    forall e: Delims | IsForm(e)
      ensures NoTag(pre, e.open)
    {
    }
    hide IsForm, Parse, SpanMeaning, GlobalScope, EachNode, Meaning, NoTag;
    OwnLinesMeaning(pre, ind, d, body, ind2, post, ctx);
    OwnLinesIs(pre, ind, d, body, ind2, post);
  }

  /** Node by node, in order, each with its own values. */
  lemma EachNodeStep(body: string, ctx: Tctx, n: nat)
    requires n < |ctx.nodes|
    ensures EachNode(body, ctx, 0) == ""
    ensures EachNode(body, ctx, n + 1) == EachNode(body, ctx, n) + SpanMeaning(body, NodeScope(ctx, n))
  {
  }

  // --------------------------------------------------- the default template's affinity list

  const ITEM_HEAD := "                      - \""
  const ITEM_IND := "                      "

  /** The line inside the section. */
  function ItemLine(): string {
    ITEM_HEAD + (Spelling(Tag.Node, Tight).Text() + "\"\n")
  }

  /** One quoted item of a YAML sequence. */
  function Item(name: string): string {
    ITEM_IND + "- " + Quote(name) + "\n"
  }

  function Items(names: seq<string>): string {
    if names == [] then ""
    else Items(names[..|names| - 1]) + Item(names[|names| - 1])
  }

  lemma ItemLineFacts()
    ensures EndsInNewline(ItemLine()) && NoTag(ItemLine(), MUSTACHE.close) && AllBlank(ITEM_IND)
  {
    var line := ItemLine();
    assert Spelling(Tag.Node, Tight).Text() == "{{node}}";
    assert '/' !in line;
    forall i: nat
      ensures !At(line, i, MUSTACHE.close)
    {
      if i + 2 < |line| {
        AtThird(line, i, MUSTACHE.close);
      }
    }
  }

  lemma AtThird(s: string, i: nat, w: string)
    requires i + 2 < |s| && |w| > 2
    ensures At(s, i, w) ==> s[i + 2] == w[2]
  {
    if At(s, i, w) {
      CharAt(s, i, w);
    }
  }

  lemma {:induction false} ItemsOfNodes(ctx: Tctx, n: nat)
    requires n <= |ctx.nodes| && Readable(ctx)
    ensures EachNode(ItemLine(), ctx, n) == Items(NodeNames(ctx)[..n])
  {
    hide SpanMeaning, Item, ItemLine, NodeScope, PlainWord, NodeNames;
    if n > 0 {
      ItemsOfNodes(ctx, n - 1);
      ItemOfNode(ctx, n - 1);
      NamesNext(ctx, n - 1);
      ItemsSnoc(NodeNames(ctx)[..n - 1], ctx.nodes[n - 1].node);
    }
  }

  lemma ItemsSnoc(names: seq<string>, name: string)
    ensures Items(names + [name]) == Items(names) + Item(name)
  {
    hide Item;
    assert (names + [name])[..|names|] == names;
  }

  lemma NamesNext(ctx: Tctx, i: nat)
    requires i < |ctx.nodes|
    ensures |NodeNames(ctx)| == |ctx.nodes| && NodeNames(ctx)[..i + 1] == NodeNames(ctx)[..i] + [ctx.nodes[i].node]
  {
  }

  lemma ItemOfNode(ctx: Tctx, i: nat)
    requires i < |ctx.nodes| && Readable(ctx)
    ensures SpanMeaning(ItemLine(), NodeScope(ctx, i)) == Item(ctx.nodes[i].node)
  {
    NamesPlain(ctx, i);
    EscapePlain(ctx.nodes[i].node);
    assert '{' !in ITEM_HEAD && '{' !in "\"\n";
    TagInText(ITEM_HEAD, Spelling(Tag.Node, Tight), "\"\n", NodeScope(ctx, i));
    hide SpanMeaning, Escape;
    ItemText(ctx.nodes[i].node);
  }

  lemma ItemText(name: string)
    requires Escape(name) == name
    ensures ITEM_HEAD + (name + "\"\n") == Item(name)
  {
    assert ITEM_HEAD == ITEM_IND + "- " + "\"";
    assert "\"\n" == "\"" + "\n";
  }

  lemma NamesPlain(ctx: Tctx, i: nat)
    requires i < |ctx.nodes| && Readable(ctx)
    ensures PlainText(ctx.nodes[i].node)
  {
  }

  /** The affinity rule allows exactly the allocated nodes: in any template that lists them as the default one
      does, the section renders to one quoted item per node, in order, and each reads back as that name. */
  lemma AffinityValues(pre: string, post: string, ctx: Tctx)
    requires Readable(ctx) && StartsLines(pre) && forall e: Delims :: IsForm(e) ==> NoTag(pre, e.open)
    ensures Meaning(Parse(true, OwnLines(pre, ITEM_IND, MUSTACHE, ItemLine(), ITEM_IND, post)), ctx)
         == SpanMeaning(pre, GlobalScope(ctx)) + (Items(NodeNames(ctx)) + Meaning(Parse(true, post), ctx))
    ensures forall i :: 0 <= i < |ctx.nodes| ==> ReadScalar(Quote(NodeNames(ctx)[i])) == Some(NodeNames(ctx)[i])
  {
    ItemLineFacts();
    ItemsOfNodes(ctx, |ctx.nodes|);
    assert NodeNames(ctx)[..|ctx.nodes|] == NodeNames(ctx);
    hide SpanMeaning, Items, ItemLine, Meaning, Parse, OwnLines, GlobalScope, EachNode, PlainWord;
    OwnLinesMeaning(pre, ITEM_IND, MUSTACHE, ItemLine(), ITEM_IND, post, ctx);
    forall i | 0 <= i < |ctx.nodes|
      ensures ReadScalar(Quote(NodeNames(ctx)[i])) == Some(NodeNames(ctx)[i])
    {
      NameReadsBack(ctx, i);
    }
  }

  lemma NameReadsBack(ctx: Tctx, i: nat)
    requires i < |ctx.nodes| && Readable(ctx)
    ensures ReadScalar(Quote(ctx.nodes[i].node)) == Some(ctx.nodes[i].node)
  {
    NamesPlain(ctx, i);
    ScalarRoundTrip(ctx.nodes[i].node);
  }
}
