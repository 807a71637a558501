/** Inputs at which the code does not do what its documentation promises. Each is one of a family; the lemma
    named beside it says for all inputs when the promise holds. */
module Differences {
  import opened Strings
  import opened StrBuf
  import opened EnvBlock
  import opened Tags
  import opened Spans
  import opened Sections
  import opened Standalone
  import opened LineStarts
  import opened Columns
  import opened Preposition
  import opened Hnp
  import opened Sanitize
  import opened Embed

  // ------------------------------------------------------------ the manifest renderer

  /** No tag starts inside an opening tag. */
  lemma NoTagInOpening(s: string, k: nat)
    requires At(s, 0, MUSTACHE.open) && k < |MUSTACHE.open|
    ensures !TagAt(s, k)
  {
    OpensLook();
    forall sp: Spelling
      ensures !At(s, k, sp.Text())
    {
      SpellingShape(sp);
      if At(s, k, sp.Text()) {
        Apart(s, k, sp, 0, MUSTACHE.open);
      }
    }
  }

  lemma SpanBehindOpening(sp: Spelling, scope: Scope)
    requires scope.Valid() && sp.tag == Tag.Name
    ensures SpanMeaning(MUSTACHE.open + sp.Text(), scope) == MUSTACHE.open + scope.ctx.name
  {
    hide Spelling.Text, Tokens, Eval, TagAt;
    var a, t := MUSTACHE.open, sp.Text();
    var s := a + t;
    assert s[0..|a|] == a && s[|a|..|s|] == t;
    forall k | 0 <= k < |a|
      ensures !TagAt(s, k)
    {
      NoTagInOpening(s, k);
    }
    RestRun(s, 0, |a|, scope);
    RestTag(s, |a|, sp, scope);
    WholeSpan(s, scope);
    assert s[0..|a|] + (scope.ctx.name + "") == a + scope.ctx.name;
  }

  lemma WholeSpan(s: string, scope: Scope)
    requires scope.Valid()
    ensures Rest(s, 0, scope) == SpanMeaning(s, scope) && Rest(s, |s|, scope) == ""
  {
    assert s[0..] == s && s[|s|..] == "";
  }

  const UNTERMINATED := MUSTACHE.open + "{{name}}"

  lemma NothingCloses()
    ensures FirstSection(true, UNTERMINATED).None?
  {
    assert At(UNTERMINATED, 0, MUSTACHE.open);
  }

  /** What stands behind an unterminated opening tag is rendered (Verbatim.UnterminatedVerbatim,
      Verbatim.LastVerbatim). */
  lemma UnterminatedRendered(ctx: Tctx)
    ensures Meaning(Parse(true, UNTERMINATED), ctx) == MUSTACHE.open + ctx.name
  {
    NothingCloses();
    hide FirstSection, GlobalScope, SpanMeaning;
    var sp := Spelling(Tag.Name, Tight);
    assert sp.Text() == "{{name}}";
    SpanBehindOpening(sp, GlobalScope(ctx));
    GlobalName(ctx);
    var bs := Parse(true, UNTERMINATED);
    assert bs == [Plain(UNTERMINATED)] && bs[1..] == [];
    assert BlockMeaning(bs[0], ctx) + "" == BlockMeaning(bs[0], ctx);
  }

  lemma GlobalName(ctx: Tctx)
    ensures GlobalScope(ctx).ctx == ctx
  {
  }

  const FINISHED := JINJA.open + ("x" + JINJA.close)
  const BETWEEN := MUSTACHE.open + FINISHED

  lemma CutAtStart(tag: string, post: string)
    requires post != "" && !IsBlank(post[0]) && post[0] != '\n'
    ensures CutTag(true, "", tag, post) == Cut("", tag, post)
  {
    assert LeadingBlanks(post) == 0;
    assert "" + tag + "" == tag;
  }

  lemma Begins(s: string, i: nat, w: string)
    requires At(s, i, w) && |w| >= 2
    ensures s[i] == w[0] && s[i + 1] == w[1]
  {
    CharAt(s, i, w);
    assert s[i + 0] == w[0];
  }

  lemma FirstOfForm(d: Delims, rest: string)
    requires IsForm(d)
    ensures FirstOpening(d.open + rest, 0) == Some(Opening(0, d))
  {
    var t := d.open + rest;
    assert t[0..|d.open|] == d.open && t[1] == d.open[1];
    hide At;
    if d == JINJA && At(t, 0, MUSTACHE.open) {
      Begins(t, 0, MUSTACHE.open);
    }
  }

  lemma BracesApart(open: string, close: string, i: nat)
    requires DelimText(open) && DelimText(close) && open[1] == '%' && close[1] == '%'
    requires i + 1 < |open + ("x" + close)|
    ensures var w := open + ("x" + close); !(w[i] == '{' && w[i + 1] == '{')
  {
    var w, n := open + ("x" + close), |open| + 1;
    assert forall k :: 0 <= k < |open| ==> w[k] == open[k];
    assert w[|open|] == 'x';
    assert forall k :: 0 <= k < |close| ==> w[n + k] == close[k];
    if i >= n {
      assert w[n + (i - n)] == close[i - n] && w[n + (i + 1 - n)] == close[i + 1 - n];
    }
  }

  lemma NotClosedByMustache()
    ensures Find(FINISHED, 0, MUSTACHE.close).None?
  {
    OpensLook();
    ClosesLook();
    hide DelimText;
    forall i: nat
      ensures !At(FINISHED, i, MUSTACHE.close)
    {
      if i + 1 < |FINISHED| {
        BracesApart(JINJA.open, JINJA.close, i);
      }
      if At(FINISHED, i, MUSTACHE.close) {
        Begins(FINISHED, i, MUSTACHE.close);
      }
    }
  }

  /** A text that begins with an opening tag and no blank behind it has a section if the tag is closed. */
  lemma OpeningAtStart(d: Delims, rest: string)
    requires IsForm(d) && rest != "" && !IsBlank(rest[0]) && rest[0] != '\n'
    ensures FirstSection(true, d.open + rest).Some? <==> Find(rest, 0, d.close).Some?
  {
    FirstOfForm(d, rest);
    FormsBraced(d);
    CutAtStart(d.open, rest);
    var t := d.open + rest;
    assert t[..0] == "" && t[|d.open|..] == rest && t[0..|d.open|] == d.open;
    hide CutTag, FirstOpening, IsForm;
  }

  /** The first opening tag is not closed by its own form, and hides a section of the other form that is closed
      (Sections.HiddenExactly, Sections.LeftUnexpanded). */
  lemma OtherFormHidden()
    ensures Parse(true, BETWEEN) == [Plain(BETWEEN)] && FirstSection(true, FINISHED).Some?
  {
    NotClosedByMustache();
    hide FirstSection;
    OpeningAtStart(MUSTACHE, FINISHED);
    var post := "x" + JINJA.close;
    assert At(post, 1, JINJA.close);
    OpeningAtStart(JINJA, post);
  }

  const INDENTED := "  {{env}}"
  const MIDLINE := MUSTACHE.open + ("a" + (MUSTACHE.close + INDENTED))

  lemma MidlineAfter()
    ensures var rest := "a" + (MUSTACHE.close + INDENTED);
            Find(rest, 0, MUSTACHE.close) == Some(1) && rest[..1] == "a" && rest[11..] == INDENTED
  {
    var rest := "a" + (MUSTACHE.close + INDENTED);
    assert rest[1..11] == MUSTACHE.close;
    if At(rest, 0, MUSTACHE.close) {
      Begins(rest, 0, MUSTACHE.close);
    }
  }

  lemma TooShort(t: string)
    requires |t| < |MUSTACHE.open|
    ensures Parse(false, t) == [Plain(t)]
  {
    NothingOpens(t);
    hide FirstOpening, SectionFrom;
  }

  lemma NothingOpens(t: string)
    requires |t| < |MUSTACHE.open|
    ensures FirstOpening(t, 0).None?
  {
    hide Find;
  }

  lemma MidlineFirst()
    ensures FirstSection(true, MIDLINE)
         == Some((Cut("", MUSTACHE.open, "a" + (MUSTACHE.close + INDENTED)), Cut("a", MUSTACHE.close, INDENTED)))
  {
    var d, rest := MUSTACHE, "a" + (MUSTACHE.close + INDENTED);
    FirstOfForm(d, rest);
    CutAtStart(d.open, rest);
    MidlineAfter();
    assert MIDLINE[..0] == "" && MIDLINE[10..] == rest && MIDLINE[0..10] == d.open;
    CutAfterLetter(INDENTED);
    hide CutTag, FirstOpening, Find;
    assert !EndsInNewline(d.open);
  }

  lemma CutAfterLetter(post: string)
    ensures CutTag(false, "a", MUSTACHE.close, post) == Cut("a", MUSTACHE.close, post)
  {
    assert TrailingBlanks("a") == 0;
    assert "" + MUSTACHE.close + "" == MUSTACHE.close;
  }

  lemma ParsePair(t: string, o: Cut, c: Cut)
    requires FirstSection(true, t) == Some((o, c))
    requires !EndsInNewline(c.region) && Parse(false, c.after) == [Plain(c.after)]
    ensures Parse(true, t) == [Plain(o.before), Section(o.region, c.before, c.region), Plain(c.after)]
  {
    hide FirstSection;
  }

  lemma MidlineColumn()
    ensures |MIDLINE| > 23 && Barrier(MIDLINE, 21) && !StartsLine(MIDLINE, 21)
    ensures MIDLINE[21..] == INDENTED && AllBlank(MIDLINE[21..23])
  {
    assert MIDLINE[20] == '}';
  }

  /** The renderer looks for the column of an env tag in its span, here "  {{env}}", and finds two blanks, although
      on its line of the template other text stands before it (Sections.ColumnOfSpan, Columns.EnvTagRendered). */
  lemma ColumnOfSpanOnly()
    ensures Parse(true, MIDLINE) == [Plain(""), Section(MUSTACHE.open, "a", MUSTACHE.close), Plain(INDENTED)]
    ensures |MIDLINE| > 23 && MIDLINE[21..] == INDENTED
    ensures Blanks(ColumnAt(MIDLINE[21..], 2)) != Blanks(ColumnAt(MIDLINE, 23))
  {
    MidlineFirst();
    TooShort(INDENTED);
    MidlineColumn();
    hide FirstSection, ColumnAt, Parse, Blanks;
    ParsePair(MIDLINE, Cut("", MUSTACHE.open, "a" + (MUSTACHE.close + INDENTED)), Cut("a", MUSTACHE.close, INDENTED));
    ColumnOfSpan(MIDLINE, 21, 23);
  }

  const OPEN_LINE := MUSTACHE.open + "\n"
  const GLUED := MUSTACHE.open + ("\n" + (INDENTED + MUSTACHE.close))

  lemma GluedClose()
    ensures Find(INDENTED + MUSTACHE.close, 0, MUSTACHE.close) == Some(9)
  {
    var rest := INDENTED + MUSTACHE.close;
    assert At(rest, 9, MUSTACHE.close) by {
      assert rest[9..19] == MUSTACHE.close;
    }
    forall i: nat | i < 9
      ensures !At(rest, i, MUSTACHE.close)
    {
      AtThird(rest, i, MUSTACHE.close);
    }
  }

  lemma GluedOpen()
    ensures CutTag(true, "", MUSTACHE.open, "\n" + (INDENTED + MUSTACHE.close))
         == Cut("", OPEN_LINE, INDENTED + MUSTACHE.close)
  {
    CutAlone(true, "", "", MUSTACHE.open, INDENTED + MUSTACHE.close);
    assert "" + "" == "" && "" + MUSTACHE.open + "\n" == OPEN_LINE;
  }

  lemma GluedEnd()
    ensures CutTag(true, INDENTED, MUSTACHE.close, "") == Cut(INDENTED, MUSTACHE.close, "")
  {
    assert INDENTED[8] == '}';
    CutMidLine(INDENTED, MUSTACHE.close);
  }

  lemma CutMidLine(pre: string, tag: string)
    requires pre != "" && !IsBlank(pre[|pre| - 1]) && pre[|pre| - 1] != '\n'
    ensures CutTag(true, pre, tag, "") == Cut(pre, tag, "")
  {
    assert TrailingBlanks(pre) == 0;
    assert "" + tag + "" == tag;
  }

  lemma GluedFirst()
    ensures FirstSection(true, GLUED)
         == Some((Cut("", OPEN_LINE, INDENTED + MUSTACHE.close), Cut(INDENTED, MUSTACHE.close, "")))
  {
    GluedClose();
    GluedOpen();
    GluedEnd();
    GluedSlices();
    hide CutTag, Find, EndsInNewline;
    SectionAtStart(MUSTACHE, "\n" + (INDENTED + MUSTACHE.close), Cut("", OPEN_LINE, INDENTED + MUSTACHE.close), 9,
                   Cut(INDENTED, MUSTACHE.close, ""));
  }

  lemma GluedSlices()
    ensures var rest := INDENTED + MUSTACHE.close; rest[..9] == INDENTED && rest[9 + |MUSTACHE.close|..] == ""
    ensures EndsInNewline(OPEN_LINE)
  {
  }

  /** A section whose opening tag begins the text. */
  lemma SectionAtStart(d: Delims, rest: string, o: Cut, j: nat, c: Cut)
    requires IsForm(d) && CutTag(true, "", d.open, rest) == o
    requires Find(o.after, 0, d.close) == Some(j) && j + |d.close| <= |o.after|
    requires CutTag(EndsInNewline(o.region), o.after[..j], d.close, o.after[j + |d.close|..]) == c
    ensures FirstSection(true, d.open + rest) == Some((o, c))
  {
    FirstOfForm(d, rest);
    FormsBraced(d);
    var t := d.open + rest;
    assert t[..0] == "" && t[|d.open|..] == rest && t[0..|d.open|] == d.open;
    hide CutTag, FirstOpening, Find, IsForm, EndsInNewline;
  }

  /** What the body means for one node. */
  function GluedCopy(ctx: Tctx, i: nat): string
    requires i < |ctx.nodes|
  {
    "  " + Reindent(EnvText(ctx.nodes[i].envars), "  ")
  }

  lemma CopyMeans(ctx: Tctx, i: nat)
    requires i < |ctx.nodes|
    ensures SpanMeaning(INDENTED, NodeScope(ctx, i)) == GluedCopy(ctx, i)
  {
    var sp := Spelling(Tag.Env, Tight);
    assert sp.Text() == "{{env}}" && INDENTED == "  " + (sp.Text() + "");
    hide Spelling.Text, Reindent, EnvText, SpanMeaning;
    EnvBehindBlanks("  ", sp, "", NodeScope(ctx, i));
    assert Tokens("") == [];
    var r := Reindent(EnvText(ctx.nodes[i].envars), "  ");
    assert r + "" == r;
  }

  /** A body that does not end its last line: the tag has only blanks before it on its line of the template, but in
      every copy except the first its block is glued behind the last one (Columns.EnvTagRendered). */
  lemma CopiesGlued(ctx: Tctx)
    requires |ctx.nodes| == 2
    ensures Parse(true, GLUED) == [Plain(""), Section(OPEN_LINE, INDENTED, MUSTACHE.close), Plain("")]
    ensures Meaning(Parse(true, GLUED), ctx) == GluedCopy(ctx, 0) + GluedCopy(ctx, 1)
    ensures Solid(GluedCopy(ctx, 0))
  {
    GluedFirst();
    TooShort("");
    hide FirstSection;
    ParsePair(GLUED, Cut("", OPEN_LINE, INDENTED + MUSTACHE.close), Cut(INDENTED, MUSTACHE.close, ""));
    CopyMeans(ctx, 0);
    CopyMeans(ctx, 1);
    EnvSolid(ctx.nodes[0].envars);
    ReindentSolid(EnvText(ctx.nodes[0].envars), "  ");
    SolidBehind("  ", Reindent(EnvText(ctx.nodes[0].envars), "  "));
    hide Parse, SpanMeaning, NodeScope, GlobalScope, Reindent, EnvText, Solid;
    NoText(GlobalScope(ctx));
    TwoCopies(ctx);
  }

  lemma TwoCopies(ctx: Tctx)
    requires |ctx.nodes| == 2 && SpanMeaning("", GlobalScope(ctx)) == ""
    ensures Meaning([Plain(""), Section(OPEN_LINE, INDENTED, MUSTACHE.close), Plain("")], ctx)
         == SpanMeaning(INDENTED, NodeScope(ctx, 0)) + SpanMeaning(INDENTED, NodeScope(ctx, 1))
  {
    hide SpanMeaning, NodeScope, GlobalScope;
    var last := [Plain("")];
    MeaningPair("", OPEN_LINE, INDENTED, MUSTACHE.close, last, ctx);
    assert last[1..] == [] && Meaning(last, ctx) == "" + "";
    var a, b := SpanMeaning(INDENTED, NodeScope(ctx, 0)), SpanMeaning(INDENTED, NodeScope(ctx, 1));
    assert EachNode(INDENTED, ctx, 1) == EachNode(INDENTED, ctx, 0) + a;
    assert EachNode(INDENTED, ctx, 2) == EachNode(INDENTED, ctx, 1) + b;
    assert "" + a + b == a + b && "" + (a + b + "") == a + b;
  }

  /** For small limits the sanitizer's fallback is longer than the limit, and does not survive a second pass
      (Sanitize.SanitizedFits, Sanitize.SanitizedIdempotent). */
  lemma FallbackTooLong()
    ensures |Sanitized("", 0)| == 4 && |Sanitized("", 3)| == 4
    ensures Sanitized(Sanitized("", 3), 3) != Sanitized("", 3)
  {
    SanitizedIdempotent("", 3);
  }

  /** The buffer's growth never gets to one byte more than 2^63 (StrBuf.GrowthEnds). */
  lemma GrowthStuck()
    ensures forall k: nat :: Grown(256, k) < HALF + 1
  {
    GrowthEnds(0, HALF + 1);
    assert 256 * Pow2(0) == 256;
  }

  /** No assignments behind an entry of the template's own: no list any more (EnvBlock.BlockAppended). */
  lemma EmptyAppended()
    ensures ReadBlock(EnvText(Entries([Pair("A", "1")])) + "\n" + EnvText(Entries([]))) == None
  {
    var own := [Pair("A", "1")];
    assert PlainName("A") && Printable("1");
    hide EnvText, ReadBlock, Entries, PlainName, Printable;
    BlockAppended(own, []);
  }

  // ------------------------------------------------------------- the pre-position protocol

  /** A message whose job name is no text is dropped without an answer (Preposition.HandledOnce). */
  lemma Unanswered(session: string, made: bool, exits: nat -> int)
    ensures Handled(session, [Num(0)], made, exits) == (None, [])
  {
  }

  /** Whatever answers come in, a second pre-position under the name of one in flight waits for ever
      (Hnp.OnlyFirstCounts, Hnp.ToldExactly). */
  lemma SecondNeverCounts(acks: seq<Ack>, n: nat)
    requires n > 0
    ensures var t := NewTrack("job", true); ReceivedAll([t, t], acks, n).0[1] == t
  {
    var t := NewTrack("job", true);
    OnlyFirstCounts([t, t], acks, n, 1);
  }

  /** Port 70000 is exported as it is and announced as 4464 (Hnp.AnnouncedPort). */
  lemma OtherPort(uri: Option<string>, nspace: string)
    ensures OrderFor(uri, 70000, nspace).port == 4464
  {
  }

  // ------------------------------------------------------------------ the built-in template

  /** Empty text does not compile into itself; a carriage return, a NUL and, where they count, a trigraph do not
      survive (Embed.EmbedRoundTrip). */
  lemma NotEmbedded(text: string, trigraphs: bool)
    requires text in {"", "\r", "\0"} || (trigraphs && text == "??=")
    ensures Compiled(HEAD + Rows(TemplateLines(Universal(text))), trigraphs) != Some(WithNewline(text))
  {
    EmbedRoundTrip(text, trigraphs);
    hide Compiled, Universal, TemplateLines, Rows;
    if text == "??=" {
      assert HasTrigraph("??=");
    }
  }
}
