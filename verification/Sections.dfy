/** Sections, the standalone-tag rule, and the renderer (plm_k8s_template.c:401-405, 677-836). */
module Sections {
  import opened Strings
  import opened StrBuf
  import opened Tags
  import opened EnvBlock
  import opened Spans

  /** A pair of section delimiters. */
  datatype Delims = Delims(open: string, close: string)

  const MUSTACHE := Delims("{{#nodes}}", "{{/nodes}}")
  const JINJA := Delims("{% for node in nodes %}", "{% endfor %}")

  predicate IsForm(d: Delims) {
    d == MUSTACHE || d == JINJA
  }

  function OtherForm(d: Delims): (e: Delims)
    ensures IsForm(e) && e != d
  {
    if d == MUSTACHE then JINJA else MUSTACHE
  }

  /** A delimiter begins and ends with a brace, so it neither begins nor ends with a blank. */
  predicate Braced(tag: string) {
    |tag| > 0 && tag[0] == '{' && tag[|tag| - 1] == '}'
  }

  lemma FormsBraced(d: Delims)
    requires IsForm(d)
    ensures Braced(d.open) && Braced(d.close)
  {
    assert MUSTACHE.open[9] == '}' && MUSTACHE.close[9] == '}';
    assert JINJA.open[22] == '}' && JINJA.close[11] == '}';
  }

  lemma FormText(d: Delims)
    requires IsForm(d)
    ensures d.open[0] == d.close[0] == '{' && '\n' !in d.open && '\n' !in d.close && |d.open| > 1
    ensures d.open[1] == if d == MUSTACHE then '{' else '%'
  {
  }

  lemma SameOpening(s: string, n: nat, d: Delims, e: Delims)
    requires IsForm(d) && IsForm(e) && At(s, n, d.open) && At(s, n, e.open)
    ensures d == e
  {
    FormText(d);
    FormText(e);
    CharAt(s, n, d.open);
    CharAt(s, n, e.open);
    assert s[n + 1] == d.open[1] == e.open[1];
  }

  datatype Opening = Opening(pos: nat, form: Delims)

  /** The leftmost opening tag at or after `from`. */
  function FirstOpening(t: string, from: nat): (r: Option<Opening>)
    requires from <= |t|
    ensures r.Some? ==> from <= r.value.pos && IsForm(r.value.form) && At(t, r.value.pos, r.value.form.open)
    ensures forall d, i :: IsForm(d) && from <= i <= |t| && (r.Some? ==> i < r.value.pos) ==> !At(t, i, d.open)
  {
    var m, j := Find(t, from, MUSTACHE.open), Find(t, from, JINJA.open);
    if m.Some? && (j.None? || m.value <= j.value) then Some(Opening(m.value, MUSTACHE))
    else if j.Some? then Some(Opening(j.value, JINJA))
    else None
  }

  method FindSectionStart(t: string, from: nat) returns (best: Option<Opening>)
    requires from <= |t|
    ensures best == FirstOpening(t, from)
  {
    best := None;
    var forms := [MUSTACHE, JINJA];
    for i := 0 to |forms|
      invariant i == 0 ==> best == None
      invariant i == 1 ==> best == (var m := Find(t, from, MUSTACHE.open);
                                    if m.Some? then Some(Opening(m.value, MUSTACHE)) else None)
      invariant i == 2 ==> best == FirstOpening(t, from)
    {
      var p := Find(t, from, forms[i].open);
      if p.Some? && (best.None? || p.value < best.value.pos) {
        best := Some(Opening(p.value, forms[i]));
      }
    }
  }

  // ------------------------------------------------------------ meaning: cutting

  function TrailingBlanks(s: string): (k: nat)
    ensures k <= |s| && forall i :: |s| - k <= i < |s| ==> IsBlank(s[i])
    ensures k < |s| ==> !IsBlank(s[|s| - k - 1])
  {
    if s != "" && IsBlank(s[|s| - 1]) then TrailingBlanks(s[..|s| - 1]) + 1 else 0
  }

  function LeadingBlanks(s: string): (k: nat)
    ensures k <= |s| && forall i :: 0 <= i < k ==> IsBlank(s[i])
    ensures k < |s| ==> !IsBlank(s[k])
  {
    if s != "" && IsBlank(s[0]) then LeadingBlanks(s[1..]) + 1 else 0
  }

  /** Only blanks stand between the line's start and the end of `pre`; `bol`: `pre` starts a line. */
  predicate LineBegins(bol: bool, pre: string) {
    var k := |pre| - TrailingBlanks(pre);
    if k == 0 then bol else pre[k - 1] == '\n'
  }

  /** Only blanks stand between the start of `post` and the end of its line. */
  predicate LineEnds(post: string) {
    var h := LeadingBlanks(post);
    h == |post| || post[h] == '\n'
  }

  /** What a standalone tag takes with it on its right: the blanks and the line break, if there is one. */
  function Swallowed(post: string): (n: nat)
    ensures n <= |post|
  {
    var h := LeadingBlanks(post);
    if h < |post| && post[h] == '\n' then h + 1 else h
  }

  datatype Cut = Cut(before: string, region: string, after: string)

  /** How many characters a section tag takes with it on either side: its whole line if it stands alone
      there, nothing otherwise. */
  function Widths(bol: bool, pre: string, post: string): (w: (nat, nat))
    ensures w.0 <= |pre| && w.1 <= |post|
  {
    if LineBegins(bol, pre) && LineEnds(post) then (TrailingBlanks(pre), Swallowed(post)) else (0, 0)
  }

  function CutTag(bol: bool, pre: string, tag: string, post: string): (c: Cut)
    ensures |c.after| <= |post|
  {
    var (l, r) := Widths(bol, pre, post);
    Cut(pre[..|pre| - l], pre[|pre| - l..] + tag + post[..r], post[r..])
  }

  datatype Block = Plain(text: string) | Section(opener: string, body: string, closer: string)

  /** The cuts around a section whose opening tag stands at `i`, if it is closed. */
  function SectionFrom(bol: bool, t: string, i: nat, d: Delims): (r: Option<(Cut, Cut)>)
    requires At(t, i, d.open) && |d.open| > 0
    ensures r.Some? ==> |r.value.1.after| < |t|
  {
    var opener := CutTag(bol, t[..i], d.open, t[i + |d.open|..]);
    var j := Find(opener.after, 0, d.close);
    if j.None? then None
    else
      Some((opener, CutTag(EndsInNewline(opener.region), opener.after[..j.value], d.close,
                           opener.after[j.value + |d.close|..])))
  }

  /** Splits off the first section, if it is terminated: the cuts around its two tags. */
  function FirstSection(bol: bool, t: string): (r: Option<(Cut, Cut)>)
    ensures r.Some? ==> |r.value.1.after| < |t|
  {
    var o := FirstOpening(t, 0);
    if o.None? then None else SectionFrom(bol, t, o.value.pos, o.value.form)
  }

  /** A template is plain text and sections; once the first opening tag left is not closed by its own form, all the
      rest is plain. */
  function Parse(bol: bool, t: string): (bs: seq<Block>)
    ensures bs != []
    decreases |t|
  {
    var s := FirstSection(bol, t);
    if s.None? then [Plain(t)]
    else
      var (opener, closer) := s.value;
      [Plain(opener.before), Section(opener.region, closer.before, closer.region)]
        + Parse(EndsInNewline(closer.region), closer.after)
  }

  // --------------------------------------------------------- meaning: evaluation

  function NodeNames(ctx: Tctx): seq<string> {
    seq(|ctx.nodes|, i requires 0 <= i < |ctx.nodes| => ctx.nodes[i].node)
  }

  function NodePairs(ctx: Tctx): seq<string> {
    seq(|ctx.nodes|, i requires 0 <= i < |ctx.nodes| => ctx.nodes[i].node + ":" + ctx.nodes[i].rank)
  }

  function GlobalScope(ctx: Tctx): (s: Scope)
    ensures s.Valid()
  {
    Scope(ctx, None, EnvText(ctx.commonEnvars), "", Join(NodeNames(ctx), ","), Join(NodePairs(ctx), ","))
  }

  function NodeScope(ctx: Tctx, i: nat): (s: Scope)
    requires i < |ctx.nodes|
    ensures s.Valid()
  {
    GlobalScope(ctx).(index := Some(i), nodeEnv := EnvText(ctx.nodes[i].envars))
  }

  /** A section body, once for each of the first `n` nodes, in node order. */
  ghost function EachNode(body: string, ctx: Tctx, n: nat): string
    requires n <= |ctx.nodes|
  {
    if n == 0 then "" else EachNode(body, ctx, n - 1) + SpanMeaning(body, NodeScope(ctx, n - 1))
  }

  ghost function BlockMeaning(b: Block, ctx: Tctx): string {
    match b
    case Plain(text) => SpanMeaning(text, GlobalScope(ctx))
    case Section(_, body, _) => EachNode(body, ctx, |ctx.nodes|)
  }

  ghost function Meaning(bs: seq<Block>, ctx: Tctx): string {
    if bs == [] then "" else BlockMeaning(bs[0], ctx) + Meaning(bs[1..], ctx)
  }

  // ---------------------------------------------------------- facts about parsing

  /** The template text a parse came from. */
  function Unparse(bs: seq<Block>): string {
    if bs == [] then ""
    else (match bs[0] case Plain(text) => text case Section(o, b, c) => o + b + c) + Unparse(bs[1..])
  }

  /** What follows `s` starts a line, if what `s` follows does. */
  predicate StartsLines(s: string) {
    s == "" || EndsInNewline(s)
  }

  /** The blanks, then the tag, then blanks and at most one line break; a lone tag when not standalone. */
  ghost predicate IsRegion(region: string, tag: string) {
    exists l: string, r: string ::
      AllBlank(l) && AllBlank(r) && (region == l + tag + r || region == l + tag + r + "\n")
  }

  lemma RegionWithBreak(l: string, tag: string, r: string)
    requires AllBlank(l) && AllBlank(r)
    ensures IsRegion(l + tag + (r + "\n"), tag)
  {
    assert l + tag + (r + "\n") == l + tag + r + "\n";
  }

  lemma CutRegion(bol: bool, pre: string, tag: string, post: string)
    ensures IsRegion(CutTag(bol, pre, tag, post).region, tag)
  {
    hide LineBegins, LineEnds, IsRegion;
    var (l, r) := Widths(bol, pre, post);
    var left, right := pre[|pre| - l..], post[..r];
    assert AllBlank(left);
    if r > 0 && post[r - 1] == '\n' {
      var blanks := post[..r - 1];
      assert AllBlank(blanks);
      RegionWithBreak(left, tag, blanks);
      assert right == blanks + "\n";
    } else {
      assert AllBlank(right);
      RegionNoBreak(left, tag, right);
    }
  }

  lemma CutTaken(bol: bool, pre: string, tag: string, post: string)
    requires Braced(tag)
    ensures var c := CutTag(bol, pre, tag, post); Taken(bol, c.before, c.region, tag, c.after)
  {
    CutRegion(bol, pre, tag, post);
    hide IsRegion;
    var (l, r) := Widths(bol, pre, post);
    if (l, r) == (0, 0) {
      assert pre[|pre|..] == "" == post[..0] && "" + tag + "" == tag;
    } else {
      LineTaken(bol, pre, tag, post);
    }
  }

  lemma LineTaken(bol: bool, pre: string, tag: string, post: string)
    requires Widths(bol, pre, post) != (0, 0) && tag != ""
    ensures var c := CutTag(bol, pre, tag, post);
            && c.region != tag && StartsLines(c.before) && (c.before == "" ==> bol)
            && (EndsInNewline(c.region) || c.after == "")
  {
    var (l, r) := Widths(bol, pre, post);
    var c := CutTag(bol, pre, tag, post);
    assert |c.region| == l + |tag| + r;
    assert r > 0 ==> c.region[|c.region| - 1] == post[r - 1];
    assert c.before != "" ==> c.before[|c.before| - 1] == pre[|pre| - l - 1];
  }

  lemma RegionNoBreak(l: string, tag: string, r: string)
    requires AllBlank(l) && AllBlank(r)
    ensures IsRegion(l + tag + r, tag)
  {
  }

  lemma CutParts(bol: bool, t: string, i: nat, tag: string)
    requires At(t, i, tag)
    ensures var c := CutTag(bol, t[..i], tag, t[i + |tag|..]); c.before + c.region + c.after == t
  {
    hide Widths;
    var pre, post := t[..i], t[i + |tag|..];
    var (l, r) := Widths(bol, pre, post);
    Widened(t, i - l, i, i + |tag|, i + |tag| + r);
  }

  lemma Widened(t: string, p: nat, o: nat, e: nat, q: nat)
    requires p <= o <= e <= q <= |t|
    ensures t[..o][..p] + (t[..o][p..] + t[o..e] + t[e..][..q - e]) + t[e..][q - e..] == t
  {
    assert t[..o][p..] == t[p..o] && t[e..][..q - e] == t[e..q] && t[e..][q - e..] == t[q..];
    assert t[..o][..p] + (t[p..o] + t[o..e] + t[e..q]) + t[q..] == t;
  }

  lemma Regroup(t: string, a: string, b: string, u: string, c: string, d: string, e: string)
    ensures t == a + b + u && u == c + d + e ==> t == a + (b + c + d + e)
  {
    assert a + b + (c + d + e) == a + (b + c + d + e);
  }

  lemma SectionParts(bol: bool, t: string, i: nat, d: Delims)
    requires At(t, i, d.open) && |d.open| > 0 && SectionFrom(bol, t, i, d).Some?
    ensures var (o, c) := SectionFrom(bol, t, i, d).value;
            t == o.before + (o.region + c.before + c.region + c.after)
  {
    hide CutTag;
    var o := CutTag(bol, t[..i], d.open, t[i + |d.open|..]);
    CutParts(bol, t, i, d.open);
    var j := Find(o.after, 0, d.close).value;
    CutParts(EndsInNewline(o.region), o.after, j, d.close);
    var c := CutTag(EndsInNewline(o.region), o.after[..j], d.close, o.after[j + |d.close|..]);
    Regroup(t, o.before, o.region, o.after, c.before, c.region, c.after);
  }

  /** Spans, bodies and tag regions partition the template. */
  lemma {:induction false} ParsePartition(bol: bool, t: string)
    ensures Unparse(Parse(bol, t)) == t
    decreases |t|
  {
    if FirstSection(bol, t).None? {
      assert Parse(bol, t)[1..] == [];
      assert t + "" == t;
    } else {
      var (o, c) := FirstSection(bol, t).value;
      var first := FirstOpening(t, 0).value;
      SectionParts(bol, t, first.pos, first.form);
      ParsePartition(EndsInNewline(c.region), c.after);
      UnparsePair(o.before, o.region, c.before, c.region, Parse(EndsInNewline(c.region), c.after));
    }
  }

  lemma UnparsePair(text: string, o: string, b: string, c: string, rest: seq<Block>)
    ensures Unparse([Plain(text), Section(o, b, c)] + rest) == text + (o + b + c + Unparse(rest))
  {
    var bs := [Plain(text), Section(o, b, c)] + rest;
    assert bs[1..] == [Section(o, b, c)] + rest && bs[1..][1..] == rest;
  }

  ghost predicate NoTag(s: string, tag: string) {
    forall i: nat :: !At(s, i, tag)
  }

  /** The opening tag that comes first in `text`, if there is one, is never closed by its own form. */
  ghost predicate Unterminated(text: string) {
    var o := FirstOpening(text, 0);
    o.Some? ==> NoTag(text[o.value.pos + |o.value.form.open|..], o.value.form.close)
  }

  /** What is dropped with a tag: its whole line, if the tag stands alone on it; otherwise the tag and nothing
      else. `before` and `after` is the text left on either side, `bol`: `before` starts a line. */
  ghost predicate Taken(bol: bool, before: string, region: string, tag: string, after: string) {
    if region == tag then LineBegins(bol, before) && LineEnds(after) ==> TrailingBlanks(before) == 0 && after == ""
    else
      && IsRegion(region, tag)
      && StartsLines(before) && (before == "" ==> bol)
      && (EndsInNewline(region) || after == "")
  }

  /** The section `b` behind the text `before`, and in front of `rest`. */
  ghost predicate ProperSection(bol: bool, before: string, b: Block, rest: string) {
    && b.Section?
    && exists d: Delims ::
         && IsForm(d)
         && Taken(bol, before, b.opener, d.open, b.body + (b.closer + rest))
         && Taken(EndsInNewline(b.opener), b.body, b.closer, d.close, rest)
         && NoTag(b.body, d.close)
  }

  /** Plain text and sections alternate; text before a section holds no opening tag, a body ends at its
      first closing tag, only the tags are dropped, and the lines of those that stand alone on theirs, and in the
      final text the first opening tag is not closed by its own form. */
  ghost predicate Proper(bol: bool, bs: seq<Block>)
    decreases |bs|
  {
    if |bs| == 1 then bs[0].Plain? && Unterminated(bs[0].text)
    else
      && |bs| >= 3
      && bs[0].Plain? && (forall d: Delims :: IsForm(d) ==> NoTag(bs[0].text, d.open))
      && ProperSection(bol, bs[0].text, bs[1], Unparse(bs[2..]))
      && Proper(EndsInNewline(bs[1].closer), bs[2..])
  }

  /** A closing tag never starts inside what a standalone opening tag swallows. */
  lemma CloseAfterSwallowed(bol: bool, pre: string, tag: string, post: string, close: string)
    requires Braced(close)
    ensures var c := CutTag(bol, pre, tag, post);
            c.after == post[|post| - |c.after|..]
            && forall k: nat :: At(post, k, close) ==> |post| - |c.after| <= k
  {
    forall k: nat | At(post, k, close)
      ensures Swallowed(post) <= k
    {
      CharAt(post, k, close);
      assert post[k + 0] == '{';
    }
  }

  lemma NoTagPrefix(s: string, n: nat, tag: string)
    requires n <= |s| && forall i: nat :: i < n ==> !At(s, i, tag)
    requires tag != ""
    ensures forall m: nat :: m <= n ==> NoTag(s[..m], tag)
  {
    forall m: nat, i: nat | m <= n
      ensures !At(s[..m], i, tag)
    {
      if At(s[..m], i, tag) {
        assert s[..m][i..i + |tag|] == s[i..i + |tag|];
        assert At(s, i, tag);
      }
    }
  }

  lemma UnclosedTail(bol: bool, pre: string, tag: string, post: string, close: string)
    requires Braced(close) && Find(CutTag(bol, pre, tag, post).after, 0, close).None?
    ensures NoTag(post, close)
  {
    var after := CutTag(bol, pre, tag, post).after;
    var n := |post| - |after|;
    CloseAfterSwallowed(bol, pre, tag, post, close);
    forall k: nat
      ensures !At(post, k, close)
    {
      if At(post, k, close) {
        AtShift(post, n, k - n, close);
      }
    }
  }

  lemma CutBefore(bol: bool, s: string, n: nat, tag: string, post: string, w: string)
    requires n <= |s| && w != "" && forall i: nat :: i < n ==> !At(s, i, w)
    ensures NoTag(CutTag(bol, s[..n], tag, post).before, w)
  {
    var before := CutTag(bol, s[..n], tag, post).before;
    NoTagPrefix(s, n, w);
    assert before == s[..|before|];
  }

  lemma SectionFromProper(bol: bool, t: string, i: nat, d: Delims)
    requires At(t, i, d.open) && IsForm(d) && Braced(d.open) && Braced(d.close)
    requires forall e: Delims, k: nat :: IsForm(e) && k < i ==> !At(t, k, e.open)
    ensures var s := SectionFrom(bol, t, i, d);
            if s.None? then NoTag(t[i + |d.open|..], d.close)
            else
              var (o, c) := s.value;
              && (forall e: Delims :: IsForm(e) ==> NoTag(o.before, e.open))
              && ProperSection(bol, o.before, Section(o.region, c.before, c.region), c.after)
              && !NoTag(t[i + |d.open|..], d.close)
  {
    hide CutTag, Taken, NoTag, ProperSection, IsForm;
    var post := t[i + |d.open|..];
    var o := CutTag(bol, t[..i], d.open, post);
    var j := Find(o.after, 0, d.close);
    if j.None? {
      UnclosedTail(bol, t[..i], d.open, post, d.close);
    } else {
      forall e: Delims | IsForm(e)
        ensures NoTag(o.before, e.open)
      {
        FormsBraced(e);
        CutBefore(bol, t, i, d.open, post, e.open);
      }
      var body, tail := o.after[..j.value], o.after[j.value + |d.close|..];
      var c := CutTag(EndsInNewline(o.region), body, d.close, tail);
      CutTaken(bol, t[..i], d.open, post);
      CutTaken(EndsInNewline(o.region), body, d.close, tail);
      CutParts(EndsInNewline(o.region), o.after, j.value, d.close);
      CutBefore(EndsInNewline(o.region), o.after, j.value, d.close, tail, d.close);
      ClosedTail(bol, t[..i], d.open, post, d.close, j.value);
      Regrouped(c.before, c.region, c.after);
      IsProper(bol, o.before, Section(o.region, c.before, c.region), c.after, d);
    }
  }

  lemma Regrouped(a: string, b: string, c: string)
    ensures a + b + c == a + (b + c)
  {
  }

  lemma ClosedTail(bol: bool, pre: string, tag: string, post: string, close: string, j: nat)
    requires At(CutTag(bol, pre, tag, post).after, j, close)
    ensures !NoTag(post, close)
  {
    var c := CutTag(bol, pre, tag, post);
    var n := |post| - |c.after|;
    assert c.after == post[n..];
    AtShift(post, n, j, close);
  }

  lemma IsProper(bol: bool, before: string, b: Block, rest: string, d: Delims)
    requires b.Section? && IsForm(d) && NoTag(b.body, d.close)
    requires Taken(bol, before, b.opener, d.open, b.body + (b.closer + rest))
    requires Taken(EndsInNewline(b.opener), b.body, b.closer, d.close, rest)
    ensures ProperSection(bol, before, b, rest)
  {
  }

  /** Every template, terminated or not, is parsed properly. */
  lemma {:induction false} ParseProper(bol: bool, t: string)
    ensures Proper(bol, Parse(bol, t))
    decreases |t|
  {
    hide SectionFrom, ProperSection, NoTag;
    var first := FirstOpening(t, 0);
    if first.Some? {
      FormsBraced(first.value.form);
      SectionFromProper(bol, t, first.value.pos, first.value.form);
    }
    if FirstSection(bol, t).Some? {
      var (o, c) := FirstSection(bol, t).value;
      ParseProper(EndsInNewline(c.region), c.after);
      ParsePartition(EndsInNewline(c.region), c.after);
      assert Parse(bol, t)[2..] == Parse(EndsInNewline(c.region), c.after);
    }
  }

  // ------------------------------------------------------- which sections are expanded

  /** A section of that form opens at `i` and is closed by its own form. */
  ghost predicate Closed(t: string, i: nat, d: Delims) {
    At(t, i, d.open) && !NoTag(t[i + |d.open|..], d.close)
  }

  /** In what is left of a template, a section is split off exactly if the first opening tag is closed by its own
      form. */
  lemma SectionSplit(bol: bool, t: string)
    ensures FirstSection(bol, t).Some?
       <==> FirstOpening(t, 0).Some? && Closed(t, FirstOpening(t, 0).value.pos, FirstOpening(t, 0).value.form)
  {
    var first := FirstOpening(t, 0);
    if first.Some? {
      FormsBraced(first.value.form);
      SectionFromProper(bol, t, first.value.pos, first.value.form);
      hide SectionFrom, NoTag, ProperSection;
    }
  }

  /** Where the text `t` holds a closed section but none is split off, the first opening tag is of the other form,
      stands before it and is never closed; and only there. */
  lemma HiddenExactly(bol: bool, t: string)
    ensures FirstSection(bol, t).None? && (exists i: nat, d: Delims :: IsForm(d) && Closed(t, i, d))
       <==> FirstOpening(t, 0).Some? && Hides(t, FirstOpening(t, 0).value)
  {
    SectionSplit(bol, t);
    hide FirstSection, FirstOpening, IsForm, NoTag, OtherForm;
    var first := FirstOpening(t, 0);
    if exists i: nat, d: Delims :: IsForm(d) && Closed(t, i, d) {
      var i: nat, d: Delims :| IsForm(d) && Closed(t, i, d);
      BehindFirst(t, i, d);
    }
  }

  /** The opening tag is never closed, and a section of the other form that is closed opens behind it. */
  ghost predicate Hides(t: string, o: Opening) {
    && o.pos + |o.form.open| <= |t| && NoTag(t[o.pos + |o.form.open|..], o.form.close)
    && exists i: nat :: i > o.pos && Closed(t, i, OtherForm(o.form))
  }

  lemma {:induction false} LastPlain(bol: bool, bs: seq<Block>)
    requires Proper(bol, bs)
    ensures bs != [] && bs[|bs| - 1].Plain? && Unterminated(bs[|bs| - 1].text)
    decreases |bs|
  {
    hide Taken, NoTag, Unterminated;
    if |bs| > 1 {
      LastPlain(EndsInNewline(bs[1].closer), bs[2..]);
    }
  }

  /** The last text of a parse, behind all its sections. */
  function LastText(bol: bool, t: string): string {
    var bs := Parse(bol, t);
    match bs[|bs| - 1]
    case Plain(text) => text
    case Section(_, _, _) => ""
  }

  lemma LastBlock(bol: bool, t: string)
    ensures var bs := Parse(bol, t); bs[|bs| - 1] == Plain(LastText(bol, t))
    ensures Unterminated(LastText(bol, t))
  {
    ParseProper(bol, t);
    hide Parse, Proper, Unterminated;
    LastPlain(bol, Parse(bol, t));
  }

  /** What the parse of any template leaves as its last text holds a closed section exactly if its first opening tag
      is never closed and the section is of the other form, behind it. */
  lemma LeftUnexpanded(bol: bool, t: string)
    ensures var last := LastText(bol, t);
            ((exists i: nat, d: Delims :: IsForm(d) && Closed(last, i, d))
             <==> FirstOpening(last, 0).Some? && Hides(last, FirstOpening(last, 0).value))
  {
    LastBlock(bol, t);
    hide LastText, Closed, Hides, NoTag, FirstSection, FirstOpening;
    var last := LastText(bol, t);
    HiddenExactly(bol, last);
    SectionSplit(bol, last);
    if FirstOpening(last, 0).Some? {
      NotClosed(last);
    }
  }

  lemma NotClosed(t: string)
    requires Unterminated(t) && FirstOpening(t, 0).Some?
    ensures !Closed(t, FirstOpening(t, 0).value.pos, FirstOpening(t, 0).value.form)
  {
  }

  /** A closed section is the first to open, or behind it; and of the other form if the first is never closed. */
  lemma BehindFirst(t: string, i: nat, d: Delims)
    requires IsForm(d) && Closed(t, i, d)
    ensures var first := FirstOpening(t, 0);
            && first.Some? && first.value.pos <= i && first.value.pos + |first.value.form.open| <= |t|
            && (Closed(t, first.value.pos, first.value.form)
                || (i > first.value.pos && d == OtherForm(first.value.form)))
  {
    hide FirstOpening, NoTag;
    var first := FirstOpening(t, 0).value;
    if i == first.pos {
      SameOpening(t, i, d, first.form);
    } else if d == first.form {
      var n, m := first.pos + |d.open|, i + |d.open|;
      LaterClose(t, n, m, d.close);
    }
  }

  lemma LaterClose(t: string, n: nat, m: nat, close: string)
    requires n <= m <= |t| && !NoTag(t[m..], close)
    ensures !NoTag(t[n..], close)
  {
    var j: nat :| At(t[m..], j, close);
    AtShift(t, m, j, close);
    AtShift(t, n, m + j - n, close);
  }

  // ------------------------------------------------------- the index-based renderer

  /** The character at `i` starts a line of `text`. */
  predicate StartsLine(text: string, i: nat)
    requires i <= |text|
  {
    i == 0 || text[i - 1] == '\n'
  }

  /** No run of blanks reaches across `i` from the right: spans begin only at such places. */
  predicate Barrier(text: string, i: nat)
    requires i <= |text|
  {
    i == 0 || i == |text| || !IsBlank(text[i - 1])
  }

  /** What widening does to a tag at text[open..close]. */
  function WidenedAt(text: string, open: nat, close: nat): (r: (nat, nat))
    requires open <= close <= |text|
    ensures r.0 <= open && close <= r.1 <= |text|
  {
    var p := open - TrailingBlanks(text[..open]);
    if StartsLine(text, p) && LineEnds(text[close..]) then (p, close + Swallowed(text[close..])) else (open, close)
  }

  /** The line from `from` to `end`, without its line break, holds nothing but spaces and tabs beside
      text[open..close]. */
  ghost predicate AloneBetween(text: string, from: nat, open: nat, close: nat, end: nat) {
    && from <= open <= close <= end <= |text|
    && (from == 0 || text[from - 1] == '\n') && (end == |text| || text[end] == '\n')
    && (forall i :: from <= i < open ==> text[i] == ' ' || text[i] == '\t')
    && (forall i :: close <= i < end ==> text[i] == ' ' || text[i] == '\t')
  }

  method WidenStandalone(text: string, open: nat, close: nat) returns (o: nat, c: nat)
    requires open <= close <= |text|
    ensures (o, c) == WidenedAt(text, open, close)
  {
    var p := open;
    while p > 0 && IsBlank(text[p - 1])
      invariant 0 <= p <= open
      invariant forall i :: p <= i < open ==> IsBlank(text[i])
    {
      p := p - 1;
    }
    assert p == open - TrailingBlanks(text[..open]);
    if p != 0 && text[p - 1] != '\n' {
      return open, close;
    }
    var q := close;
    while q < |text| && IsBlank(text[q])
      invariant close <= q <= |text|
      invariant forall i :: close <= i < q ==> IsBlank(text[i])
    {
      q := q + 1;
    }
    assert q == close + LeadingBlanks(text[close..]);
    if q < |text| && text[q] != '\n' {
      return open, close;
    }
    if q < |text| {
      q := q + 1;
    }
    return p, q;
  }

  /** The blanks on both sides of text[open..close], as far as they go. */
  lemma BlanksAround(text: string, open: nat, close: nat)
    requires open <= close <= |text|
    ensures var p, q := open - TrailingBlanks(text[..open]), close + LeadingBlanks(text[close..]);
            && (forall i :: p <= i < open || close <= i < q ==> text[i] == ' ' || text[i] == '\t')
            && (p > 0 ==> text[p - 1] != ' ' && text[p - 1] != '\t')
            && (q < |text| ==> text[q] != ' ' && text[q] != '\t')
  {
    var p, q := open - TrailingBlanks(text[..open]), close + LeadingBlanks(text[close..]);
    forall i | p <= i < open || close <= i < q
      ensures text[i] == ' ' || text[i] == '\t'
    {
      if i < open {
        assert text[..open][i] == text[i] && IsBlank(text[..open][i]);
      } else {
        assert text[close..][i - close] == text[i] && IsBlank(text[close..][i - close]);
      }
    }
    assert p > 0 ==> text[..open][p - 1] == text[p - 1];
    assert q < |text| ==> text[close..][q - close] == text[q];
  }

  /** A tag alone on its line takes that line with its break; any other tag takes nothing. */
  lemma WidenedAlone(text: string, open: nat, close: nat, from: nat, end: nat)
    requires open <= close <= |text|
    ensures AloneBetween(text, from, open, close, end) ==>
      WidenedAt(text, open, close) == (from, if end < |text| then end + 1 else end)
    ensures WidenedAt(text, open, close) == (open, close)
         || exists f: nat, e: nat :: AloneBetween(text, f, open, close, e)
  {
    BlanksAround(text, open, close);
    var p, q := open - TrailingBlanks(text[..open]), close + LeadingBlanks(text[close..]);
    LineEndsAt(text, close);
    hide TrailingBlanks, LeadingBlanks, LineEnds, Swallowed;
    if AloneBetween(text, from, open, close, end) {
      assert p == from && q == end by {
        SameEnds(text, open, close, p, q, from, end);
      }
    }
    if StartsLine(text, p) && LineEnds(text[close..]) {
      assert AloneBetween(text, p, open, close, q);
    }
  }

  lemma LineEndsAt(text: string, close: nat)
    requires close <= |text|
    ensures var q := close + LeadingBlanks(text[close..]);
            && q <= |text| && (LineEnds(text[close..]) <==> q == |text| || text[q] == '\n')
            && (LineEnds(text[close..]) ==>
                  close + Swallowed(text[close..]) == if q < |text| then q + 1 else q)
  {
    var q := close + LeadingBlanks(text[close..]);
    assert q < |text| ==> text[close..][q - close] == text[q];
  }

  lemma SameEnds(text: string, open: nat, close: nat, p: nat, q: nat, from: nat, end: nat)
    requires p <= open <= close <= q <= |text| && AloneBetween(text, from, open, close, end)
    requires forall i :: p <= i < open || close <= i < q ==> text[i] == ' ' || text[i] == '\t'
    requires p > 0 ==> text[p - 1] != ' ' && text[p - 1] != '\t'
    requires q < |text| ==> text[q] != ' ' && text[q] != '\t'
    ensures p == from && q == end
  {
    assert from > 0 ==> text[from - 1] == '\n';
    assert end < |text| ==> text[end] == '\n';
  }

  lemma BlanksBehindBarrier(text: string, c: nat, o: nat)
    requires c <= o < |text| && Barrier(text, c)
    ensures TrailingBlanks(text[..o]) == TrailingBlanks(text[c..o]) <= o - c
  {
    var k := TrailingBlanks(text[..o]);
    assert k <= o - c;
    assert forall i :: 0 <= i < o - c ==> text[c..o][i] == text[c + i];
  }

  lemma WidthsAt(text: string, c: nat, o: nat, e: nat)
    requires c <= o < e <= |text| && Barrier(text, c)
    ensures var (p, q) := WidenedAt(text, o, e);
            c <= p && Widths(StartsLine(text, c), text[c..o], text[e..]) == (o - p, q - e)
  {
    BlanksBehindBarrier(text, c, o);
    hide TrailingBlanks, LineEnds, Swallowed, Barrier;
    var k := TrailingBlanks(text[..o]);
    assert o - c > k ==> text[c..o][o - c - k - 1] == text[o - k - 1];
  }

  /** Cutting on indices: behind a barrier, widening never runs past it, and the pieces it leaves are the
      pieces the parse cuts. */
  lemma CutAt(text: string, c: nat, o: nat, tag: string)
    requires c <= o && At(text, o, tag) && Barrier(text, c) && tag != ""
    ensures var (p, q) := WidenedAt(text, o, o + |tag|);
            var cut := CutTag(StartsLine(text, c), text[c..o], tag, text[o + |tag|..]);
            c <= p && cut == Cut(text[c..p], text[p..q], text[q..])
  {
    hide CutTag, Widths, WidenedAt, StartsLine, Barrier;
    var (p, q) := WidenedAt(text, o, o + |tag|);
    WidthsAt(text, c, o, o + |tag|);
    CutOfWidths(text, StartsLine(text, c), c, o, tag, o - p, q - o - |tag|);
  }

  lemma CutOfWidths(text: string, bol: bool, c: nat, o: nat, tag: string, l: nat, r: nat)
    requires c + l <= o && At(text, o, tag) && o + |tag| + r <= |text|
    requires Widths(bol, text[c..o], text[o + |tag|..]) == (l, r)
    ensures CutTag(bol, text[c..o], tag, text[o + |tag|..])
         == Cut(text[c..o - l], text[o - l..o + |tag| + r], text[o + |tag| + r..])
  {
    hide Widths;
    CutSlices(text, c, o, o + |tag|, tag, l, r);
  }

  lemma CutSlices(text: string, c: nat, o: nat, e: nat, tag: string, l: nat, r: nat)
    requires c + l <= o <= e && e + r <= |text| && text[o..e] == tag
    ensures var pre, post := text[c..o], text[e..];
            |pre| == o - c && pre[..o - c - l] == text[c..o - l] && post[r..] == text[e + r..]
            && pre[o - c - l..] + tag + post[..r] == text[o - l..e + r]
  {
    SubSlices(text, c, o, l, e, r);
    ThreeSlices(text, o - l, o, e, e + r);
  }

  lemma SubSlices(text: string, c: nat, o: nat, l: nat, e: nat, r: nat)
    requires c + l <= o <= e && e + r <= |text|
    ensures text[c..o][o - c - l..] == text[o - l..o] && text[c..o][..o - c - l] == text[c..o - l]
    ensures text[e..][..r] == text[e..e + r] && text[e..][r..] == text[e + r..]
  {
  }

  lemma ThreeSlices(text: string, p: nat, o: nat, e: nat, q: nat)
    requires p <= o <= e <= q <= |text|
    ensures text[p..o] + text[o..e] + text[e..q] == text[p..q]
  {
  }

  /** Behind a widened tag there is a barrier again. */
  lemma BarrierAfter(text: string, o: nat, tag: string)
    requires At(text, o, tag) && tag != "" && tag[|tag| - 1] == '}'
    ensures var (p, q) := WidenedAt(text, o, o + |tag|);
            Barrier(text, q) && StartsLine(text, q) == EndsInNewline(text[p..q])
  {
    CharAt(text, o, tag);
    assert text[o + (|tag| - 1)] == '}';
    var (p, q) := WidenedAt(text, o, o + |tag|);
    assert text[p..q][q - p - 1] == text[q - 1];
  }

  lemma FindShift(s: string, c: nat, k: nat, w: string)
    requires c + k <= |s|
    ensures var a, b := Find(s[c..], k, w), Find(s, c + k, w);
            a.Some? == b.Some? && (a.Some? ==> a.value + c == b.value)
  {
    hide Find;
    var a, b := Find(s[c..], k, w), Find(s, c + k, w);
    if a.Some? {
      AtShift(s, c, a.value, w);
      assert At(s, c + a.value, w);
    }
    if b.Some? {
      AtShift(s, c, b.value - c, w);
      assert At(s[c..], b.value - c, w);
    }
    if a.Some? && b.Some? {
      assert !(a.value + c < b.value) && !(b.value - c < a.value);
    }
  }

  lemma {:induction false} FindSkip(s: string, a: nat, b: nat, w: string)
    requires a <= b <= |s| && forall i :: a <= i < b ==> !At(s, i, w)
    ensures Find(s, a, w) == Find(s, b, w)
    decreases b - a
  {
    hide At;
    if a < b {
      FindSkip(s, a + 1, b, w);
    }
  }

  lemma OpeningShift(text: string, c: nat)
    requires c <= |text|
    ensures var a, b := FirstOpening(text[c..], 0), FirstOpening(text, c);
            a == if b.None? then None else Some(Opening(b.value.pos - c, b.value.form))
  {
    hide Find, At;
    FindShift(text, c, 0, MUSTACHE.open);
    FindShift(text, c, 0, JINJA.open);
  }

  lemma AtFirst(s: string, i: nat, w: string)
    requires w != ""
    ensures At(s, i, w) ==> i < |s| && s[i] == w[0]
  {
    if At(s, i, w) {
      assert s[i..i + |w|][0] == s[i];
    }
  }

  lemma SwallowedChar(post: string, k: nat)
    requires k < Swallowed(post)
    ensures IsBlank(post[k]) || post[k] == '\n'
  {
  }

  lemma WidenedEnd(text: string, open: nat, close: nat)
    requires open <= close <= |text|
    ensures WidenedAt(text, open, close).1 <= close + Swallowed(text[close..])
  {
    hide Swallowed, TrailingBlanks, LineEnds;
  }

  /** Widening the opener never hides the closing tag from the search. */
  lemma CloseShift(text: string, open: nat, tag: string, close: string)
    requires At(text, open, tag) && Braced(close)
    ensures var e := WidenedAt(text, open, open + |tag|).1;
            var a, b := Find(text[e..], 0, close), Find(text, open + |tag|, close);
            a.Some? == b.Some? && (a.Some? ==> a.value + e == b.value)
  {
    hide Find, Swallowed, WidenedAt;
    var n := open + |tag|;
    var e := WidenedAt(text, open, n).1;
    WidenedEnd(text, open, n);
    forall i | n <= i < e
      ensures !At(text, i, close)
    {
      SwallowedChar(text[n..], i - n);
      AtFirst(text, i, close);
    }
    FindSkip(text, n, e, close);
    FindShift(text, e, 0, close);
  }

  lemma AtEnd(text: string, i: nat, w: string)
    requires At(text, i, w)
    ensures i + |w| <= |text|
  {
  }

  /** In every round the indices are in order, so no length underflows; and the next round starts behind
      a barrier again. */
  lemma SectionOrder(text: string, c: nat, open: nat, d: Delims, close: nat)
    requires c <= open && At(text, open, d.open) && Barrier(text, c) && Braced(d.open) && Braced(d.close)
    requires Find(text, open + |d.open|, d.close) == Some(close)
    ensures var (o1, e1) := WidenedAt(text, open, open + |d.open|);
            var (o2, e2) := WidenedAt(text, close, close + |d.close|);
            c <= o1 <= open < e1 <= o2 <= close < e2 <= |text| && Barrier(text, e1) && Barrier(text, e2)
  {
    hide CutTag, WidenedAt, Find, StartsLine, At, EndsInNewline;
    AtEnd(text, open, d.open);
    AtEnd(text, close, d.close);
    CutAt(text, c, open, d.open);
    BarrierAfter(text, open, d.open);
    CloseShift(text, open, d.open, d.close);
    CutAt(text, WidenedAt(text, open, open + |d.open|).1, close, d.close);
    BarrierAfter(text, close, d.close);
  }

  /** A cut of the text behind `c`, by index. */
  lemma CutFrom(text: string, c: nat, o: nat, tag: string)
    requires c <= o && At(text, o, tag) && Barrier(text, c) && tag != ""
    ensures var (p, q) := WidenedAt(text, o, o + |tag|);
            c <= p && CutTag(StartsLine(text, c), text[c..][..o - c], tag, text[c..][o - c + |tag|..])
                      == Cut(text[c..p], text[p..q], text[q..])
  {
    hide CutTag, WidenedAt, StartsLine, Barrier;
    CutAt(text, c, o, tag);
    Around(text, c, o, |tag|);
  }

  lemma Around(text: string, c: nat, o: nat, n: nat)
    requires c <= o && o + n <= |text|
    ensures text[c..][..o - c] == text[c..o] && text[c..][o - c + n..] == text[o + n..]
  {
  }

  /** Cutting by index is cutting by meaning. */
  lemma SectionCuts(text: string, c: nat, open: nat, d: Delims, close: nat)
    requires c <= open && At(text, open, d.open) && Barrier(text, c) && Braced(d.open) && Braced(d.close)
    requires Find(text, open + |d.open|, d.close) == Some(close)
    requires At(text[c..], open - c, d.open)
    ensures var (o1, e1) := WidenedAt(text, open, open + |d.open|);
            var (o2, e2) := WidenedAt(text, close, close + |d.close|);
            c <= o1 <= e1 <= o2 <= e2 <= |text|
            && SectionFrom(StartsLine(text, c), text[c..], open - c, d)
               == Some((Cut(text[c..o1], text[o1..e1], text[e1..]), Cut(text[e1..o2], text[o2..e2], text[e2..])))
  {
    hide CutTag, WidenedAt, Find, StartsLine, Barrier, At, EndsInNewline;
    SectionOrder(text, c, open, d, close);
    AtEnd(text, open, d.open);
    AtEnd(text, close, d.close);
    CutFrom(text, c, open, d.open);
    BarrierAfter(text, open, d.open);
    CloseShift(text, open, d.open, d.close);
    CutFrom(text, WidenedAt(text, open, open + |d.open|).1, close, d.close);
  }

  lemma FirstSectionAt(text: string, c: nat, open: nat, d: Delims, close: nat)
    requires c <= |text| && Barrier(text, c)
    requires FirstOpening(text, c) == Some(Opening(open, d)) && Braced(d.open) && Braced(d.close)
    requires Find(text, open + |d.open|, d.close) == Some(close)
    ensures var (o1, e1) := WidenedAt(text, open, open + |d.open|);
            var (o2, e2) := WidenedAt(text, close, close + |d.close|);
            c <= o1 <= e1 <= o2 <= e2 <= |text|
            && FirstSection(StartsLine(text, c), text[c..])
               == Some((Cut(text[c..o1], text[o1..e1], text[e1..]), Cut(text[e1..o2], text[o2..e2], text[e2..])))
  {
    hide WidenedAt, Find, StartsLine, Barrier, At, SectionFrom, IsForm, Braced;
    AtEnd(text, open, d.open);
    AtEnd(text, close, d.close);
    OpeningShift(text, c);
    SectionCuts(text, c, open, d, close);
  }

  lemma ParseSection(text: string, c: nat, open: nat, d: Delims, close: nat)
    requires c <= |text| && Barrier(text, c)
    requires FirstOpening(text, c) == Some(Opening(open, d)) && Braced(d.open) && Braced(d.close)
    requires Find(text, open + |d.open|, d.close) == Some(close)
    ensures var (o1, e1) := WidenedAt(text, open, open + |d.open|);
            var (o2, e2) := WidenedAt(text, close, close + |d.close|);
            c <= o1 <= e1 <= o2 <= e2 <= |text|
            && Parse(StartsLine(text, c), text[c..])
               == [Plain(text[c..o1]), Section(text[o1..e1], text[e1..o2], text[o2..e2])]
                    + Parse(StartsLine(text, e2), text[e2..])
  {
    hide WidenedAt, Find, StartsLine, Barrier, At, EndsInNewline, FirstSection, FirstOpening, IsForm, Braced;
    AtEnd(text, open, d.open);
    AtEnd(text, close, d.close);
    FirstSectionAt(text, c, open, d, close);
    BarrierAfter(text, close, d.close) by {
      LastBrace(d.close);
    }
  }

  lemma LastBrace(tag: string)
    requires Braced(tag)
    ensures tag != "" && tag[|tag| - 1] == '}'
  {
  }

  /** What one round of the renderer is worth: the span before the section, then the body once per node. */
  lemma OutputSection(text: string, ctx: Tctx, now: string, c: nat, open: nat, d: Delims, close: nat)
    requires c <= |text| && Barrier(text, c)
    requires FirstOpening(text, c) == Some(Opening(open, d)) && Braced(d.open) && Braced(d.close)
    requires Find(text, open + |d.open|, d.close) == Some(close)
    ensures var (o1, e1) := WidenedAt(text, open, open + |d.open|);
            var (o2, e2) := WidenedAt(text, close, close + |d.close|);
            c <= o1 <= e1 <= o2 <= e2 <= |text|
            && Output(text, ctx, now, c)
               == Output(text, ctx, now + SpanMeaning(text[c..o1], GlobalScope(ctx))
                                        + EachNode(text[e1..o2], ctx, |ctx.nodes|), e2)
  {
    hide Meaning, WidenedAt, Find, StartsLine, Barrier, At, SpanMeaning, EachNode, GlobalScope, IsForm, Parse,
      FirstOpening, Braced;
    AtEnd(text, open, d.open);
    AtEnd(text, close, d.close);
    ParseSection(text, c, open, d, close);
    var (o1, e1) := WidenedAt(text, open, open + |d.open|);
    var (o2, e2) := WidenedAt(text, close, close + |d.close|);
    var rest := Parse(StartsLine(text, e2), text[e2..]);
    MeaningPair(text[c..o1], text[o1..e1], text[e1..o2], text[o2..e2], rest, ctx);
    Prepend(now, SpanMeaning(text[c..o1], GlobalScope(ctx)), EachNode(text[e1..o2], ctx, |ctx.nodes|),
            Meaning(rest, ctx));
  }

  lemma MeaningPair(text: string, o: string, b: string, c: string, rest: seq<Block>, ctx: Tctx)
    ensures Meaning([Plain(text), Section(o, b, c)] + rest, ctx)
         == SpanMeaning(text, GlobalScope(ctx)) + (EachNode(b, ctx, |ctx.nodes|) + Meaning(rest, ctx))
  {
    hide SpanMeaning, EachNode, GlobalScope;
    var bs := [Plain(text), Section(o, b, c)] + rest;
    assert bs[1..] == [Section(o, b, c)] + rest && bs[1..][1..] == rest;
  }

  lemma Prepend(now: string, a: string, b: string, m: string)
    ensures now + (a + (b + m)) == now + a + b + m
  {
  }

  /** If the first opening tag ahead is not closed by its own form, all that is left is one global span. */
  lemma OutputLast(text: string, ctx: Tctx, now: string, c: nat)
    requires c <= |text| && Barrier(text, c)
    requires var o := FirstOpening(text, c);
             o.None? || (Braced(o.value.form.open) && Braced(o.value.form.close)
                         && Find(text, o.value.pos + |o.value.form.open|, o.value.form.close).None?)
    ensures Output(text, ctx, now, c) == now + SpanMeaning(text[c..], GlobalScope(ctx))
  {
    hide WidenedAt, Find, StartsLine, At, EndsInNewline, SpanMeaning, GlobalScope, CutTag, Barrier;
    OpeningShift(text, c);
    var o := FirstOpening(text, c);
    if o.Some? {
      var Opening(open, d) := o.value;
      AtEnd(text, open, d.open);
      CutFrom(text, c, open, d.open);
      CloseShift(text, open, d.open, d.close);
    }
    assert FirstSection(StartsLine(text, c), text[c..]) == None;
    var bs := Parse(StartsLine(text, c), text[c..]);
    assert bs == [Plain(text[c..])] && bs[1..] == [];
    var m := SpanMeaning(text[c..], GlobalScope(ctx));
    assert Meaning(bs, ctx) == m + "" == m;
  }

  /** The output `now` completed by the meaning of the template from `c` on. */
  ghost function Output(text: string, ctx: Tctx, now: string, c: nat): string
    requires c <= |text|
  {
    now + Meaning(Parse(StartsLine(text, c), text[c..]), ctx)
  }

  lemma OutputStart(text: string, ctx: Tctx)
    ensures Output(text, ctx, "", 0) == Meaning(Parse(true, text), ctx)
  {
    assert text[0..] == text;
  }

  // ----------------------------------------------------------------------- render

  /** The body once for every node, each time with that node's values and its own env block. */
  method RenderBody(sb: Buffer, body: string, ctx: Tctx, global: Scope)
    requires sb.Valid() && global == GlobalScope(ctx)
    modifies sb, sb.data
    ensures sb.Valid() && (sb.data == old(sb.data) || fresh(sb.data))
    ensures old(sb.failed) ==> sb.failed
    ensures !sb.failed ==> sb.text == old(sb.text) + EachNode(body, ctx, |ctx.nodes|)
  {
    TableComplete();
    hide SpanMeaning, Complete, EnvText;
    assert old(sb.text) + "" == old(sb.text);
    for i := 0 to |ctx.nodes|
      invariant sb.Valid() && (sb.data == old(sb.data) || fresh(sb.data))
      invariant old(sb.failed) ==> sb.failed
      invariant !sb.failed ==> sb.text == old(sb.text) + EachNode(body, ctx, i)
    {
      var nodeEnv := BuildEnvBlock(ctx.nodes[i].envars);
      var scope := global.(index := Some(i), nodeEnv := nodeEnv);
      RenderSpan(sb, SPELLINGS, body, scope);
      NextNode(old(sb.text), body, ctx, i);
    }
  }

  lemma NextNode(start: string, body: string, ctx: Tctx, i: nat)
    requires i < |ctx.nodes|
    ensures start + EachNode(body, ctx, i + 1) == start + EachNode(body, ctx, i) + SpanMeaning(body, NodeScope(ctx, i))
  {
  }

  method NodeLists(ctx: Tctx) returns (csv: string, pairs: string)
    ensures csv == Join(NodeNames(ctx), ",") && pairs == Join(NodePairs(ctx), ",")
  {
    var names: seq<string>, both: seq<string> := [], [];
    for i := 0 to |ctx.nodes|
      invariant names == NodeNames(ctx)[..i] && both == NodePairs(ctx)[..i]
    {
      names := names + [ctx.nodes[i].node];
      both := both + [ctx.nodes[i].node + ":" + ctx.nodes[i].rank];
    }
    assert names == NodeNames(ctx) && both == NodePairs(ctx);
    return Join(names, ","), Join(both, ",");
  }

  /** One section, or the tail: renders from `cursor` on and says where the next round starts. */
  method RenderRound(sb: Buffer, text: string, ctx: Tctx, global: Scope, cursor: nat) returns (next: Option<nat>)
    requires sb.Valid() && global == GlobalScope(ctx) && cursor <= |text| && Barrier(text, cursor)
    modifies sb, sb.data
    ensures sb.Valid() && (sb.data == old(sb.data) || fresh(sb.data))
    ensures old(sb.failed) ==> sb.failed
    ensures next.Some? ==> cursor < next.value <= |text| && Barrier(text, next.value)
    ensures !sb.failed && next.Some? ==>
      Output(text, ctx, sb.text, next.value) == Output(text, ctx, old(sb.text), cursor)
    ensures !sb.failed && next.None? ==> sb.text == Output(text, ctx, old(sb.text), cursor)
  {
    TableComplete();
    hide Output, SpanMeaning, EachNode, GlobalScope, Complete, WidenedAt, Find, FirstOpening, At, IsForm;
    var found := FindSectionStart(text, cursor);
    if found == None {
      OutputLast(text, ctx, sb.text, cursor);
      RenderSpan(sb, SPELLINGS, text[cursor..], global);
      return None;
    }
    var Opening(open, d) := found.value;
    FormsBraced(d);
    AtEnd(text, open, d.open);
    var end := Find(text, open + |d.open|, d.close);
    if end == None {
      OutputLast(text, ctx, sb.text, cursor);
      RenderSpan(sb, SPELLINGS, text[cursor..], global);
      return None;
    }
    var close := end.value;
    AtEnd(text, close, d.close);
    SectionOrder(text, cursor, open, d, close);
    OutputSection(text, ctx, sb.text, cursor, open, d, close);
    var o1, e1 := WidenStandalone(text, open, open + |d.open|);
    var o2, e2 := WidenStandalone(text, close, close + |d.close|);
    RenderSpan(sb, SPELLINGS, text[cursor..o1], global);
    RenderBody(sb, text[e1..o2], ctx, global);
    return Some(e2);
  }

  /** For every template and context the result is the meaning of the parsed template; nothing comes back
      exactly for missing arguments or when one of the requests made for the output buffer was refused. */
  method Render(templateText: Option<string>, context: Option<Tctx>, grants: nat -> bool)
    returns (r: Option<string>, ghost requests: nat)
    ensures r.None? <==> templateText.None? || context.None? || Refused(grants, requests)
    ensures r.Some? ==> r.value == Meaning(Parse(true, templateText.value), context.value)
  {
    if templateText.None? || context.None? {
      return None, 0;
    }
    var text, ctx := templateText.value, context.value;
    hide Output, Meaning, Parse, EnvText, Join;
    var commonEnv := BuildEnvBlock(ctx.commonEnvars);
    var csv, pairs := NodeLists(ctx);
    var global := Scope(ctx, None, commonEnv, "", csv, pairs);
    var sb := new Buffer(grants);
    var cursor := Some(0);
    ghost var last: nat := 0;
    OutputStart(text, ctx);
    while cursor.Some?
      invariant sb.Valid() && fresh(sb) && fresh(sb.data) && sb.grants == grants
      invariant cursor.Some? ==> cursor.value <= |text| && Barrier(text, cursor.value)
      invariant !sb.failed && cursor.Some? ==> Output(text, ctx, sb.text, cursor.value) == Output(text, ctx, "", 0)
      invariant !sb.failed && cursor.None? ==> sb.text == Output(text, ctx, "", 0)
      decreases cursor.Some?, if cursor.Some? then |text| - cursor.value else 0
    {
      cursor := RenderRound(sb, text, ctx, global, cursor.value);
    }
    r := sb.Release();
    requests := sb.requests;
  }

  // -------------------------------------------------------------- columns of env tags

  function LineStart(text: string, p: nat): (l: nat)
    requires p <= |text|
    ensures l <= p && StartsLine(text, l) && forall i :: l <= i < p ==> text[i] != '\n'
  {
    if StartsLine(text, p) then p else LineStart(text, p - 1)
  }

  /** The renderer looks for a tag's indentation back to the start of its span, the documentation promises
      it back to the start of the template's line. Spans start behind barriers, so the two agree, except
      when the span starts in mid-line and only blanks stand between its start and the tag. */
  lemma ColumnOfSpan(text: string, s: nat, p: nat)
    requires s <= p <= |text| && Barrier(text, s) && (s < |text| || s == 0)
    ensures Blanks(ColumnAt(text[s..], p - s)) == Blanks(ColumnAt(text, p))
        <==> StartsLine(text, s) || s == p || !AllBlank(text[s..p])
  {
    hide ColumnAt;
    var l, span := LineStart(text, p), text[s..];
    ColumnFrom(text, l, p);
    if l >= s {
      ColumnFrom(span, l - s, p - s);
      assert span[l - s..p - s] == text[l..p];
      assert l > s ==> text[s..p][l - 1 - s] == '\n';
    } else {
      ColumnFrom(span, 0, p - s);
      assert span[0..p - s] == text[s..p];
      assert text[l..p][s - 1 - l] == text[s - 1];
    }
  }

  /** If only blanks precede a tag on its line of the template, no section cuts that line before the tag, and
      the renderer sees exactly those blanks as the tag's indentation. */
  lemma ColumnKept(text: string, s: nat, p: nat)
    requires s <= p <= |text| && Barrier(text, s) && (s < |text| || s == 0)
    requires AllBlank(text[LineStart(text, p)..p])
    ensures s <= LineStart(text, p)
    ensures Blanks(ColumnAt(text[s..], p - s)) == text[LineStart(text, p)..p]
  {
    hide ColumnAt;
    var l, span := LineStart(text, p), text[s..];
    forall i | l <= i < p
      ensures IsBlank(text[i])
    {
      assert text[l..p][i - l] == text[i];
    }
    ColumnFrom(span, l - s, p - s);
    assert span[l - s..p - s] == text[l..p];
  }
}
