/** The meaning of a span of template text, and the scanner that computes it
    (plm_k8s_template.c:442-461, 574-664). */
module Spans {
  import opened Strings
  import opened StrBuf
  import opened Tags
  import opened EnvBlock

  /** One daemon-to-be, as the template sees it inside a section. */
  datatype TNode = TNode(node: string, rank: string, envars: seq<string>, slots: int)

  /** Everything the template can see. */
  datatype Tctx = Tctx(name: string, nodes: seq<TNode>, commonEnvars: seq<string>, vpidStart: int)

  /** The values a tag can resolve to; `index` is None in global scope. */
  datatype Scope = Scope(ctx: Tctx, index: Option<nat>, commonEnv: string, nodeEnv: string,
                         nodesCsv: string, nodeVpids: string) {
    predicate Valid() {
      index.Some? ==> index.value < |ctx.nodes|
    }
  }

  /** What a tag stands for; only the env block depends on the column it sits at. */
  function Value(tag: Tag, scope: Scope, indent: string): string
    requires scope.Valid()
  {
    match tag
    case Name => scope.ctx.name
    case NumNodes => Dec(|scope.ctx.nodes|)
    case VpidStart => Dec(scope.ctx.vpidStart)
    case NodesCsv => scope.nodesCsv
    case NodeVpids => scope.nodeVpids
    case Env => Reindent(if scope.index.Some? then scope.nodeEnv else scope.commonEnv, indent)
    case Node => if scope.index.Some? then scope.ctx.nodes[scope.index.value].node else ""
    case Rank => if scope.index.Some? then scope.ctx.nodes[scope.index.value].rank else ""
    case Slots => if scope.index.Some? then Dec(scope.ctx.nodes[scope.index.value].slots) else ""
    case Index => if scope.index.Some? then Dec(scope.index.value) else ""
  }

  // -------------------------------------------------------------------- meaning

  datatype Token = Lit(c: char) | Hole(spelling: Spelling)

  /** Reads text left to right, one character or one tag at a time. */
  ghost function Tokens(s: string): seq<Token> {
    if s == "" then []
    else if TagAt(s, 0) then
      var sp: Spelling :| At(s, 0, sp.Text());
      [Hole(sp)] + Tokens(s[|sp.Text()|..])
    else [Lit(s[0])] + Tokens(s[1..])
  }

  /** Some(w): on the current line only the blanks `w` have been read; None: something else has. */
  type Column = Option<string>

  function Advance(col: Column, c: char): Column {
    if c == '\n' then Some("")
    else if col.Some? && IsBlank(c) then Some(col.value + [c])
    else None
  }

  function Blanks(col: Column): string {
    if col.Some? then col.value else ""
  }

  /** Characters stand for themselves, tags for their values; values are never read again. */
  function Eval(ts: seq<Token>, col: Column, scope: Scope): string
    requires scope.Valid()
  {
    if ts == [] then ""
    else match ts[0]
      case Lit(c) => [c] + Eval(ts[1..], Advance(col, c), scope)
      case Hole(sp) => Value(sp.tag, scope, Blanks(col)) + Eval(ts[1..], None, scope)
  }

  ghost function SpanMeaning(s: string, scope: Scope): string
    requires scope.Valid()
  {
    Eval(Tokens(s), Some(""), scope)
  }

  // ------------------------------------------------------- facts about the meaning

  lemma AtShift(s: string, i: nat, j: nat, w: string)
    requires i + j <= |s|
    ensures At(s[i..], j, w) <==> At(s, i + j, w)
  {
    hide Spelling.Text, Value;
    if j + |w| <= |s[i..]| {
      assert s[i..][j..j + |w|] == s[i + j..i + j + |w|];
    }
  }

  lemma TagShift(s: string, i: nat, j: nat)
    requires i + j <= |s|
    ensures TagAt(s[i..], j) <==> TagAt(s, i + j)
  {
    hide Spelling.Text, Value;
    forall sp: Spelling
      ensures At(s[i..], j, sp.Text()) <==> At(s, i + j, sp.Text())
    {
      AtShift(s, i, j, sp.Text());
    }
  }

  lemma TokensTag(s: string, sp: Spelling)
    requires At(s, 0, sp.Text())
    ensures Tokens(s) == [Hole(sp)] + Tokens(s[|sp.Text()|..])
  {
    hide Spelling.Text, Value;
    SpellingShape(sp);
    assert TagAt(s, 0);
    var chosen: Spelling :| At(s, 0, chosen.Text()) && Tokens(s) == [Hole(chosen)] + Tokens(s[|chosen.Text()|..]);
    MatchUnique(s, 0, sp, chosen);
  }

  /** No tag of `a + r` reaches across the boundary. */
  ghost predicate Clean(a: string, r: string) {
    forall i: nat, sp: Spelling :: i < |a| && At(a + r, i, sp.Text()) ==> i + |sp.Text()| <= |a|
  }

  lemma CleanDrop(a: string, r: string, n: nat)
    requires Clean(a, r) && n <= |a|
    ensures (a + r)[n..] == a[n..] + r && Clean(a[n..], r)
  {
    hide Spelling.Text, Value;
    assert (a + r)[n..] == a[n..] + r;
    forall i: nat, sp: Spelling | i < |a[n..]| && At(a[n..] + r, i, sp.Text())
      ensures i + |sp.Text()| <= |a[n..]|
    {
      AtShift(a + r, n, i, sp.Text());
      assert At(a + r, n + i, sp.Text());
    }
  }

  lemma PrefixTag(a: string, r: string)
    requires Clean(a, r) && a != ""
    ensures TagAt(a, 0) <==> TagAt(a + r, 0)
  {
    hide Spelling.Text, Value;
    forall sp: Spelling
      ensures At(a, 0, sp.Text()) <==> At(a + r, 0, sp.Text())
    {
      if |sp.Text()| <= |a| {
        assert (a + r)[0..|sp.Text()|] == a[0..|sp.Text()|];
      }
    }
  }

  lemma {:induction false} TokensSplit(a: string, r: string)
    requires Clean(a, r)
    ensures Tokens(a + r) == Tokens(a) + Tokens(r)
  {
    hide Spelling.Text, Value;
    if a == "" {
      assert a + r == r;
    } else {
      PrefixTag(a, r);
      if TagAt(a, 0) {
        var sp: Spelling :| At(a, 0, sp.Text());
        var n := |sp.Text()|;
        SpellingShape(sp);
        assert (a + r)[0..n] == a[0..n];
        TokensTag(a, sp);
        TokensTag(a + r, sp);
        CleanDrop(a, r, n);
        TokensSplit(a[n..], r);
      } else {
        CleanDrop(a, r, 1);
        TokensSplit(a[1..], r);
      }
    }
  }

  /** Reading can be cut before any tag: nothing to its left reaches into it. */
  lemma TokensCut(a: string, sp: Spelling, b: string)
    ensures Tokens(a + (sp.Text() + b)) == Tokens(a) + ([Hole(sp)] + Tokens(b))
  {
    hide Spelling.Text, Value;
    var r := sp.Text() + b;
    assert (a + r)[|a|..|a| + |sp.Text()|] == sp.Text();
    forall i: nat, f: Spelling | i < |a| && At(a + r, i, f.Text())
      ensures i + |f.Text()| <= |a|
    {
      NoOverlap(a + r, i, f, |a|, sp);
    }
    TokensSplit(a, r);
    TokensTag(r, sp);
    assert r[|sp.Text()|..] == b;
  }

  /** The text a run of tokens was read from. */
  function Source(ts: seq<Token>): string {
    if ts == [] then ""
    else (match ts[0] case Lit(c) => [c] case Hole(sp) => sp.Text()) + Source(ts[1..])
  }

  /** Reading loses nothing. */
  lemma {:induction false} SourceTokens(s: string)
    ensures Source(Tokens(s)) == s
  {
    hide Spelling.Text, Value;
    if s == "" {
    } else if TagAt(s, 0) {
      var sp: Spelling :| At(s, 0, sp.Text());
      SpellingShape(sp);
      TokensTag(s, sp);
      SourceTokens(s[|sp.Text()|..]);
      assert s == sp.Text() + s[|sp.Text()|..];
    } else {
      SourceTokens(s[1..]);
      assert s == [s[0]] + s[1..];
    }
  }

  /** Every occurrence of every spelling is read as exactly one tag, where it stands. */
  lemma EveryOccurrenceRead(s: string, i: nat, sp: Spelling)
    requires At(s, i, sp.Text())
    ensures var left := Tokens(s[..i]);
            |left| < |Tokens(s)| && Tokens(s)[..|left|] == left && Source(left) == s[..i]
            && Tokens(s)[|left|] == Hole(sp)
  {
    hide Spelling.Text, Value;
    var n := |sp.Text()|;
    assert s == s[..i] + (sp.Text() + s[i + n..]);
    TokensCut(s[..i], sp, s[i + n..]);
    SourceTokens(s[..i]);
  }

  /** Text with no spelling in it renders as itself. */
  lemma {:induction false} SpanIdentity(s: string, col: Column, scope: Scope)
    requires scope.Valid()
    requires forall i :: 0 <= i <= |s| ==> !TagAt(s, i)
    ensures Eval(Tokens(s), col, scope) == s
  {
    hide Spelling.Text, Value;
    if s != "" {
      forall i | 0 <= i <= |s[1..]|
        ensures !TagAt(s[1..], i)
      {
        TagShift(s, 1, i);
        assert !TagAt(s, 1 + i);
      }
      assert !TagAt(s, 0);
      SpanIdentity(s[1..], Advance(col, s[0]), scope);
      assert s == [s[0]] + s[1..];
    }
  }

  lemma NoBreakInTag(s: string, i: nat, sp: Spelling)
    requires At(s, i, sp.Text())
    ensures forall k :: i <= k < i + |sp.Text()| ==> s[k] != '\n'
  {
    hide Spelling.Text;
    SpellingShape(sp);
    CharAt(s, i, sp.Text());
    forall k | i <= k < i + |sp.Text()|
      ensures s[k] != '\n'
    {
      assert s[i + (k - i)] == sp.Text()[k - i];
    }
  }

  lemma TokensLine(a: string, b: string)
    requires EndsInNewline(a)
    ensures Tokens(a + b) == Tokens(a) + Tokens(b)
  {
    hide Spelling.Text, At, Tokens;
    assert (a + b)[|a| - 1] == '\n';
    forall i: nat, sp: Spelling | i < |a| && At(a + b, i, sp.Text())
      ensures i + |sp.Text()| <= |a|
    {
      NoBreakInTag(a + b, i, sp);
    }
    TokensSplit(a, b);
  }

  lemma {:induction false} LastToken(a: string)
    requires EndsInNewline(a)
    ensures |Tokens(a)| > 0 && Tokens(a)[|Tokens(a)| - 1] == Lit('\n')
  {
    hide Spelling.Text, Value;
    if TagAt(a, 0) {
      var sp: Spelling :| At(a, 0, sp.Text());
      TagBeforeNewline(a, sp);
      TokensTag(a, sp);
      LastToken(a[|sp.Text()|..]);
    } else if |a| > 1 {
      LastToken(a[1..]);
    }
  }

  lemma TagBeforeNewline(a: string, sp: Spelling)
    requires EndsInNewline(a) && At(a, 0, sp.Text())
    ensures 0 < |sp.Text()| < |a|
  {
    hide Spelling.Text;
    SpellingShape(sp);
    CharAt(a, 0, sp.Text());
    assert a[0 + (|sp.Text()| - 1)] == '}';
  }

  lemma {:induction false} EvalLine(ts: seq<Token>, us: seq<Token>, col: Column, scope: Scope)
    requires scope.Valid()
    requires |ts| > 0 && ts[|ts| - 1] == Lit('\n')
    ensures Eval(ts + us, col, scope) == Eval(ts, col, scope) + Eval(us, Some(""), scope)
  {
    hide Spelling.Text, Value;
    assert (ts + us)[1..] == ts[1..] + us;
    var next := match ts[0] case Lit(c) => Advance(col, c) case Hole(_) => None;
    var head := match ts[0] case Lit(c) => [c] case Hole(sp) => Value(sp.tag, scope, Blanks(col));
    if |ts| == 1 {
      assert ts[1..] == [] && ts[1..] + us == us;
    } else {
      EvalLine(ts[1..], us, next, scope);
      Shift(head, Eval(ts[1..], next, scope), Eval(us, Some(""), scope), Eval(ts[1..] + us, next, scope));
    }
  }

  /** Rendering is line by line: no tag and no column reaches across a line break of the template. */
  lemma SpanByLines(a: string, b: string, scope: Scope)
    requires scope.Valid() && EndsInNewline(a)
    ensures SpanMeaning(a + b, scope) == SpanMeaning(a, scope) + SpanMeaning(b, scope)
  {
    hide Spelling.Text, Value;
    TokensLine(a, b);
    LastToken(a);
    EvalLine(Tokens(a), Tokens(b), Some(""), scope);
  }

  lemma LineStartCut(a: string, b: string, scope: Scope)
    requires scope.Valid() && (a == "" || EndsInNewline(a))
    ensures SpanMeaning(a + b, scope) == SpanMeaning(a, scope) + SpanMeaning(b, scope)
  {
    if a == "" {
      assert a + b == b;
      assert SpanMeaning(a, scope) == "";
      assert "" + SpanMeaning(b, scope) == SpanMeaning(b, scope);
    } else {
      SpanByLines(a, b, scope);
    }
  }

  lemma {:induction false} EvalBlanks(ws: string, w: string, ts: seq<Token>, scope: Scope)
    requires scope.Valid() && AllBlank(ws)
    ensures Eval(Tokens(ws) + ts, Some(w), scope) == ws + Eval(ts, Some(w + ws), scope)
  {
    hide Spelling.Text, Value, Eval, Tokens;
    if ws == "" {
      NoTokens(ts);
      assert w + ws == w;
    } else {
      var c, tail, rest := ws[0], ws[1..], Tokens(ws[1..]) + ts;
      BlankToken(ws, ts);
      EvalBlanks(tail, w + [c], ts, scope);
      EvalCons(c, rest, Some(w), scope);
      HeadTail(w, ws);
      Shift([c], tail, Eval(ts, Some(w + ws), scope), Eval(rest, Some(w + [c]), scope));
    }
  }

  lemma NoTokens(ts: seq<Token>)
    ensures Tokens("") + ts == ts
  {
  }

  lemma BlankToken(ws: string, ts: seq<Token>)
    requires ws != "" && AllBlank(ws)
    ensures Tokens(ws) + ts == [Lit(ws[0])] + (Tokens(ws[1..]) + ts)
  {
    hide Spelling.Text, TagAt;
    NoTagAtBlank(ws);
    LiteralToken(ws);
    Grouped(Lit(ws[0]), Tokens(ws[1..]), ts);
  }

  lemma LiteralToken(s: string)
    requires s != "" && !TagAt(s, 0)
    ensures Tokens(s) == [Lit(s[0])] + Tokens(s[1..])
  {
  }

  lemma Grouped(t: Token, a: seq<Token>, b: seq<Token>)
    ensures [t] + a + b == [t] + (a + b)
  {
  }

  lemma HeadTail(w: string, ws: string)
    requires ws != ""
    ensures w + [ws[0]] + ws[1..] == w + ws && [ws[0]] + ws[1..] == ws
  {
  }

  lemma EvalCons(c: char, rest: seq<Token>, col: Column, scope: Scope)
    requires scope.Valid()
    ensures Eval([Lit(c)] + rest, col, scope) == [c] + Eval(rest, Advance(col, c), scope)
  {
    assert ([Lit(c)] + rest)[1..] == rest;
  }

  lemma NoTagAtBlank(ws: string)
    requires ws != "" && AllBlank(ws)
    ensures !TagAt(ws, 0)
  {
    forall sp: Spelling
      ensures !At(ws, 0, sp.Text())
    {
      SpellingShape(sp);
      if |sp.Text()| <= |ws| {
        assert ws[0..|sp.Text()|][0] == ws[0];
      }
    }
  }

  /** An env tag with only blanks before it on its line: the block stands at the tag's column, every line
      of it, and taking the column off gives the block back (without a final line break). */
  lemma EnvAtColumn(pre: string, ws: string, sp: Spelling, post: string, scope: Scope)
    requires scope.Valid() && sp.tag == Env && AllBlank(ws) && (pre == "" || EndsInNewline(pre))
    ensures var block := if scope.index.Some? then scope.nodeEnv else scope.commonEnv;
            SpanMeaning(pre + (ws + (sp.Text() + post)), scope)
              == SpanMeaning(pre, scope) + (ws + (Reindent(block, ws) + Eval(Tokens(post), None, scope)))
            && Unindent(ws + Reindent(block, ws), ws)
               == Some(if EndsInNewline(block) then block[..|block| - 1] else block)
  {
    var block := if scope.index.Some? then scope.nodeEnv else scope.commonEnv;
    hide Spelling.Text, Reindent, Unindent, SpanMeaning;
    UnindentReindent(block, ws);
    LineStartCut(pre, ws + (sp.Text() + post), scope);
    EnvBehindBlanks(ws, sp, post, scope);
  }

  lemma EnvBehindBlanks(ws: string, sp: Spelling, post: string, scope: Scope)
    requires scope.Valid() && sp.tag == Env && AllBlank(ws)
    ensures var block := if scope.index.Some? then scope.nodeEnv else scope.commonEnv;
            SpanMeaning(ws + (sp.Text() + post), scope) == ws + (Reindent(block, ws) + Eval(Tokens(post), None, scope))
  {
    TokensCut(ws, sp, post);
    hide Spelling.Text, Reindent;
    var ts := [Hole(sp)] + Tokens(post);
    assert ts[1..] == Tokens(post);
    EvalBlanks(ws, "", ts, scope);
    assert "" + ws == ws;
  }

  // ----------------------------------------------------------------- line_indent

  /** The column state after the first `pos` characters of the span. */
  function ColumnAt(s: string, pos: nat): Column
    requires pos <= |s|
  {
    if pos == 0 then Some("") else Advance(ColumnAt(s, pos - 1), s[pos - 1])
  }

  /** In closed form: the characters since the last line break, if they are all blanks. */
  lemma {:induction false} ColumnFrom(s: string, start: nat, pos: nat)
    requires start <= pos <= |s|
    requires start == 0 || s[start - 1] == '\n'
    requires forall i :: start <= i < pos ==> s[i] != '\n'
    ensures ColumnAt(s, pos) == if AllBlank(s[start..pos]) then Some(s[start..pos]) else None
  {
    if start < pos {
      ColumnFrom(s, start, pos - 1);
      BlankSnoc(s[start..pos - 1], s[pos - 1]);
      assert s[start..pos] == s[start..pos - 1] + [s[pos - 1]];
    } else {
      assert s[start..pos] == "";
    }
  }

  lemma BlankSnoc(w: string, c: char)
    ensures AllBlank(w + [c]) <==> AllBlank(w) && IsBlank(c)
  {
    assert (w + [c])[|w|] == c;
    assert forall i :: 0 <= i < |w| ==> (w + [c])[i] == w[i];
  }

  method LineIndent(span: string, pos: nat) returns (r: string)
    requires pos <= |span|
    ensures r == Blanks(ColumnAt(span, pos))
  {
    var lineStart: nat := pos;
    while lineStart > 0 && span[lineStart - 1] != '\n'
      invariant lineStart <= pos
      invariant forall i :: lineStart <= i < pos ==> span[i] != '\n'
    {
      lineStart := lineStart - 1;
    }
    ColumnFrom(span, lineStart, pos);
    hide ColumnAt;
    var p := lineStart;
    while p < pos && IsBlank(span[p])
      invariant lineStart <= p <= pos
      invariant forall i :: lineStart <= i < p ==> IsBlank(span[i])
    {
      p := p + 1;
    }
    r := span[lineStart..pos];
    if p != pos {
      assert span[lineStart..pos][p - lineStart] == span[p];
      r := "";
    }
  }

  // ----------------------------------------------------------------- render_span

  /** The meaning of the rest of the span from `i` on. */
  ghost function Rest(s: string, i: nat, scope: Scope): string
    requires scope.Valid() && i <= |s|
  {
    Eval(Tokens(s[i..]), ColumnAt(s, i), scope)
  }

  lemma RestLit(s: string, i: nat, scope: Scope)
    requires scope.Valid() && i < |s| && !TagAt(s, i)
    ensures Rest(s, i, scope) == [s[i]] + Rest(s, i + 1, scope)
  {
    hide Spelling.Text, Value;
    TagShift(s, i, 0);
    assert s[i..][1..] == s[i + 1..];
    var ts := [Lit(s[i])] + Tokens(s[i + 1..]);
    assert Tokens(s[i..]) == ts;
    assert ts[1..] == Tokens(s[i + 1..]);
  }

  lemma PrependChar(s: string, i: nat, m: nat, all: string, next: string, x: string)
    requires i < m <= |s| && all == [s[i]] + next && next == s[i + 1..m] + x
    ensures all == s[i..m] + x
  {
    assert s[i..m] == [s[i]] + s[i + 1..m];
  }

  lemma {:induction false} RestRun(s: string, i: nat, m: nat, scope: Scope)
    requires scope.Valid() && i <= m <= |s|
    requires forall k :: i <= k < m ==> !TagAt(s, k)
    ensures Rest(s, i, scope) == s[i..m] + Rest(s, m, scope)
    decreases m - i
  {
    hide Spelling.Text, Value;
    if i < m {
      RestLit(s, i, scope);
      RestRun(s, i + 1, m, scope);
      PrependChar(s, i, m, Rest(s, i, scope), Rest(s, i + 1, scope), Rest(s, m, scope));
    } else {
      assert s[i..m] == "";
    }
  }

  lemma RestTag(s: string, m: nat, sp: Spelling, scope: Scope)
    requires scope.Valid() && At(s, m, sp.Text())
    ensures Rest(s, m, scope)
         == Value(sp.tag, scope, Blanks(ColumnAt(s, m))) + Rest(s, m + |sp.Text()|, scope)
  {
    hide Spelling.Text, Value;
    var n := |sp.Text()|;
    AtShift(s, m, 0, sp.Text());
    TokensTag(s[m..], sp);
    assert s[m..][n..] == s[m + n..];
    ColumnAfterTag(s, m, sp, n);
  }

  lemma {:induction false} ColumnAfterTag(s: string, m: nat, sp: Spelling, k: nat)
    requires At(s, m, sp.Text()) && 0 < k <= |sp.Text()|
    ensures ColumnAt(s, m + k) == None
  {
    hide Spelling.Text, Value;
    SpellingShape(sp);
    CharAt(s, m, sp.Text());
    assert s[m + (k - 1)] == sp.Text()[k - 1];
    if k > 1 {
      ColumnAfterTag(s, m, sp, k - 1);
    }
  }

  method AppendValue(sb: Buffer, tag: Tag, scope: Scope, span: string, pos: nat)
    requires sb.Valid() && scope.Valid() && pos <= |span|
    modifies sb, sb.data
    ensures sb.Valid() && (sb.data == old(sb.data) || fresh(sb.data))
    ensures old(sb.failed) ==> sb.failed
    ensures !sb.failed ==> sb.text == old(sb.text) + Value(tag, scope, Blanks(ColumnAt(span, pos)))
  {
    match tag
    case Name => sb.AppendN(scope.ctx.name);
    case NumNodes => sb.AppendN(Dec(|scope.ctx.nodes|));
    case VpidStart => sb.AppendN(Dec(scope.ctx.vpidStart));
    case NodesCsv => sb.AppendN(scope.nodesCsv);
    case NodeVpids => sb.AppendN(scope.nodeVpids);
    case Env =>
      var multiline := if scope.index.Some? then scope.nodeEnv else scope.commonEnv;
      var indent := LineIndent(span, pos);
      AppendReindented(sb, multiline, indent);
    case Node =>
      if scope.index.Some? {
        sb.AppendN(scope.ctx.nodes[scope.index.value].node);
      }
    case Rank =>
      if scope.index.Some? {
        sb.AppendN(scope.ctx.nodes[scope.index.value].rank);
      }
    case Slots =>
      if scope.index.Some? {
        sb.AppendN(Dec(scope.ctx.nodes[scope.index.value].slots));
      }
    case Index =>
      if scope.index.Some? {
        sb.AppendN(Dec(scope.index.value));
      }
  }

  /** The output `now` completed by the meaning of the span from `cursor` on. */
  ghost function Total(span: string, scope: Scope, now: string, cursor: nat): string
    requires scope.Valid() && cursor <= |span|
  {
    now + Rest(span, cursor, scope)
  }

  lemma TotalEnds(span: string, scope: Scope, start: string, now: string)
    requires scope.Valid()
    ensures Total(span, scope, start, 0) == start + SpanMeaning(span, scope)
    ensures Total(span, scope, now, |span|) == now
  {
    assert span[0..] == span && span[|span|..] == "";
    assert now + "" == now;
  }

  lemma Shift(before: string, x: string, rest: string, all: string)
    ensures all == x + rest ==> before + x + rest == before + all
  {
    assert before + x + rest == before + (x + rest);
  }

  lemma TotalText(span: string, scope: Scope, now: string, i: nat, m: nat)
    requires scope.Valid() && i <= m <= |span|
    ensures (forall k :: i <= k < m ==> !TagAt(span, k)) ==>
      Total(span, scope, now, i) == Total(span, scope, now + span[i..m], m)
  {
    if forall k :: i <= k < m ==> !TagAt(span, k) {
      RestRun(span, i, m, scope);
      hide Rest;
      Shift(now, span[i..m], Rest(span, m, scope), Rest(span, i, scope));
    }
  }

  lemma TotalValue(span: string, scope: Scope, now: string, m: nat, sp: Spelling)
    requires scope.Valid() && m + |sp.Text()| <= |span|
    ensures At(span, m, sp.Text()) ==>
      Total(span, scope, now, m)
        == Total(span, scope, now + Value(sp.tag, scope, Blanks(ColumnAt(span, m))), m + |sp.Text()|)
  {
    hide Spelling.Text, Value, Rest, ColumnAt;
    if !At(span, m, sp.Text()) {
      return;
    }
    RestTag(span, m, sp, scope);
    Shift(now, Value(sp.tag, scope, Blanks(ColumnAt(span, m))), Rest(span, m + |sp.Text()|, scope),
          Rest(span, m, scope));
  }

  /** What the scanner's answer means for the output: the text and the value to add, and where to go on. */
  lemma TotalTag(span: string, scope: Scope, now: string, cursor: nat, found: Option<Match>)
    requires scope.Valid() && cursor <= |span| && found.Some?
    ensures IsNextTag(span, cursor, found) ==>
      var m := found.value;
      && cursor <= m.pos < m.pos + |m.spelling.Text()| <= |span|
      && Total(span, scope, now, cursor)
         == Total(span, scope, now + span[cursor..m.pos] + Value(m.spelling.tag, scope, Blanks(ColumnAt(span, m.pos))),
                  m.pos + |m.spelling.Text()|)
  {
    hide Total, Value, Spelling.Text, TagAt, ColumnAt;
    if IsNextTag(span, cursor, found) {
      var m := found.value;
      SpellingShape(m.spelling);
      TotalText(span, scope, now, cursor, m.pos);
      TotalValue(span, scope, now + span[cursor..m.pos], m.pos, m.spelling);
    }
  }

  lemma TotalLast(span: string, scope: Scope, now: string, cursor: nat, found: Option<Match>)
    requires scope.Valid() && cursor <= |span| && found.None?
    ensures IsNextTag(span, cursor, found) ==> Total(span, scope, now, cursor) == now + span[cursor..|span|]
  {
    hide Total, TagAt, SpanMeaning;
    if IsNextTag(span, cursor, found) {
      TotalText(span, scope, now, cursor, |span|);
      TotalEnds(span, scope, now, now + span[cursor..|span|]);
    }
  }

  /** The text up to the next tag, then the tag's value. */
  method RenderUpTo(sb: Buffer, span: string, scope: Scope, cursor: nat, pos: nat, tag: Tag)
    requires sb.Valid() && scope.Valid() && cursor <= pos <= |span|
    modifies sb, sb.data
    ensures sb.Valid() && (sb.data == old(sb.data) || fresh(sb.data))
    ensures old(sb.failed) ==> sb.failed
    ensures !sb.failed ==> sb.text == old(sb.text) + span[cursor..pos] + Value(tag, scope, Blanks(ColumnAt(span, pos)))
  {
    hide Value, ColumnAt;
    sb.AppendN(span[cursor..pos]);
    AppendValue(sb, tag, scope, span, pos);
  }

  /** One pass over the span; the result is its meaning, whatever order the table is in. */
  method RenderSpan(sb: Buffer, table: seq<Spelling>, span: string, scope: Scope)
    requires sb.Valid() && scope.Valid() && Complete(table)
    modifies sb, sb.data
    ensures sb.Valid() && (sb.data == old(sb.data) || fresh(sb.data))
    ensures old(sb.failed) ==> sb.failed
    ensures !sb.failed ==> sb.text == old(sb.text) + SpanMeaning(span, scope)
  {
    hide Total, Value, SpanMeaning, IsNextTag, ColumnAt, TagAt, Spelling.Text;
    var cursor: nat := 0;
    TotalEnds(span, scope, sb.text, sb.text);
    while true
      invariant cursor <= |span|
      invariant sb.Valid() && (sb.data == old(sb.data) || fresh(sb.data))
      invariant old(sb.failed) ==> sb.failed
      invariant !sb.failed ==> Total(span, scope, sb.text, cursor) == Total(span, scope, old(sb.text), 0)
      decreases |span| - cursor
    {
      var found := FindNextPlaceholder(table, span, cursor);
      if found == None {
        TotalLast(span, scope, sb.text, cursor, found);
        sb.AppendN(span[cursor..|span|]);
        return;
      }
      TotalTag(span, scope, sb.text, cursor, found);
      var m := found.value;
      RenderUpTo(sb, span, scope, cursor, m.pos, m.spelling.tag);
      cursor := m.pos + |m.spelling.Text()|;
    }
  }
}
