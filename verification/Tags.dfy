/** The scalar tags, their spellings, and the scanner that finds them (plm_k8s_template.c:384-440). */
module Tags {
  import opened Strings

  datatype Tag = Name | Rank | Env | Node | Index | NumNodes | VpidStart | NodesCsv | NodeVpids | Slots
  datatype Form = Tight | Spaced | Dotted | SpacedDotted

  function Base(t: Tag): string {
    match t
    case Name => "name"
    case Rank => "rank"
    case Env => "env"
    case Node => "node"
    case Index => "index"
    case NumNodes => "numnodes"
    case VpidStart => "vpid_start"
    case NodesCsv => "nodes_csv"
    case NodeVpids => "node_vpids"
    case Slots => "slots"
  }

  function Lead(f: Form): string {
    match f
    case Tight => "{{"
    case Spaced => "{{ "
    case Dotted => "{{."
    case SpacedDotted => "{{ ."
  }

  function Trail(f: Form): string {
    if f.Tight? || f.Dotted? then "}}" else " }}"
  }

  datatype Spelling = Spelling(tag: Tag, form: Form) {
    function Text(): string {
      Lead(form) + Base(tag) + Trail(form)
    }
  }

  const TAGS: seq<Tag> :=
    [Name, Rank, Env, Node, Index, NumNodes, VpidStart, NodesCsv, NodeVpids, Slots]
  const FORMS: seq<Form> := [Tight, Spaced, Dotted, SpacedDotted]

  /** The flat table, in the source's order: four spellings for each tag. */
  const SPELLINGS: seq<Spelling> :=
    seq(40, i requires 0 <= i < 40 => Spelling(TAGS[i / 4], FORMS[i % 4]))

  /** Every spelling stands somewhere in the table. */
  ghost predicate Complete(table: seq<Spelling>) {
    forall sp: Spelling :: sp in table
  }

  lemma TableComplete()
    ensures Complete(SPELLINGS)
  {
    forall sp: Spelling
      ensures sp in SPELLINGS
    {
      var t :| 0 <= t < 10 && TAGS[t] == sp.tag by {
        assert TAGS[0].Name? && TAGS[1].Rank? && TAGS[2].Env? && TAGS[3].Node? && TAGS[4].Index?;
        assert TAGS[5].NumNodes? && TAGS[6].VpidStart? && TAGS[7].NodesCsv? && TAGS[8].NodeVpids? && TAGS[9].Slots?;
      }
      var f :| 0 <= f < 4 && FORMS[f] == sp.form by {
        assert FORMS[0].Tight? && FORMS[1].Spaced? && FORMS[2].Dotted? && FORMS[3].SpacedDotted?;
      }
      assert SPELLINGS[4 * t + f] == sp;
    }
  }

  // ------------------------------------------------------ shape of a spelling

  predicate IsNameChar(c: char) {
    'a' <= c <= 'z' || c == '_'
  }

  lemma BaseChars(t: Tag)
    ensures 0 < |Base(t)| && forall i :: 0 <= i < |Base(t)| ==> IsNameChar(Base(t)[i])
  {
    var b := Base(t);
    forall i | 0 <= i < |b|
      ensures IsNameChar(b[i])
    {
      if i == 0 || i == 1 || i == 2 || i == 3 || i == 4 {
      } else if i == 5 || i == 6 || i == 7 {
      } else {
        assert i == 8 || i == 9;
      }
    }
  }

  lemma BaseInjective(a: Tag, b: Tag)
    requires Base(a) == Base(b)
    ensures a == b
  {
    assert |Base(a)| == |Base(b)| && Base(a)[0] == Base(b)[0] && Base(a)[2] == Base(b)[2];
    if |Base(a)| == 10 {
      assert Base(a)[4] == Base(b)[4];
    }
  }

  /** The braces, the name and the tail of a spelling, by index. */
  lemma SpellingShape(sp: Spelling)
    ensures |Lead(sp.form)| in {2, 3, 4} && 2 <= |Trail(sp.form)| <= 3 && 0 < |Base(sp.tag)|
    ensures |sp.Text()| == |Lead(sp.form)| + |Base(sp.tag)| + |Trail(sp.form)|
    ensures sp.Text()[0] == '{' && sp.Text()[1] == '{' && sp.Text()[|sp.Text()| - 1] == '}'
    ensures forall i :: 2 <= i < |sp.Text()| ==> sp.Text()[i] != '{'
    ensures forall i :: 0 <= i < |sp.Text()| ==> sp.Text()[i] != '\n'
  {
    BaseChars(sp.tag);
  }

  /** Exactly `n` name characters stand at `p`, then something else. */
  ghost predicate NameRun(s: string, p: nat, n: nat) {
    && p + n < |s|
    && (forall k :: p <= k < p + n ==> IsNameChar(s[k]))
    && !IsNameChar(s[p + n])
  }

  lemma NameAt(s: string, i: nat, sp: Spelling)
    requires At(s, i, sp.Text())
    ensures NameRun(s, i + |Lead(sp.form)|, |Base(sp.tag)|)
    ensures s[i + |Lead(sp.form)|..i + |Lead(sp.form)| + |Base(sp.tag)|] == Base(sp.tag)
  {
    BaseChars(sp.tag);
    CharAt(s, i, sp.Text());
    var l, n := |Lead(sp.form)|, |Base(sp.tag)|;
    forall k | 0 <= k < n
      ensures s[i + l + k] == Base(sp.tag)[k]
    {
      assert s[i + (l + k)] == sp.Text()[l + k];
    }
    assert s[i + (l + n)] == sp.Text()[l + n] == Trail(sp.form)[0];
    forall k | i + l <= k < i + l + n
      ensures IsNameChar(s[k])
    {
      assert s[i + l + (k - i - l)] == Base(sp.tag)[k - i - l];
    }
  }

  lemma RunUnique(s: string, p: nat, m: nat, n: nat)
    requires NameRun(s, p, m) && NameRun(s, p, n)
    ensures m == n
  {
    assert !(m < n) && !(n < m);
  }

  /** Spellings are prefix-free: at most one of them starts at any place. */
  lemma MatchUnique(s: string, i: nat, a: Spelling, b: Spelling)
    requires At(s, i, a.Text()) && At(s, i, b.Text())
    ensures a == b
  {
    hide Spelling.Text, Base, Lead;
    SameForm(s, i, a, b);
    NameAt(s, i, a);
    NameAt(s, i, b);
    RunUnique(s, i + |Lead(a.form)|, |Base(a.tag)|, |Base(b.tag)|);
    BaseInjective(a.tag, b.tag);
  }

  lemma CharAt(s: string, i: nat, w: string)
    requires At(s, i, w)
    ensures forall k :: 0 <= k < |w| ==> s[i + k] == w[k]
  {
    forall k | 0 <= k < |w|
      ensures s[i + k] == w[k]
    {
      assert s[i..i + |w|][k] == s[i + k];
    }
  }

  lemma SameForm(s: string, i: nat, a: Spelling, b: Spelling)
    requires At(s, i, a.Text()) && At(s, i, b.Text())
    ensures a.form == b.form
  {
    CharAt(s, i, a.Text());
    CharAt(s, i, b.Text());
    BaseChars(a.tag);
    BaseChars(b.tag);
    assert forall sp: Spelling :: sp == a || sp == b ==> |sp.Text()| > 4;
    assert s[i + 2] == a.Text()[2] == b.Text()[2];
    assert s[i + 3] == a.Text()[3] == b.Text()[3];
  }

  /** Spellings never overlap: none starts strictly inside an occurrence of another. */
  lemma NoOverlap(s: string, i: nat, a: Spelling, j: nat, b: Spelling)
    requires At(s, i, a.Text()) && At(s, j, b.Text())
    ensures i < j ==> i + |a.Text()| <= j
  {
    hide Spelling.Text;
    SpellingShape(a);
    SpellingShape(b);
    CharAt(s, i, a.Text());
    CharAt(s, j, b.Text());
    forall p | i + 2 <= p < i + |a.Text()|
      ensures s[p] != '{'
    {
      assert s[i + (p - i)] == a.Text()[p - i];
    }
    assert s[j + 0] == '{' && s[j + 1] == '{';
  }

  // ------------------------------------------------------------------ scanner

  ghost predicate TagAt(s: string, i: nat) {
    exists sp: Spelling :: At(s, i, sp.Text())
  }

  datatype Match = Match(pos: nat, spelling: Spelling)

  /** `r` is the leftmost tag at or after `from`, or there is none. */
  ghost predicate IsNextTag(s: string, from: nat, r: Option<Match>) {
    && (r.Some? ==> from <= r.value.pos && At(s, r.value.pos, r.value.spelling.Text()))
    && forall i :: from <= i && (r.Some? ==> i < r.value.pos) ==> !TagAt(s, i)
  }

  /** What "the next tag" is does not depend on the order in which a table lists the spellings. */
  lemma NextTagUnique(s: string, from: nat, a: Option<Match>, b: Option<Match>)
    requires IsNextTag(s, from, a) && IsNextTag(s, from, b)
    ensures a == b
  {
    if a.Some? {
      assert TagAt(s, a.value.pos);
    }
    if b.Some? {
      assert TagAt(s, b.value.pos);
    }
    if a.Some? && b.Some? {
      MatchUnique(s, a.value.pos, a.value.spelling, b.value.spelling);
    }
  }

  /** One strstr per spelling, keeping the smallest position; right for every complete table. */
  method FindNextPlaceholder(table: seq<Spelling>, s: string, from: nat) returns (best: Option<Match>)
    requires from <= |s| && Complete(table)
    ensures IsNextTag(s, from, best)
  {
    hide Spelling.Text;
    best := None;
    for i := 0 to |table|
      invariant best.Some? ==> from <= best.value.pos && At(s, best.value.pos, best.value.spelling.Text())
      invariant forall j, p :: 0 <= j < i && from <= p && (best.Some? ==> p < best.value.pos)
                  ==> !At(s, p, table[j].Text())
    {
      var p := Find(s, from, table[i].Text());
      if p.Some? && (best.None? || p.value < best.value.pos) {
        best := Some(Match(p.value, table[i]));
      }
    }
    forall p | from <= p && (best.Some? ==> p < best.value.pos)
      ensures !TagAt(s, p)
    {
      forall sp: Spelling
        ensures !At(s, p, sp.Text())
      {
        assert sp in table;
        var j :| 0 <= j < |table| && table[j] == sp;
        assert !At(s, p, table[j].Text());
      }
    }
  }
}
