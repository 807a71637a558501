/** From the manifest text to the running daemons: the scheduler and the pods read what the launch rendered
    (templates/single-job.yaml.tmpl:50-118, plm_k8s_module.c:279-415). */
module Rollout {
  import opened Strings
  import opened EnvBlock
  import opened Tags
  import opened Spans
  import opened Sections
  import opened Standalone
  import opened Envars
  import opened Launch
  import opened Identity
  import opened Scheduler
  import opened TagValues
  import Cleanup
  import PodSpec

  // ------------------------------------------------------------ reading the affinity list

  /** Reads lines of quoted items at their column. */
  function ReadItems(text: string): Option<seq<string>> {
    if text == "" then Some([])
    else
      var nl := Find(text, 0, "\n");
      if nl.None? then None
      else
        var name, rest := ReadItem(text[..nl.value]), ReadItems(text[nl.value + 1..]);
        if name.None? || rest.None? then None else Some([name.value] + rest.value)
  }

  function ReadItem(line: string): Option<string> {
    var head := ITEM_IND + "- ";
    if head <= line then ReadScalar(line[|head|..]) else None
  }

  lemma {:induction false} ItemsCons(names: seq<string>)
    requires names != []
    ensures Items(names) == Item(names[0]) + Items(names[1..])
  {
    hide Item;
    var n := |names| - 1;
    if n == 0 {
      assert names[..0] == [] && names[1..] == [] && "" + Item(names[0]) == Item(names[0]) + "";
    } else {
      ItemsCons(names[..n]);
      assert names[..n][1..] == names[1..][..n - 1] && names[1..][n - 1] == names[n];
      Grouped(Item(names[0]), Items(names[1..][..n - 1]), Item(names[n]));
    }
  }

  lemma Grouped(a: string, b: string, c: string)
    ensures a + b + c == a + (b + c)
  {
  }

  lemma ItemRead(name: string, rest: string)
    ensures ReadItems(Item(name) + rest)
         == if ReadScalar(Quote(name)).None? || ReadItems(rest).None? then None
            else Some([ReadScalar(Quote(name)).value] + ReadItems(rest).value)
  {
    EscapeOneLine(name);
    hide ReadScalar, Escape, ReadItems;
    var line, text := ITEM_IND + "- " + Quote(name), Item(name) + rest;
    NoBreakInItem(name);
    FirstBreak(line, rest);
    assert text == line + "\n" + rest;
    assert line[|ITEM_IND + "- "|..] == Quote(name);
    ReadItemsIs(text, |line|);
  }

  lemma NoBreakInItem(name: string)
    requires '\n' !in Escape(name)
    ensures '\n' !in ITEM_IND + "- " + Quote(name)
  {
    hide Escape;
    assert '\n' !in ITEM_IND + "- ";
  }

  lemma FirstBreak(line: string, rest: string)
    requires '\n' !in line
    ensures var t := line + "\n" + rest;
            Find(t, 0, "\n") == Some(|line|) && t[..|line|] == line && t[|line| + 1..] == rest
  {
    var t := line + "\n" + rest;
    assert At(t, |line|, "\n");
    forall i | 0 <= i < |line|
      ensures !At(t, i, "\n")
    {
      assert t[i..i + 1][0] == line[i];
    }
  }

  lemma ReadItemsIs(text: string, n: nat)
    requires Find(text, 0, "\n") == Some(n)
    ensures var name, rest := ReadItem(text[..n]), ReadItems(text[n + 1..]);
            ReadItems(text) == if name.None? || rest.None? then None else Some([name.value] + rest.value)
  {
    hide Find, ReadItem;
    assert text != "";
  }

  /** The rendered list reads back as the names it was rendered for. */
  lemma {:induction false} ItemsRoundTrip(names: seq<string>)
    requires forall n :: n in names ==> Printable(n)
    ensures ReadItems(Items(names)) == Some(names)
  {
    hide Item, Printable;
    if names != [] {
      ItemsCons(names);
      ItemsRoundTrip(names[1..]);
      assert names[0] in names;
      ScalarRoundTrip(names[0]);
      ItemRead(names[0], Items(names[1..]));
      assert [names[0]] + names[1..] == names;
    }
  }

  // ------------------------------------------------------------------ one manifest text

  /** A template that lists the nodes and the pods' environment as the default one does, with any text before,
      between and around them that holds no section of its own. */
  function JobTemplate(pre: string, mid: string): string {
    OwnLines(pre, ITEM_IND, MUSTACHE, ItemLine(), ITEM_IND, mid + PodSpec.Template())
  }

  ghost predicate Sectionless(s: string) {
    StartsLines(s) && forall e: Delims :: IsForm(e) ==> NoTag(s, e.open)
  }

  lemma NoneOpens(s: string)
    requires '{' !in s || ('#' !in s && '%' !in s)
    ensures forall e: Delims :: IsForm(e) ==> NoTag(s, e.open)
  {
    forall e: Delims, i: nat | IsForm(e)
      ensures !At(s, i, e.open)
    {
      if At(s, i, e.open) {
        OpeningChars(s, i, e);
      }
    }
  }

  lemma OpeningChars(s: string, i: nat, e: Delims)
    requires IsForm(e) && At(s, i, e.open)
    ensures '{' in s && ('#' in s || '%' in s)
  {
    FormText(e);
    CharAt(s, i, e.open);
    assert s[i + 0] in s && s[i + 1] in s && s[i + 2] in s;
    assert MUSTACHE.open[2] == '#' && JINJA.open[1] == '%';
  }

  const MAP_VALUE := MAP_LINE_HEAD + "{{node_vpids}}\"\n"
  const ENV_LINE := PodSpec.MARGIN + "{{env}}\n"

  lemma MapValue()
    ensures MAP_LINE_HEAD + (Spelling(Tag.NodeVpids, Tight).Text() + "\"\n") == MAP_VALUE
  {
    assert Spelling(Tag.NodeVpids, Tight).Text() == "{{node_vpids}}";
    assert "{{node_vpids}}" + "\"\n" == "{{node_vpids}}\"\n";
  }

  lemma EnvLine()
    ensures PodSpec.MARGIN + (Spelling(Tag.Env, Tight).Text() + "\n") == ENV_LINE
  {
    assert Spelling(Tag.Env, Tight).Text() == "{{env}}" && "{{env}}" + "\n" == "{{env}}\n";
  }

  lemma MapValueOpens()
    ensures EndsInNewline(MAP_VALUE) && '#' !in MAP_VALUE && '%' !in MAP_VALUE
  {
  }

  lemma EnvLineOpens()
    ensures EndsInNewline(ENV_LINE) && '#' !in ENV_LINE && '%' !in ENV_LINE
  {
  }

  lemma TemplateOpens(e: Delims)
    requires IsForm(e)
    ensures NoTag(PodSpec.Template(), e.open)
  {
    var a, c := PodSpec.Margined(PodSpec.NODE_ENTRY + [PodSpec.MAP_NAME]), PodSpec.Margined(PodSpec.FIXED_LINES);
    MapValue();
    EnvLine();
    assert PodSpec.Template() == a + (MAP_VALUE + (c + ENV_LINE));
    PodSpec.LinesClean();
    PodSpec.MarginedClean(PodSpec.NODE_ENTRY + [PodSpec.MAP_NAME]);
    PodSpec.MarginedClean(PodSpec.FIXED_LINES);
    MapValueOpens();
    EnvLineOpens();
    hide *;
    NoneOpens(a);
    NoneOpens(MAP_VALUE);
    NoneOpens(c);
    NoneOpens(ENV_LINE);
    StartsIf(a);
    StartsIf(MAP_VALUE);
    StartsIf(c);
    BothSectionless(c, ENV_LINE, e);
    BothSectionless(MAP_VALUE, c + ENV_LINE, e);
    BothSectionless(a, MAP_VALUE + (c + ENV_LINE), e);
  }

  lemma StartsIf(s: string)
    ensures EndsInNewline(s) ==> StartsLines(s)
  {
  }

  lemma BothSectionless(a: string, b: string, e: Delims)
    requires IsForm(e) && StartsLines(a) && NoTag(a, e.open) && NoTag(b, e.open)
    ensures NoTag(a + b, e.open)
  {
    FormText(e);
    hide IsForm, StartsLines;
    forall i: nat
      ensures !At(a + b, i, e.open)
    {
      NotAcross(a, b, i, e.open);
    }
  }

  lemma NotAcross(a: string, b: string, i: nat, w: string)
    requires StartsLines(a) && '\n' !in w && w != "" && NoTag(a, w) && NoTag(b, w)
    ensures !At(a + b, i, w)
  {
    hide At;
    assert (a + b)[..|a|] == a && (a + b)[|a|..] == b;
    if i < |a| {
      AtPrefix(a + b, |a|, i, w);
      AtHolds(a + b, |a| - 1, i, w);
    } else if i <= |a + b| {
      AtShift(a + b, |a|, i - |a|, w);
    } else {
      AtFirst(a + b, i, w);
    }
  }

  lemma PlainRest(t: string, ctx: Tctx)
    requires forall e: Delims :: IsForm(e) ==> NoTag(t, e.open)
    ensures Meaning(Parse(true, t), ctx) == SpanMeaning(t, GlobalScope(ctx))
  {
    assert FirstOpening(t, 0).None?;
    hide FirstOpening, SpanMeaning, GlobalScope, SectionFrom;
    assert Parse(true, t)[1..] == [];
    var r := SpanMeaning(t, GlobalScope(ctx));
    assert r + "" == r;
  }

  /** The manifest is the text before the affinity list, that list, the text up to the env list, and that. */
  lemma ManifestText(pre: string, mid: string, ctx: Tctx)
    requires Sectionless(pre) && Sectionless(mid) && Readable(ctx)
    ensures Meaning(Parse(true, JobTemplate(pre, mid)), ctx)
         == SpanMeaning(pre, GlobalScope(ctx))
              + (Items(NodeNames(ctx))
              + (SpanMeaning(mid, GlobalScope(ctx)) + SpanMeaning(PodSpec.Template(), GlobalScope(ctx))))
    ensures ReadItems(Items(NodeNames(ctx))) == Some(NodeNames(ctx))
  {
    var env := PodSpec.Template();
    hide PodSpec.Template, NoTag, IsForm, Meaning, Parse, SpanMeaning, GlobalScope, Items, OwnLines, ItemLine,
      ReadItems;
    forall e: Delims | IsForm(e)
      ensures NoTag(mid + env, e.open)
    {
      TemplateOpens(e);
      BothSectionless(mid, env, e);
    }
    AffinityValues(pre, mid + env, ctx);
    PlainRest(mid + env, ctx);
    LineStartCut(mid, env, GlobalScope(ctx));
    NamesPrintable(ctx);
    ItemsRoundTrip(NodeNames(ctx));
  }

  lemma NamesPrintable(ctx: Tctx)
    requires Readable(ctx)
    ensures forall n :: n in NodeNames(ctx) ==> Printable(n)
  {
    forall n | n in NodeNames(ctx)
      ensures Printable(n)
    {
      var i :| 0 <= i < |ctx.nodes| && NodeNames(ctx)[i] == n;
      NameReadsBack(ctx, i);
      ScalarRoundTrip(n);
    }
  }

  // ------------------------------------------------------------------ how many pods

  /** The lines of the default template that say how many pods the Job has, and how many at a time. */
  const PODS_LINE := "  completions: {{numnodes}}\n"
  const MOST_LINE := "  parallelism: {{numnodes}}\n"
  const COUNTS := PODS_LINE + MOST_LINE

  /** Reads two such lines. */
  function ReadCounts(text: string): Option<(int, int)> {
    var nl := Find(text, 0, "\n");
    if nl.None? || !EndsInNewline(text[nl.value + 1..]) then None
    else
      var second := text[nl.value + 1..];
      var pods, most := ReadCount(text[..nl.value], "  completions: "),
                        ReadCount(second[..|second| - 1], "  parallelism: ");
      if pods.None? || most.None? then None else Some((pods.value, most.value))
  }

  function ReadCount(line: string, head: string): Option<int> {
    if head <= line then ReadInt(line[|head|..]) else None
  }

  function CountLine(head: string, v: string): string {
    head + (v + "\n")
  }

  lemma CountRenders(head: string, ctx: Tctx) returns (v: string)
    requires '{' !in head
    ensures SpanMeaning(head + ("{{numnodes}}" + "\n"), GlobalScope(ctx)) == CountLine(head, v)
    ensures ReadInt(v) == Some(|ctx.nodes|) && '\n' !in v
  {
    var scope := GlobalScope(ctx);
    assert "{{numnodes}}" in Written("numnodes") by {
      assert Written("numnodes")[0] == "{{numnodes}}";
    }
    v := NumNodesRenders("{{numnodes}}", scope, ctx);
    PlainTail(scope);
    Cleanup.NoTagLine(head, scope);
    hide Eval, Tokens, GlobalScope, ReadInt;
    assert Renders("{{numnodes}}", scope, v);
    assert SpanMeaning(head + ("{{numnodes}}" + "\n"), scope) == SpanMeaning(head, scope) + (v + "\n");
    NoBreakInNumber(v, |ctx.nodes|);
  }

  lemma NoBreakInNumber(v: string, n: int)
    requires ReadInt(v) == Some(n)
    ensures '\n' !in v
  {
  }

  lemma PlainTail(scope: Scope)
    requires scope.Valid()
    ensures Eval(Tokens("\n"), None, scope) == "\n"
  {
    PodSpec.LastBreak(scope);
  }

  lemma CountTexts()
    ensures PODS_LINE == "  completions: " + ("{{numnodes}}" + "\n")
    ensures MOST_LINE == "  parallelism: " + ("{{numnodes}}" + "\n")
    ensures EndsInNewline(PODS_LINE) && EndsInNewline(MOST_LINE)
  {
  }

  /** Both lines render to the number of nodes. */
  lemma CountsRender(ctx: Tctx)
    ensures ReadCounts(SpanMeaning(COUNTS, GlobalScope(ctx))) == Some((|ctx.nodes|, |ctx.nodes|))
  {
    CountTexts();
    var v := CountRenders("  completions: ", ctx);
    var w := CountRenders("  parallelism: ", ctx);
    hide SpanMeaning, GlobalScope, ReadInt, ReadCounts;
    SpanByLines(PODS_LINE, MOST_LINE, GlobalScope(ctx));
    CountsRead(v, w);
  }

  lemma CountsRead(v: string, w: string)
    requires '\n' !in v
    ensures ReadCounts(CountLine("  completions: ", v) + CountLine("  parallelism: ", w))
         == if ReadInt(v).None? || ReadInt(w).None? then None else Some((ReadInt(v).value, ReadInt(w).value))
  {
    hide ReadInt, Find, ReadCount;
    var a, b := "  completions: ", "  parallelism: ";
    HeadNoBreak(v);
    TwoLines(a, v, b, w);
    CountRead(a, v);
    CountRead(b, w);
  }

  lemma HeadNoBreak(v: string)
    requires '\n' !in v
    ensures '\n' !in "  completions: " + v
  {
  }

  lemma CountRead(head: string, v: string)
    ensures ReadCount(head + v, head) == ReadInt(v)
  {
    hide ReadInt;
    assert (head + v)[|head|..] == v;
  }

  lemma TwoLines(a: string, v: string, b: string, w: string)
    requires '\n' !in a + v
    ensures var text := CountLine(a, v) + CountLine(b, w); var n := |a + v|;
            && Find(text, 0, "\n") == Some(n) && text[..n] == a + v && EndsInNewline(text[n + 1..])
            && text[n + 1..][..|text[n + 1..]| - 1] == b + w
  {
    FirstBreak(a + v, b + w + "\n");
    hide Find;
    assert CountLine(a, v) + CountLine(b, w) == (a + v) + "\n" + (b + w + "\n");
    assert (b + w + "\n")[..|b + w|] == b + w;
  }

  lemma PodsChars()
    ensures '#' !in PODS_LINE && '%' !in PODS_LINE
  {
  }

  lemma MostChars()
    ensures '#' !in MOST_LINE && '%' !in MOST_LINE
  {
  }

  lemma CountsOpen()
    ensures Sectionless(COUNTS) && EndsInNewline(COUNTS)
  {
    PodsChars();
    MostChars();
    CountTexts();
    hide NoTag, IsForm;
    NoneOpens(PODS_LINE);
    NoneOpens(MOST_LINE);
    forall e: Delims | IsForm(e)
      ensures NoTag(COUNTS, e.open)
    {
      BothSectionless(PODS_LINE, MOST_LINE, e);
    }
    assert COUNTS[|COUNTS| - 1] == MOST_LINE[|MOST_LINE| - 1];
  }

  lemma FrontOpens(head: string, more: string)
    requires Sectionless(head) && Sectionless(more)
    ensures Sectionless(COUNTS + more) && Sectionless(head + (COUNTS + more))
  {
    CountsOpen();
    hide NoTag, IsForm;
    forall e: Delims | IsForm(e)
      ensures NoTag(COUNTS + more, e.open) && NoTag(head + (COUNTS + more), e.open)
    {
      BothSectionless(COUNTS, more, e);
      BothSectionless(head, COUNTS + more, e);
    }
  }

  // ------------------------------------------------------------- running what was read

  /** The parts of a manifest that decide how many pods there are, where they go and who they are. */
  datatype Parts = Parts(counts: string, items: string, list: string)

  /** A manifest is these parts, with other text before and between them. */
  ghost predicate HasParts(text: string, m: Parts) {
    exists front: string, more: string, middle: string ::
      text == front + (m.counts + more) + (m.items + (middle + m.list))
  }

  predicate ReadsBind(s: seq<Pod>, to: Machine, cluster: set<Machine>, m: Parts) {
    && to in cluster && ReadItems(m.items).Some? && to.hostname in ReadItems(m.items).value
    && forall q :: 0 <= q < |s| && Placed(s[q]) ==> s[q].at.hostname != to.hostname
  }

  /** A step, as the cluster takes it from the manifest: the scheduler reads the affinity list, a pod that starts
      reads the env list. */
  function ReadsNext(s: seq<Pod>, step: Step, cluster: set<Machine>, m: Parts): Option<seq<Pod>> {
    match step
    case Bind(p, to) =>
      if p < |s| && s[p].Pending? && ReadsBind(s, to, cluster, m) then Some(s[p := Bound(to)]) else None
    case Start(p) =>
      if p < |s| && s[p].Bound? && PodSpec.ReadEnv(m.list, s[p].at.name).Some? then
        var daemon := DaemonOf(PodSpec.ReadEnv(m.list, s[p].at.name).value);
        Some(s[p := if daemon.Some? then Running(s[p].at, daemon.value) else Refused(s[p].at)])
      else None
    case Exit(p) =>
      if p < |s| && Placed(s[p]) then Some(s[p := Gone]) else None
  }

  /** A Job whose pods all run at once. */
  function ReadsRun(steps: seq<Step>, cluster: set<Machine>, m: Parts): Option<seq<Pod>> {
    if steps == [] then
      match ReadCounts(m.counts)
      case Some((pods, most)) => if 0 <= pods == most then Some(seq(pods, _ => Pending)) else None
      case None => None
    else
      var before := ReadsRun(steps[..|steps| - 1], cluster, m);
      if before.None? then None else ReadsNext(before.value, steps[|steps| - 1], cluster, m)
  }

  /** All parts say what the launch says. */
  ghost predicate Says(m: Parts, job: Job) {
    && ReadCounts(m.counts) == Some((|job.ctx.nodes|, |job.ctx.nodes|))
    && ReadItems(m.items) == Some(NodeNames(job.ctx))
    && forall node: string :: PodSpec.ReadEnv(m.list, node) == Some(PodEnv(job.ctx, job.common, node))
  }

  /** Then the cluster does exactly what the launch allows. */
  lemma {:induction false} ReadsRunIs(steps: seq<Step>, m: Parts, job: Job)
    requires Says(m, job)
    ensures ReadsRun(steps, job.cluster, m) == Run(steps, job)
  {
    hide ReadCounts, ReadItems, PodSpec.ReadEnv, PodEnv, DaemonOf, NodeNames;
    if steps != [] {
      ReadsRunIs(steps[..|steps| - 1], m, job);
    }
  }

  /** The template of a Job as the default one is: text, the two counts, text, the affinity list, text, the env list. */
  function FullTemplate(head: string, more: string, mid: string): string {
    JobTemplate(head + (COUNTS + more), mid)
  }

  /** The manifest that a launch renders has all parts, and they say what the launch says. */
  lemma ManifestSays(head: string, more: string, mid: string, job: Job) returns (m: Parts)
    requires Sectionless(head) && Sectionless(more) && Sectionless(mid) && Readable(job.ctx)
    requires job.common != [] && AllPrintable(PairsOf(job.common)) && PlainNames(PairsOf(job.common))
    requires job.ctx.commonEnvars == Entries(PairsOf(job.common))
    ensures HasParts(Meaning(Parse(true, FullTemplate(head, more, mid)), job.ctx), m) && Says(m, job)
  {
    var ctx, scope := job.ctx, GlobalScope(job.ctx);
    FrontOpens(head, more);
    CountsRender(ctx);
    StartLines(head);
    StartLines(COUNTS) by {
      CountsOpen();
    }
    ManifestText(head + (COUNTS + more), mid, ctx);
    hide Meaning, Parse, JobTemplate, SpanMeaning, GlobalScope, Items, ReadItems, PodSpec.ReadEnv, PodEnv,
      PodSpec.Template, NodeNames, ReadCounts, Sectionless;
    LineStartCut(head, COUNTS + more, scope);
    LineStartCut(COUNTS, more, scope);
    m := Parts(SpanMeaning(COUNTS, scope), Items(NodeNames(ctx)), SpanMeaning(PodSpec.Template(), scope));
    HoldsParts(SpanMeaning(head, scope), SpanMeaning(more, scope), SpanMeaning(mid, scope), m);
    forall node: string
      ensures PodSpec.ReadEnv(m.list, node) == Some(PodEnv(ctx, job.common, node))
    {
      PodSpec.PodEnvRendered("", ctx, job.common, node);
    }
  }

  lemma StartLines(s: string)
    requires Sectionless(s)
    ensures s == "" || EndsInNewline(s)
  {
  }

  lemma HoldsParts(front: string, more: string, middle: string, m: Parts)
    ensures HasParts(front + (m.counts + more) + (m.items + (middle + m.list)), m)
  {
  }

  /** From the launch to the daemons: the text that PlanLaunch returns for such a template has the counts, an affinity
      list and an env list; and in every run in which the cluster reads them from it, there are as many pods as nodes,
      those that run have different vpids, all of them launched ones, each the one launched for the pod's node - and
      all of these, once all pods run. */
  lemma ManifestRuns(head: string, more: string, mid: string, cluster: set<Machine>, name: string, wanted: seq<MapNode>,
                     argv: seq<string>, slot: nat, convert: nat -> Option<string>, f: Filter, vpidStart: int)
    returns (m: Parts)
    requires Sectionless(head) && Sectionless(more) && Sectionless(mid)
    requires forall a, b :: a in cluster && b in cluster && a.name == b.name ==> a == b
    requires forall a :: a in cluster ==> PlainWord(a.name)
    requires SlotFrom(argv, 0, slot, VPID) && PlainArgv(argv) && Decimal(wanted, convert) && DistinctDaemons(wanted)
    requires forall k :: 0 <= k < |wanted| ==> PlainWord(NameOf(wanted[k]))
    requires forall i, j :: 0 <= i < j < |wanted| ==> NameOf(wanted[i]) != NameOf(wanted[j])
    requires var common := Settings(ArgvAfter(wanted, argv, slot, convert), f.(skip := Some(VPID)));
             common != [] && AllPrintable(PairsOf(common))
    ensures var ctx := LaunchContext(name, wanted, argv, slot, convert, f, vpidStart);
            var common := Settings(ArgvAfter(wanted, argv, slot, convert), f.(skip := Some(VPID)));
            && HasParts(Meaning(Parse(true, FullTemplate(head, more, mid)), ctx), m)
            && Says(m, Job(cluster, ctx, common))
            && forall steps :: ReadsRun(steps, cluster, m).Some? ==>
                 var s := ReadsRun(steps, cluster, m).value;
                 && |s| == |wanted|
                 && Started(s) <= Launched(ctx)
                 && ((forall p :: 0 <= p < |s| ==> s[p].Running?) ==> Started(s) == Launched(ctx))
                 && (forall p, q :: 0 <= p < q < |s| && s[p].Running? && s[q].Running? ==> s[p].vpid != s[q].vpid)
                 && (forall p :: 0 <= p < |s| && s[p].Running? ==> Named(ctx, s[p].at.name, s[p].vpid))
  {
    var ctx := LaunchContext(name, wanted, argv, slot, convert, f, vpidStart);
    var common := Settings(ArgvAfter(wanted, argv, slot, convert), f.(skip := Some(VPID)));
    var job := Job(cluster, ctx, common);
    LaunchSound(cluster, name, wanted, argv, slot, convert, f, vpidStart);
    PodSpec.ContextOf(name, wanted, argv, slot, convert, f, vpidStart);
    PodSpec.LaunchEntries(wanted, argv, slot, convert, f);
    SoundReadable(job);
    hide LaunchContext, ArgvAfter, Settings, PairsOf, AppendAll, Kept, Scan, Entries, SlotFrom, HasParts, Says, Meaning,
      Parse, FullTemplate, ReadsRun, Run, Started, Launched, Sound, Sectionless, NameOf, Named;
    m := ManifestSays(head, more, mid, job);
    forall steps | ReadsRun(steps, cluster, m).Some?
      ensures var s := ReadsRun(steps, cluster, m).value;
              && |s| == |wanted|
              && Started(s) <= Launched(ctx)
              && ((forall p :: 0 <= p < |s| ==> s[p].Running?) ==> Started(s) == Launched(ctx))
              && (forall p, q :: 0 <= p < q < |s| && s[p].Running? && s[q].Running? ==> s[p].vpid != s[q].vpid)
              && (forall p :: 0 <= p < |s| && s[p].Running? ==> Named(ctx, s[p].at.name, s[p].vpid))
    {
      ReadsRunIs(steps, m, job);
      RunFacts(steps, job);
    }
  }

  /** The launch has a node of that name and rank. */
  ghost predicate Named(ctx: Tctx, node: string, rank: string) {
    exists k :: 0 <= k < |ctx.nodes| && ctx.nodes[k].node == node && ctx.nodes[k].rank == rank
  }

  lemma SoundReadable(job: Job)
    requires Sound(job)
    ensures Readable(job.ctx)
  {
  }

  lemma RunFacts(steps: seq<Step>, job: Job)
    requires Sound(job) && Run(steps, job).Some?
    ensures var s := Run(steps, job).value;
            && |s| == |job.ctx.nodes|
            && Started(s) <= Launched(job.ctx)
            && ((forall p :: 0 <= p < |s| ==> s[p].Running?) ==> Started(s) == Launched(job.ctx))
            && (forall p, q :: 0 <= p < q < |s| && s[p].Running? && s[q].Running? ==> s[p].vpid != s[q].vpid)
            && (forall p :: 0 <= p < |s| && s[p].Running? ==> Named(job.ctx, s[p].at.name, s[p].vpid))
  {
    StartedLaunched(steps, job);
    RunKeeps(steps, job);
    hide Run, Sound, Started, Launched;
    var s := Run(steps, job).value;
    forall p, q | 0 <= p < q < |s| && s[p].Running? && s[q].Running?
      ensures s[p].vpid != s[q].vpid
    {
      RunningDistinct(steps, job, p, q);
    }
  }
}
