/** The env list of the default template, rendered and read back (templates/single-job.yaml.tmpl:107-118). */
module PodSpec {
  import opened Strings
  import opened EnvBlock
  import opened Tags
  import opened Spans
  import opened Sections
  import opened Envars
  import opened Launch
  import opened Identity
  import opened Cleanup

  const MARGIN := "            "

  /** The entry whose value the kubelet fills in. */
  const NODE_ENTRY := ["- name: " + NODE, "  valueFrom:", "    fieldRef:", "      fieldPath: spec.nodeName"]

  const MAP_NAME := "- name: " + NODE_VPIDS
  const FIXED_LINES := ["- name: " + FIXED[0].key, "  value: \"1\"", "- name: " + FIXED[1].key, "  value: \"1\""]

  /** Lines at the list's column. */
  function Margined(lines: seq<string>): string {
    if lines == [] then "" else MARGIN + lines[0] + "\n" + Margined(lines[1..])
  }

  /** The lines of the template from the first entry to the env tag. */
  function Template(): string {
    Margined(NODE_ENTRY + [MAP_NAME])
      + (MAP_LINE_HEAD + (Spelling(Tag.NodeVpids, Tight).Text() + "\"\n")
      + (Margined(FIXED_LINES)
      + (MARGIN + (Spelling(Tag.Env, Tight).Text() + "\n"))))
  }

  /** The entries that the template lists itself, without the first. */
  function Own(ctx: Tctx): seq<Pair> {
    [Pair(NODE_VPIDS, Join(NodePairs(ctx), ","))] + FIXED
  }

  /** Reads the list: the first entry's value is the name of the node that the pod is on. */
  function ReadEnv(text: string, node: string): Option<seq<Pair>> {
    if !EndsInNewline(text) then None
    else
      var block := Unindent(text[..|text| - 1], MARGIN);
      if block.None? then None else ReadEntries(Split(block.value, '\n'), node)
  }

  function ReadEntries(lines: seq<string>, node: string): Option<seq<Pair>> {
    if !(NODE_ENTRY <= lines) then None
    else
      var rest := ReadLines(lines[|NODE_ENTRY|..]);
      if rest.None? then None else Some([Pair(NODE, node)] + rest.value)
  }

  /** The lines of an env list behind the template's own entries. */
  function Appended(pairs: seq<Pair>): seq<string> {
    if pairs == [] then ["[]"] else EntryLines(Entries(pairs))
  }

  /** The lines as they stand in the template. */
  lemma TemplateLines()
    ensures NODE_ENTRY == ["- name: PRTE_K8S_NODE", "  valueFrom:", "    fieldRef:", "      fieldPath: spec.nodeName"]
    ensures MAP_NAME == "- name: PRTE_K8S_NODE_VPIDS"
    ensures FIXED_LINES == ["- name: PRTE_ALLOW_RUN_AS_ROOT", "  value: \"1\"",
                            "- name: PRTE_ALLOW_RUN_AS_ROOT_CONFIRM", "  value: \"1\""]
  {
    assert NODE_ENTRY[0] == "- name: PRTE_K8S_NODE" && MAP_NAME == "- name: PRTE_K8S_NODE_VPIDS";
    FixedNames();
  }

  lemma FixedNames()
    ensures FIXED_LINES[0] == "- name: PRTE_ALLOW_RUN_AS_ROOT"
    ensures FIXED_LINES[2] == "- name: PRTE_ALLOW_RUN_AS_ROOT_CONFIRM"
  {
  }

  // ------------------------------------------------------------------ rendering

  lemma {:induction false} MarginedConcat(a: seq<string>, b: seq<string>)
    ensures Margined(a + b) == Margined(a) + Margined(b)
  {
    if a == [] {
      assert a + b == b;
    } else {
      assert (a + b)[1..] == a[1..] + b;
      MarginedConcat(a[1..], b);
      Grouped(MARGIN + a[0] + "\n", Margined(a[1..]), Margined(b));
    }
  }

  lemma Grouped(a: string, b: string, c: string)
    ensures a + (b + c) == a + b + c
  {
  }

  /** At the list's column the lines are one text indented. */
  lemma {:induction false} MarginedText(lines: seq<string>)
    requires lines != []
    ensures Margined(lines) == MARGIN + Join(lines, "\n" + MARGIN) + "\n"
  {
    var rest := lines[1..];
    if rest == [] {
      assert Margined(rest) == "" && MARGIN + lines[0] + "\n" + "" == MARGIN + lines[0] + "\n";
    } else {
      MarginedText(rest);
      hide Join;
      JoinStep(lines, "\n" + MARGIN);
      Regrouped(MARGIN, lines[0], Join(rest, "\n" + MARGIN));
    }
  }

  lemma JoinStep(lines: seq<string>, sep: string)
    requires |lines| > 1
    ensures Join(lines, sep) == lines[0] + sep + Join(lines[1..], sep)
  {
  }

  lemma Regrouped(m: string, a: string, j: string)
    ensures m + a + "\n" + (m + j + "\n") == m + (a + ("\n" + m) + j) + "\n"
  {
  }

  /** The lines of joined lines. */
  lemma LinesJoined(lines: seq<string>)
    requires lines != [] && forall l :: l in lines ==> '\n' !in l
    requires !EndsInNewline(Join(lines, "\n")) && Join(lines, "\n") != ""
    ensures Lines(Join(lines, "\n")) == lines
  {
    var s := Join(lines, "\n");
    JoinLines(s);
    SplitJoin(lines, '\n');
    SplitJoin(Lines(s), '\n');
  }

  lemma EnvLine(pairs: seq<Pair>)
    requires PlainNames(pairs)
    ensures MARGIN + Reindent(EnvText(Entries(pairs)), MARGIN) + "\n" == Margined(Appended(pairs))
  {
    if pairs == [] {
      EmptyLine();
    } else {
      EntryLinesShape(pairs);
      BlockEnd(pairs);
      TextOfLines(Entries(pairs));
      hide EnvText, EntryLines, Entries, Margined, Reindent, EndsInNewline;
      var lines := EntryLines(Entries(pairs));
      SomeText(lines);
      LinesJoined(lines);
      MarginedText(lines);
      ReindentIs(Join(lines, "\n"), MARGIN);
    }
  }

  lemma ReindentIs(block: string, indent: string)
    ensures Reindent(block, indent) == Join(Lines(block), "\n" + indent)
  {
  }

  lemma SomeText(lines: seq<string>)
    requires lines != [] && lines[0] != ""
    ensures Join(lines, "\n") != ""
  {
  }

  lemma EmptyLine()
    ensures MARGIN + Reindent(EnvText(Entries([])), MARGIN) + "\n" == Margined(Appended([]))
  {
    assert Entries([]) == [];
    LinesJoined(["[]"]);
    assert Margined(["[]"][1..]) == "";
    assert MARGIN + "[]" + "\n" + "" == MARGIN + "[]" + "\n";
  }

  lemma {:induction false} MarginedClean(lines: seq<string>)
    requires forall l :: l in lines ==> '{' !in l
    ensures '{' !in Margined(lines) && (lines != [] ==> EndsInNewline(Margined(lines)))
  {
    if lines != [] {
      assert lines[0] in lines;
      MarginedClean(lines[1..]);
    }
  }

  lemma LinesClean()
    ensures forall l :: l in NODE_ENTRY + [MAP_NAME] || l in FIXED_LINES ==> '{' !in l
  {
    EntryClean();
    FixedClean();
  }

  lemma EntryClean()
    ensures forall l :: l in NODE_ENTRY + [MAP_NAME] ==> '{' !in l
  {
    assert '{' !in NODE && '{' !in NODE_VPIDS;
  }

  lemma FixedClean()
    ensures forall l :: l in FIXED_LINES ==> '{' !in l
  {
    KeysClean();
    CleanConcat("- name: ", FIXED[0].key);
    CleanConcat("- name: ", FIXED[1].key);
    assert '{' !in "  value: \"1\"";
  }

  lemma CleanConcat(a: string, b: string)
    requires '{' !in a && '{' !in b
    ensures '{' !in a + b
  {
  }

  lemma KeysClean()
    ensures '{' !in FIXED[0].key && '{' !in FIXED[1].key
  {
  }

  /** The entries of the template's own, as the lines that the renderer would write for them. */
  lemma OwnLines(ctx: Tctx)
    ensures PlainNames(Own(ctx))
    ensures EntryLines(Entries(Own(ctx)))
         == [MAP_NAME] + (["  value: " + Quote(Join(NodePairs(ctx), ","))] + FIXED_LINES)
  {
    var own, printed := Own(ctx), Join(NodePairs(ctx), ",");
    OwnKeys();
    QuotedOne();
    hide Join, EntryLines, Entries, PlainName, Quote;
    assert own == [Pair(NODE_VPIDS, printed), FIXED[0], FIXED[1]];
    ThreeEntries(own[0], FIXED[0], FIXED[1]);
    assert MAP_NAME == "- name: " + NODE_VPIDS;
    ThreeLines(MAP_NAME, "  value: " + Quote(printed), FIXED_LINES[0], FIXED_LINES[1], FIXED_LINES[2], FIXED_LINES[3]);
  }

  lemma ThreeLines(a: string, b: string, c: string, d: string, e: string, f: string)
    ensures [a, b] + ([c, d] + [e, f]) == [a] + ([b] + [c, d, e, f])
  {
  }

  lemma ThreeEntries(a: Pair, b: Pair, c: Pair)
    requires PlainName(a.key) && PlainName(b.key) && PlainName(c.key)
    ensures EntryLines(Entries([a, b, c]))
         == ["- name: " + a.key, "  value: " + Quote(a.value)]
              + (["- name: " + b.key, "  value: " + Quote(b.value)]
                 + ["- name: " + c.key, "  value: " + Quote(c.value)])
  {
    hide EntryLines, Entries, PlainName, Quote;
    EntriesCons([a, b, c]);
    assert [a, b, c][1..] == [b, c];
    EntriesCons([b, c]);
    assert [b, c][1..] == [c];
    EntriesCons([c]);
    assert [c][1..] == [];
    NoEntries();
    var last := ["- name: " + c.key, "  value: " + Quote(c.value)];
    assert last + [] == last;
  }

  lemma NoEntries()
    ensures EntryLines(Entries([])) == []
  {
  }

  lemma QuotedOne()
    ensures "  value: " + Quote("1") == "  value: \"1\""
  {
    assert Escape("1") == "1";
    assert Quote("1") == "\"1\"" && "  value: " + "\"1\"" == "  value: \"1\"";
  }

  lemma OwnKeys()
    ensures PlainName(NODE_VPIDS) && PlainName(FIXED[0].key) && PlainName(FIXED[1].key)
  {
    MapKey();
    FirstKey();
    hide PlainName;
    SecondKey();
  }

  lemma MapKey()
    ensures PlainName(NODE_VPIDS)
  {
    LongName(NODE_VPIDS);
  }

  lemma FirstKey()
    ensures PlainName(FIXED[0].key)
  {
    LongName(FIXED[0].key);
  }

  lemma SecondKey()
    ensures PlainName(FIXED[1].key)
  {
    LongName(FIXED[1].key);
  }

  lemma MapRendered(ctx: Tctx)
    requires Readable(ctx)
    ensures SpanMeaning(MAP_LINE_HEAD + (Spelling(Tag.NodeVpids, Tight).Text() + "\"\n"), GlobalScope(ctx))
         == Margined(["  value: " + Quote(Join(NodePairs(ctx), ","))])
  {
    MapLine(ctx);
    hide SpanMeaning, Quote, Join, GlobalScope;
    var line := "  value: " + Quote(Join(NodePairs(ctx), ","));
    assert [line][1..] == [];
    OneLine(Quote(Join(NodePairs(ctx), ",")));
  }

  lemma OneLine(quoted: string)
    ensures MARGIN + ("  value: " + quoted) + "\n" + "" == "              value: " + quoted + "\n"
  {
    assert MARGIN + "  value: " == "              value: ";
  }

  lemma EnvRendered(ctx: Tctx, pairs: seq<Pair>)
    requires PlainNames(pairs) && ctx.commonEnvars == Entries(pairs)
    ensures SpanMeaning(MARGIN + (Spelling(Tag.Env, Tight).Text() + "\n"), GlobalScope(ctx))
         == Margined(Appended(pairs))
  {
    var scope := GlobalScope(ctx);
    assert AllBlank(MARGIN);
    hide EnvText, Reindent, Spelling.Text, Margined;
    EnvBehindBlanks(MARGIN, Spelling(Tag.Env, Tight), "\n", scope);
    LastBreak(scope);
    EnvLine(pairs);
    assert MARGIN + (Reindent(scope.commonEnv, MARGIN) + "\n") == MARGIN + Reindent(scope.commonEnv, MARGIN) + "\n";
  }

  lemma LastBreak(scope: Scope)
    requires scope.Valid()
    ensures Eval(Tokens("\n"), None, scope) == "\n"
  {
    forall i | 0 <= i <= 1
      ensures !TagAt("\n", i)
    {
      if i == 0 {
        NoBrace("\n", 0);
      } else {
        NoTagAtEnd("\n");
      }
    }
    SpanIdentity("\n", None, scope);
  }

  /** The rendered section is the lines of one list, at its column. */
  lemma Rendered(ctx: Tctx, pairs: seq<Pair>)
    requires Readable(ctx) && PlainNames(pairs) && ctx.commonEnvars == Entries(pairs)
    ensures SpanMeaning(Template(), GlobalScope(ctx))
         == Margined(NODE_ENTRY + (EntryLines(Entries(Own(ctx))) + Appended(pairs)))
  {
    hide SpanMeaning, GlobalScope, Margined, Spelling.Text, EntryLines, Entries, Appended, Quote, Join;
    var scope := GlobalScope(ctx);
    var a, c := Margined(NODE_ENTRY + [MAP_NAME]), Margined(FIXED_LINES);
    var b := MAP_LINE_HEAD + (Spelling(Tag.NodeVpids, Tight).Text() + "\"\n");
    var d := MARGIN + (Spelling(Tag.Env, Tight).Text() + "\n");
    LinesClean();
    MarginedClean(NODE_ENTRY + [MAP_NAME]);
    MarginedClean(FIXED_LINES);
    NoTagLine(a, scope);
    NoTagLine(c, scope);
    MapRendered(ctx);
    EnvRendered(ctx, pairs);
    ThreeLineStarts(a, b, c, d, scope);
    OwnLines(ctx);
    FourParts(NODE_ENTRY, [MAP_NAME], ["  value: " + Quote(Join(NodePairs(ctx), ","))], FIXED_LINES, Appended(pairs));
  }

  lemma ThreeLineStarts(a: string, b: string, c: string, d: string, scope: Scope)
    requires scope.Valid() && EndsInNewline(a) && EndsInNewline(b) && EndsInNewline(c)
    ensures SpanMeaning(a + (b + (c + d)), scope)
         == SpanMeaning(a, scope) + (SpanMeaning(b, scope) + (SpanMeaning(c, scope) + SpanMeaning(d, scope)))
  {
    SpanByLines(a, b + (c + d), scope);
    SpanByLines(b, c + d, scope);
    SpanByLines(c, d, scope);
  }

  lemma FourParts(entry: seq<string>, name: seq<string>, value: seq<string>, more: seq<string>, last: seq<string>)
    ensures Margined(entry + name) + (Margined(value) + (Margined(more) + Margined(last)))
         == Margined(entry + ((name + (value + more)) + last))
  {
    hide Margined;
    MarginedConcat(more, last);
    MarginedConcat(value, more + last);
    MarginedConcat(entry + name, value + (more + last));
    assert entry + name + (value + (more + last)) == entry + ((name + (value + more)) + last);
  }

  // -------------------------------------------------------------------- reading

  /** The reader finds the lines that stand at the column. */
  lemma ReadMargined(lines: seq<string>, node: string)
    requires lines != [] && forall l :: l in lines ==> '\n' !in l
    ensures ReadEnv(Margined(lines), node) == ReadEntries(lines, node)
  {
    MarginedText(lines);
    JoinIndented(lines, MARGIN);
    assert '\n' !in MARGIN;
    SplitJoin(lines, '\n');
    SplitJoin(IndentEach(lines, MARGIN), '\n');
    StripIndented(lines, MARGIN);
    hide Join, Split, Margined, ReadEntries, StripEach;
    var body := MARGIN + Join(lines, "\n" + MARGIN);
    assert (body + "\n")[..|body|] == body;
  }

  lemma EntryRead(body: seq<string>, node: string)
    ensures ReadEntries(NODE_ENTRY + body, node)
         == if ReadLines(body).None? then None else Some([Pair(NODE, node)] + ReadLines(body).value)
  {
    assert (NODE_ENTRY + body)[|NODE_ENTRY|..] == body;
  }

  lemma MapPrintable(ctx: Tctx)
    requires Readable(ctx)
    ensures AllPrintable(Own(ctx))
  {
    MapLine(ctx);
    ScalarRoundTrip(Join(NodePairs(ctx), ","));
    hide Join, SpanMeaning, ReadScalar;
  }

  lemma BodyRead(ctx: Tctx, pairs: seq<Pair>)
    requires Readable(ctx) && PlainNames(pairs)
    ensures ReadLines(EntryLines(Entries(Own(ctx))) + Appended(pairs))
         == if pairs != [] && AllPrintable(pairs) then Some(Own(ctx) + pairs) else None
  {
    OwnLines(ctx);
    MapPrintable(ctx);
    hide *;
    if pairs == [] {
      BrokenTail(Own(ctx));
      EmptyAppended();
    } else {
      BothRead(Own(ctx), pairs);
    }
  }

  lemma EmptyAppended()
    ensures Appended([]) == ["[]"]
  {
  }

  lemma BothRead(own: seq<Pair>, pairs: seq<Pair>)
    requires PlainNames(own) && PlainNames(pairs) && AllPrintable(own) && pairs != []
    ensures ReadLines(EntryLines(Entries(own)) + Appended(pairs))
         == if AllPrintable(pairs) then Some(own + pairs) else None
  {
    hide EntryLines, Entries, ReadLines, Printable, PlainName;
    EntriesConcat(own, pairs);
    EntryLinesConcat(Entries(own), Entries(pairs));
    ReadEntryLines(own + pairs);
    assert forall i :: 0 <= i < |pairs| ==> (own + pairs)[|own| + i] == pairs[i];
  }

  lemma NoBreaks(ctx: Tctx, pairs: seq<Pair>)
    requires PlainNames(pairs)
    ensures forall l :: l in NODE_ENTRY + (EntryLines(Entries(Own(ctx))) + Appended(pairs)) ==> '\n' !in l
  {
    OwnLines(ctx);
    EntryLinesShape(Own(ctx));
    EntryLinesShape(pairs);
    hide EntryLines, Entries, Own;
    EntryNoBreaks();
    assert '\n' !in "[]";
  }

  lemma EntryNoBreaks()
    ensures forall l :: l in NODE_ENTRY ==> '\n' !in l
  {
    assert '\n' !in NODE;
  }

  lemma WholeEnv(ctx: Tctx, common: seq<Setting>, node: string)
    ensures [Pair(NODE, node)] + (Own(ctx) + PairsOf(common)) == PodEnv(ctx, common, node)
  {
    hide Join;
  }

  /** The env list of the default template, wherever it stands at the start of a line: what a reader of the
      manifest gets on a node is the pod's environment, with the map and the common settings of the launch,
      exactly if there are any and they can be read. */
  lemma PodEnvRendered(front: string, ctx: Tctx, common: seq<Setting>, node: string)
    requires front == "" || EndsInNewline(front)
    requires Readable(ctx) && PlainNames(PairsOf(common)) && ctx.commonEnvars == Entries(PairsOf(common))
    ensures var list := SpanMeaning(Template(), GlobalScope(ctx));
            && SpanMeaning(front + Template(), GlobalScope(ctx)) == SpanMeaning(front, GlobalScope(ctx)) + list
            && ReadEnv(list, node)
               == if common != [] && AllPrintable(PairsOf(common)) then Some(PodEnv(ctx, common, node)) else None
  {
    var pairs := PairsOf(common);
    LineStartCut(front, Template(), GlobalScope(ctx));
    Rendered(ctx, pairs);
    NoBreaks(ctx, pairs);
    BodyRead(ctx, pairs);
    var body := EntryLines(Entries(Own(ctx))) + Appended(pairs);
    EntryRead(body, node);
    hide SpanMeaning, GlobalScope, Margined, ReadEnv, ReadEntries, Template, EntryLines, Entries, ReadLines, Own,
      PodEnv, Appended;
    ReadMargined(NODE_ENTRY + body, node);
    WholeEnv(ctx, common, node);
  }

  // ----------------------------------------------------------------- in every launch

  /** The env array of a launch is its common settings, each once. */
  lemma LaunchEntries(wanted: seq<MapNode>, argv: seq<string>, slot: nat, convert: nat -> Option<string>, f: Filter)
    requires SlotFrom(argv, 0, slot, VPID) && PlainArgv(argv)
    requires (forall k :: 0 <= k < |wanted| ==> wanted[k].daemon.Some?) && RanksPrint(wanted, convert)
    ensures var after, g := ArgvAfter(wanted, argv, slot, convert), f.(skip := Some(VPID));
            && AppendAll(Kept(Scan(after, 0), g)) == Entries(PairsOf(Settings(after, g)))
            && PlainNames(PairsOf(Settings(after, g)))
  {
    var after, g := ArgvAfter(wanted, argv, slot, convert), f.(skip := Some(VPID));
    if wanted != [] {
      PlainAnySlot(argv, slot, RankOf(wanted[|wanted| - 1], convert));
    }
    assert PlainArgv(after);
    hide Scan, Forwarded, SlotFrom, ArgvAfter, RankOf;
    KeptPlain(Scan(after, 0), g);
    AppendAllFirst(Kept(Scan(after, 0), g));
    PlainKeys(after, g);
  }

  lemma ContextOf(name: string, wanted: seq<MapNode>, argv: seq<string>, slot: nat,
                  convert: nat -> Option<string>, f: Filter, vpidStart: int)
    requires slot < |argv| && (forall k :: 0 <= k < |wanted| ==> wanted[k].daemon.Some?) && RanksPrint(wanted, convert)
    ensures var ctx := LaunchContext(name, wanted, argv, slot, convert, f, vpidStart);
            && |ctx.nodes| == |wanted|
            && (forall k :: 0 <= k < |wanted| ==> Some(ctx.nodes[k].rank) == convert(wanted[k].daemon.value))
            && ctx.commonEnvars
               == AppendAll(Kept(Scan(ArgvAfter(wanted, argv, slot, convert), 0), f.(skip := Some(VPID))))
  {
    hide AppendAll, Kept, Scan, ArgvAfter;
  }

  lemma PlainKeys(argv: seq<string>, f: Filter)
    requires PlainArgv(argv)
    ensures PlainNames(PairsOf(Settings(argv, f)))
  {
    SettingsFiltered(argv, f);
    hide Scan, Forwarded, Settings, Setting.Key;
    var ts := Settings(argv, f);
    forall i | 0 <= i < |ts|
      ensures PlainName(PairsOf(ts)[i].key)
    {
      assert ts[i] in ts;
      PlainKey(ts[i]);
    }
  }

  /** From the launch to the daemon: on whatever node a pod reads its env list, the script starts the daemon that
      the launch put there, under its own rank, and none on a node without one. */
  lemma ManifestIdentity(name: string, wanted: seq<MapNode>, argv: seq<string>, slot: nat,
                         convert: nat -> Option<string>, f: Filter, vpidStart: int, node: string)
    requires SlotFrom(argv, 0, slot, VPID) && PlainArgv(argv) && PlainWord(node)
    requires (forall k :: 0 <= k < |wanted| ==> wanted[k].daemon.Some?) && RanksPrint(wanted, convert)
    requires var ctx := LaunchContext(name, wanted, argv, slot, convert, f, vpidStart);
             Readable(ctx) && DistinctNames(ctx)
    ensures var ctx := LaunchContext(name, wanted, argv, slot, convert, f, vpidStart);
            var common := Settings(ArgvAfter(wanted, argv, slot, convert), f.(skip := Some(VPID)));
            var env := ReadEnv(SpanMeaning(Template(), GlobalScope(ctx)), node);
            && (env.Some? <==> common != [] && AllPrintable(PairsOf(common)))
            && (env.Some? ==>
                  && (forall k :: 0 <= k < |wanted| && ctx.nodes[k].node == node ==>
                        DaemonOf(env.value) == convert(wanted[k].daemon.value))
                  && (DaemonOf(env.value).None? <==> node !in NodeNames(ctx)))
  {
    var ctx := LaunchContext(name, wanted, argv, slot, convert, f, vpidStart);
    var after := ArgvAfter(wanted, argv, slot, convert);
    var common := Settings(after, f.(skip := Some(VPID)));
    ContextOf(name, wanted, argv, slot, convert, f, vpidStart);
    LaunchEntries(wanted, argv, slot, convert, f);
    LaunchLeavesVpidUnset(after, f);
    hide LaunchContext, SpanMeaning, Template, GlobalScope, ReadEnv, DaemonOf, PodEnv, Settings, ArgvAfter, Kept,
      Scan, AppendAll, Entries, PairsOf, NodeNames, SlotFrom, Setting.Key;
    PodEnvRendered("", ctx, common, node);
    PodIdentity(ctx, common, node);
  }
}
