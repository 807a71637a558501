/** How a pod finds out which daemon it is: the map in the manifest, the shell that reads it, and every way
    the scheduler may place the pods (plm_k8s_template.c:739-749, templates/single-job.yaml.tmpl). */
module Identity {
  import opened Strings
  import opened EnvBlock
  import opened Tags
  import opened Spans
  import opened Sections
  import opened Envars
  import opened Launch

  const NODE := "PRTE_K8S_NODE"
  const NODE_VPIDS := "PRTE_K8S_NODE_VPIDS"
  const VPID_VARIABLE := "PRTE_MCA_ess_base_vpid"

  // ------------------------------------------------------------------- the shell

  /** Field splitting with IFS="," (POSIX Shell Command Language, section 2.6.5): a comma ends a field, so
      the text after the last one is a field only if there is any. */
  function Fields(s: string): seq<string> {
    var parts := Split(s, ',');
    if parts[|parts| - 1] == "" then parts[..|parts| - 1] else parts
  }

  /** ${pair#*:}: what follows the first colon (section 2.6.2). */
  function AfterColon(pair: string): string {
    var colon := Find(pair, 0, ":");
    if colon.None? then pair else pair[colon.value + 1..]
  }

  /** The last pair that starts with "node:" decides. */
  function Lookup(pairs: seq<string>, node: string, initial: string): string {
    if pairs == [] then initial
    else
      var n := |pairs| - 1;
      if node + ":" <= pairs[n] then AfterColon(pairs[n]) else Lookup(pairs[..n], node, initial)
  }

  /** The value of a variable in a container's env list: the last entry wins, an unset one expands to "". */
  function EnvValue(env: seq<Pair>, key: string): string {
    if env == [] then ""
    else
      var n := |env| - 1;
      if env[n].key == key then env[n].value else EnvValue(env[..n], key)
  }

  /** The vpid `prted` is started with; None: the script refuses to start it. */
  function DaemonOf(env: seq<Pair>): Option<string> {
    var vpid := Lookup(Fields(EnvValue(env, NODE_VPIDS)), EnvValue(env, NODE), EnvValue(env, VPID_VARIABLE));
    if vpid == "" then None else Some(vpid)
  }

  method Entrypoint(env: seq<Pair>) returns (daemon: Option<string>)
    ensures daemon == DaemonOf(env)
  {
    hide EnvValue, Fields, AfterColon;
    var node, vpid := EnvValue(env, NODE), EnvValue(env, VPID_VARIABLE);
    var fields := Fields(EnvValue(env, NODE_VPIDS));
    for i := 0 to |fields|
      invariant vpid == Lookup(fields[..i], node, EnvValue(env, VPID_VARIABLE))
    {
      assert fields[..i + 1][..i] == fields[..i];
      if node + ":" <= fields[i] {
        vpid := AfterColon(fields[i]);
      }
    }
    assert fields[..|fields|] == fields;
    if vpid == "" {
      return None;
    }
    return Some(vpid);
  }

  // ------------------------------------------------------------- reading the map back

  function PairText(n: TNode): string {
    n.node + ":" + n.rank
  }

  /** The last entry of a name is what the container gets, and a name that is not listed is unset. */
  lemma LastEntry(env: seq<Pair>, key: string, name: string, value: string)
    ensures EnvValue(env + [Pair(name, value)], key) == if name == key then value else EnvValue(env, key)
    ensures EnvValue([], key) == ""
  {
    assert (env + [Pair(name, value)])[..|env|] == env;
  }

  lemma AfterFirstColon(node: string, rest: string)
    requires ':' !in node
    ensures AfterColon(node + ":" + rest) == rest && node + ":" <= node + ":" + rest
  {
    var pair := node + ":" + rest;
    assert At(pair, |node|, ":");
    forall i | 0 <= i < |node|
      ensures !At(pair, i, ":")
    {
      assert pair[i..i + 1][0] == node[i];
    }
    assert pair[|node| + 1..] == rest;
  }

  /** No field is for that node. */
  ghost predicate NoneFor(fields: seq<string>, node: string) {
    forall i :: 0 <= i < |fields| ==> !(node + ":" <= fields[i])
  }

  lemma {:induction false} LookupFields(fields: seq<string>, node: string, initial: string, k: nat, rest: string)
    requires ':' !in node
    ensures NoneFor(fields, node) ==> Lookup(fields, node, initial) == initial
    ensures k < |fields| && fields[k] == node + ":" + rest && NoneFor(fields[k + 1..], node)
        ==> Lookup(fields, node, initial) == rest
  {
    hide AfterColon;
    if fields != [] {
      var n := |fields| - 1;
      LookupFields(fields[..n], node, initial, k, rest);
      AfterFirstColon(node, rest);
      if k < n {
        assert fields[k + 1..][n - k - 1] == fields[n];
        assert fields[..n][k + 1..] == fields[k + 1..][..n - k - 1];
      }
    }
  }

  /** Whatever the container's environment: the last field of PRTE_K8S_NODE_VPIDS that starts with PRTE_K8S_NODE and a
      colon decides, and the vpid is all that follows that colon; without one, it is what PRTE_MCA_ess_base_vpid is set
      to; and an empty vpid means that no daemon is started. */
  lemma ScriptDecides(env: seq<Pair>, fields: seq<string>, k: nat, rest: string)
    requires EnvValue(env, "PRTE_K8S_NODE_VPIDS") == Join(fields, ",") && fields != [] && fields[|fields| - 1] != ""
    requires forall i :: 0 <= i < |fields| ==> ',' !in fields[i]
    requires ':' !in EnvValue(env, "PRTE_K8S_NODE")
    ensures var node, preset := EnvValue(env, "PRTE_K8S_NODE"), EnvValue(env, "PRTE_MCA_ess_base_vpid");
            && (k < |fields| && fields[k] == node + ":" + rest && NoneFor(fields[k + 1..], node) ==>
                  DaemonOf(env) == if rest == "" then None else Some(rest))
            && (NoneFor(fields, node) ==> DaemonOf(env) == if preset == "" then None else Some(preset))
  {
    var node, preset := EnvValue(env, "PRTE_K8S_NODE"), EnvValue(env, "PRTE_MCA_ess_base_vpid");
    SplitJoin(fields, ',');
    LookupFields(fields, node, preset, k, rest);
    hide EnvValue, Split, Join, Lookup, NoneFor;
    assert Fields(Join(fields, ",")) == fields;
  }

  /** Names and ranks that survive the map: non-empty, and of characters no one on the way treats specially. */
  ghost predicate Readable(ctx: Tctx) {
    forall k :: 0 <= k < |ctx.nodes| ==> PlainWord(ctx.nodes[k].node) && PlainWord(ctx.nodes[k].rank)
  }

  lemma PlainPair(n: TNode)
    requires PlainWord(n.node) && PlainWord(n.rank)
    ensures ',' !in PairText(n) && PairText(n) != ""
    ensures forall i :: 0 <= i < |PairText(n)| ==>
      PairText(n)[i] >= ' ' && PairText(n)[i] != '"' && PairText(n)[i] != '\\'
  {
    forall i | 0 <= i < |PairText(n)|
      ensures PairText(n)[i] == ':' || PairText(n)[i] in n.node || PairText(n)[i] in n.rank
    {
    }
  }

  /** The field splitting of the printed map gives back exactly the pairs that were printed. */
  lemma FieldsOfMap(ctx: Tctx)
    requires Readable(ctx)
    ensures Fields(Join(NodePairs(ctx), ",")) == NodePairs(ctx)
  {
    var pairs := NodePairs(ctx);
    if pairs != [] {
      forall k | 0 <= k < |pairs|
        ensures ',' !in pairs[k] && pairs[k] != ""
      {
        PlainPair(ctx.nodes[k]);
      }
      SplitJoin(pairs, ',');
    } else {
      assert Split("", ',') == [""];
    }
  }

  lemma PairOfNode(n: TNode, node: string)
    requires PlainWord(n.node) && PlainWord(node)
    ensures node + ":" <= PairText(n) <==> n.node == node
    ensures AfterColon(PairText(n)) == n.rank
  {
    var p, m := PairText(n), |n.node|;
    assert At(p, m, ":");
    forall i | 0 <= i < m
      ensures !At(p, i, ":")
    {
      assert p[i..i + 1][0] == n.node[i];
    }
    assert p[m + 1..] == n.rank;
    if node + ":" <= p {
      var l := |node|;
      assert forall i :: 0 <= i <= l ==> p[i] == (node + ":")[i];
      FirstColon(p, l, m) by {
        assert forall i :: 0 <= i < l ==> p[i] == node[i] != ':';
        assert forall i :: 0 <= i < m ==> p[i] == n.node[i] != ':';
      }
      assert node == p[..l] && n.node == p[..m];
    }
  }

  lemma FirstColon(p: string, l: nat, m: nat)
    requires l < |p| && m < |p| && p[l] == p[m] == ':'
    requires (forall i :: 0 <= i < l ==> p[i] != ':') && (forall i :: 0 <= i < m ==> p[i] != ':')
    ensures l == m
  {
  }

  lemma LookupStep(ctx: Tctx, n: nat, node: string, initial: string)
    requires 0 < n <= |ctx.nodes|
    ensures var last := PairText(ctx.nodes[n - 1]);
            Lookup(NodePairs(ctx)[..n], node, initial)
              == if node + ":" <= last then AfterColon(last) else Lookup(NodePairs(ctx)[..n - 1], node, initial)
  {
    hide AfterColon;
    assert NodePairs(ctx)[..n][..n - 1] == NodePairs(ctx)[..n - 1];
    assert NodePairs(ctx)[..n][n - 1] == PairText(ctx.nodes[n - 1]);
  }

  /** The last node of that name. */
  function LastNamed(nodes: seq<TNode>, node: string): (r: Option<nat>)
    ensures r.Some? ==> r.value < |nodes| && nodes[r.value].node == node
    ensures r.Some? ==> forall j :: r.value < j < |nodes| ==> nodes[j].node != node
    ensures r.None? ==> forall j :: 0 <= j < |nodes| ==> nodes[j].node != node
  {
    if nodes == [] then None
    else
      var n := |nodes| - 1;
      if nodes[n].node == node then Some(n) else LastNamed(nodes[..n], node)
  }

  /** The shell finds the rank of the last node of that name, and keeps the initial value without one. */
  lemma {:induction false} LookupLast(ctx: Tctx, n: nat, node: string, initial: string)
    requires Readable(ctx) && PlainWord(node) && n <= |ctx.nodes|
    ensures var last := LastNamed(ctx.nodes[..n], node);
            Lookup(NodePairs(ctx)[..n], node, initial) == if last.None? then initial else ctx.nodes[last.value].rank
  {
    hide PairText, AfterColon, PlainWord;
    if n > 0 {
      LookupLast(ctx, n - 1, node, initial);
      PairOfNode(ctx.nodes[n - 1], node);
      LookupStep(ctx, n, node, initial);
      assert ctx.nodes[..n][..n - 1] == ctx.nodes[..n - 1];
    }
  }

  ghost predicate DistinctNames(ctx: Tctx) {
    forall i, j :: 0 <= i < j < |ctx.nodes| ==> ctx.nodes[i].node != ctx.nodes[j].node
  }

  ghost predicate DistinctRanks(ctx: Tctx) {
    forall i, j :: 0 <= i < j < |ctx.nodes| ==> ctx.nodes[i].rank != ctx.nodes[j].rank
  }

  // ------------------------------------------------------------- a pod's environment

  const FIXED := [Pair("PRTE_ALLOW_RUN_AS_ROOT", "1"), Pair("PRTE_ALLOW_RUN_AS_ROOT_CONFIRM", "1")]

  /** The env list of the one pod template: the node it landed on, the map, two constants, the common
      settings. */
  function PodEnv(ctx: Tctx, common: seq<Setting>, node: string): seq<Pair> {
    [Pair(NODE, node), Pair(NODE_VPIDS, Join(NodePairs(ctx), ","))] + (FIXED + PairsOf(common))
  }

  lemma {:induction false} EnvValueSkip(env: seq<Pair>, more: seq<Pair>, key: string)
    requires forall i :: 0 <= i < |more| ==> more[i].key != key
    ensures EnvValue(env + more, key) == EnvValue(env, key)
  {
    if more == [] {
      assert env + more == env;
    } else {
      var n := |more| - 1;
      assert (env + more)[..|env| + n] == env + more[..n];
      EnvValueSkip(env, more[..n], key);
    }
  }

  lemma KeyHead(s: Setting, key: string)
    requires |key| > 5 && key[5] != 'M'
    ensures s.Key() != key
  {
    assert s.Key()[5] == Prefix(s.kind)[5] == 'M';
  }

  lemma LaterKeys(common: seq<Setting>)
    requires forall s :: s in common ==> s.Key() != VPID_VARIABLE
    ensures var rest := FIXED + PairsOf(common);
            forall i :: 0 <= i < |rest| ==>
              rest[i].key != NODE && rest[i].key != NODE_VPIDS && rest[i].key != VPID_VARIABLE
  {
    assert |NODE| == 13 && |NODE_VPIDS| == 19 && |VPID_VARIABLE| == |FIXED[0].key| == 22 && |FIXED[1].key| == 30;
    assert VPID_VARIABLE[5] == 'M' && FIXED[0].key[5] == 'A';
    forall i | 0 <= i < |common|
      ensures PairsOf(common)[i].key != NODE && PairsOf(common)[i].key != NODE_VPIDS
           && PairsOf(common)[i].key != VPID_VARIABLE
    {
      KeyHead(common[i], NODE);
      KeyHead(common[i], NODE_VPIDS);
      assert common[i] in common;
    }
  }

  /** The script sees the node and the map as the manifest gave them, and no vpid - provided the common
      settings leave it out. */
  lemma PodEnvValues(ctx: Tctx, common: seq<Setting>, node: string)
    requires forall s :: s in common ==> s.Key() != VPID_VARIABLE
    ensures var env := PodEnv(ctx, common, node);
            && EnvValue(env, NODE) == node
            && EnvValue(env, NODE_VPIDS) == Join(NodePairs(ctx), ",")
            && EnvValue(env, VPID_VARIABLE) == ""
  {
    var a, b, rest := Pair(NODE, node), Pair(NODE_VPIDS, Join(NodePairs(ctx), ",")), FIXED + PairsOf(common);
    hide PairsOf, EnvValue;
    LaterKeys(common);
    ThreeValues(a, b, rest);
  }

  lemma ThreeValues(a: Pair, b: Pair, rest: seq<Pair>)
    requires a.key == NODE && b.key == NODE_VPIDS
    requires forall i :: 0 <= i < |rest| ==>
      rest[i].key != NODE && rest[i].key != NODE_VPIDS && rest[i].key != VPID_VARIABLE
    ensures var env := [a, b] + rest;
            EnvValue(env, NODE) == a.value && EnvValue(env, NODE_VPIDS) == b.value && EnvValue(env, VPID_VARIABLE) == ""
  {
    assert |NODE| == 13 && |NODE_VPIDS| == 19 && |VPID_VARIABLE| == 22;
    EnvValueSkip([a, b], rest, NODE);
    EnvValueSkip([a, b], rest, NODE_VPIDS);
    EnvValueSkip([a, b], rest, VPID_VARIABLE);
    assert [a, b][..1] == [a] && [a][..0] == [];
    assert EnvValue([a], VPID_VARIABLE) == "";
  }

  /** With names repeated in the map, the last of them decides. */
  lemma LastIdentity(ctx: Tctx, common: seq<Setting>, node: string)
    requires Readable(ctx) && PlainWord(node)
    requires forall s :: s in common ==> s.Key() != VPID_VARIABLE
    ensures var last := LastNamed(ctx.nodes, node);
            DaemonOf(PodEnv(ctx, common, node)) == if last.None? then None else Some(ctx.nodes[last.value].rank)
  {
    PodEnvValues(ctx, common, node);
    FieldsOfMap(ctx);
    LookupLast(ctx, |ctx.nodes|, node, "");
    assert NodePairs(ctx)[..|ctx.nodes|] == NodePairs(ctx) && ctx.nodes[..|ctx.nodes|] == ctx.nodes;
    hide PodEnv, Fields, Lookup, EnvValue, LastNamed, NodePairs, Join;
  }

  /** Whatever node a pod comes up on, it takes the rank of that node, and refuses to start on a node that is
      not in the map. */
  lemma PodIdentity(ctx: Tctx, common: seq<Setting>, node: string)
    requires Readable(ctx) && DistinctNames(ctx) && PlainWord(node)
    requires forall s :: s in common ==> s.Key() != VPID_VARIABLE
    ensures forall k :: 0 <= k < |ctx.nodes| && ctx.nodes[k].node == node ==>
      DaemonOf(PodEnv(ctx, common, node)) == Some(ctx.nodes[k].rank)
    ensures node !in NodeNames(ctx) <==> DaemonOf(PodEnv(ctx, common, node)).None?
  {
    LastIdentity(ctx, common, node);
    hide PodEnv, DaemonOf, LastNamed, PlainWord;
    var last := LastNamed(ctx.nodes, node);
    if last.Some? {
      assert NodeNames(ctx)[last.value] == node;
    }
  }

  // ---------------------------------------------------- the map on its way through YAML

  lemma {:induction false} EscapePlain(s: string)
    requires forall i :: 0 <= i < |s| ==> s[i] >= ' ' && s[i] != '"' && s[i] != '\\'
    ensures Escape(s) == s
  {
    if s != "" {
      EscapePlain(s[1..]);
      assert s == [s[0]] + s[1..];
    }
  }

  ghost predicate PlainText(s: string) {
    forall i :: 0 <= i < |s| ==> s[i] >= ' ' && s[i] != '"' && s[i] != '\\'
  }

  lemma {:induction false} JoinPlain(parts: seq<string>)
    requires forall k :: 0 <= k < |parts| ==> PlainText(parts[k])
    ensures PlainText(Join(parts, ","))
  {
    if |parts| > 1 {
      JoinPlain(parts[1..]);
    }
  }

  lemma NoBrace(s: string, k: nat)
    requires k < |s| && s[k] != '{'
    ensures !TagAt(s, k)
  {
    hide Spelling.Text;
    forall sp: Spelling
      ensures !At(s, k, sp.Text())
    {
      SpellingShape(sp);
      AtFirst(s, k, sp.Text());
    }
  }

  /** A tag between text without braces. */
  lemma TagInText(a: string, sp: Spelling, b: string, scope: Scope)
    requires scope.Valid() && '{' !in a && '{' !in b && sp.tag != Env
    ensures SpanMeaning(a + (sp.Text() + b), scope) == a + (Value(sp.tag, scope, "") + b)
  {
    hide Spelling.Text, Value;
    var s, m := a + (sp.Text() + b), |a|;
    var e := m + |sp.Text()|;
    assert s[m..e] == sp.Text() && s[e..] == b;
    forall k | 0 <= k < m
      ensures !TagAt(s, k)
    {
      assert s[k] == a[k];
      NoBrace(s, k);
    }
    forall k | e <= k < |s|
      ensures !TagAt(s, k)
    {
      assert s[k] == b[k - e];
      NoBrace(s, k);
    }
    RestRun(s, 0, m, scope);
    RestTag(s, m, sp, scope);
    RestRun(s, e, |s|, scope);
    ValueAnywhere(sp.tag, scope, Blanks(ColumnAt(s, m)));
    assert s[0..] == s && s[0..m] == a && s[e..|s|] == b && s[|s|..] == "" && b + "" == b;
  }

  lemma ValueAnywhere(tag: Tag, scope: Scope, indent: string)
    requires scope.Valid() && tag != Env
    ensures Value(tag, scope, indent) == Value(tag, scope, "")
  {
  }

  const MAP_LINE_HEAD := "              value: \""

  /** The line of the default template that carries the map renders to a YAML scalar which reads back as the
      map, though the renderer itself does not quote it. */
  lemma MapLine(ctx: Tctx)
    requires Readable(ctx)
    ensures var printed := Join(NodePairs(ctx), ",");
            && SpanMeaning(MAP_LINE_HEAD + (Spelling(Tag.NodeVpids, Tight).Text() + "\"\n"), GlobalScope(ctx))
               == "              value: " + Quote(printed) + "\n"
            && ReadScalar(Quote(printed)) == Some(printed)
  {
    var printed := Join(NodePairs(ctx), ",");
    forall k | 0 <= k < |ctx.nodes|
      ensures PlainText(NodePairs(ctx)[k])
    {
      PlainPair(ctx.nodes[k]);
    }
    JoinPlain(NodePairs(ctx));
    EscapePlain(printed);
    ScalarRoundTrip(printed);
    assert '{' !in MAP_LINE_HEAD && '{' !in "\"\n";
    TagInText(MAP_LINE_HEAD, Spelling(Tag.NodeVpids, Tight), "\"\n", GlobalScope(ctx));
    hide Join, Escape;
    MapLineText(printed);
  }

  lemma MapLineText(printed: string)
    requires Escape(printed) == printed
    ensures MAP_LINE_HEAD + (printed + "\"\n") == "              value: " + Quote(printed) + "\n"
  {
    assert MAP_LINE_HEAD == "              value: " + "\"";
    assert "\"\n" == "\"" + "\n";
  }

  // ------------------------------------------------------------------- in every launch

  /** Daemon ranks print in decimal. */
  ghost predicate Decimal(wanted: seq<MapNode>, convert: nat -> Option<string>) {
    forall k :: 0 <= k < |wanted| ==>
      wanted[k].daemon.Some? && convert(wanted[k].daemon.value) == Some(DecNat(wanted[k].daemon.value))
  }

  ghost predicate DistinctDaemons(wanted: seq<MapNode>) {
    forall i, j :: 0 <= i < j < |wanted| ==> wanted[i].daemon != wanted[j].daemon
  }

  lemma DecimalPlain(v: nat)
    ensures PlainWord(DecNat(v))
  {
  }

  /** Different daemons get different ranks, and ranks survive the map. */
  lemma LaunchRanks(name: string, wanted: seq<MapNode>, argv: seq<string>, slot: nat,
                    convert: nat -> Option<string>, f: Filter, vpidStart: int)
    requires slot < |argv| && Decimal(wanted, convert) && DistinctDaemons(wanted)
    ensures DistinctRanks(LaunchContext(name, wanted, argv, slot, convert, f, vpidStart))
    ensures var nodes := LaunchContext(name, wanted, argv, slot, convert, f, vpidStart).nodes;
            |nodes| == |wanted| && forall k :: 0 <= k < |nodes| ==> PlainWord(nodes[k].rank)
  {
    var ctx := LaunchContext(name, wanted, argv, slot, convert, f, vpidStart);
    hide Scan, Kept, AppendAll, DecNat, PlainWord;
    forall k | 0 <= k < |wanted|
      ensures ctx.nodes[k].rank == DecNat(wanted[k].daemon.value) && PlainWord(ctx.nodes[k].rank)
    {
      DecimalPlain(wanted[k].daemon.value);
    }
    forall i, j | 0 <= i < j < |wanted|
      ensures ctx.nodes[i].rank != ctx.nodes[j].rank
    {
      ReadDec(wanted[i].daemon.value);
      ReadDec(wanted[j].daemon.value);
    }
  }

  /** The common settings of a launch never set the vpid a pod is to look up. */
  lemma LaunchLeavesVpidUnset(argv: seq<string>, f: Filter)
    ensures forall s :: s in Settings(argv, f.(skip := Some(VPID))) ==> s.Key() != VPID_VARIABLE
  {
    SkippedKeyAbsent(argv, f.(skip := Some(VPID)), Prte);
    assert Prefix(Prte) + VPID == VPID_VARIABLE;
  }
}
