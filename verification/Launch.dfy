/** The node loop of a launch: one command line, rewritten in place for every node
    (plm_k8s_module.c:325-414). */
module Launch {
  import opened Strings
  import opened StrBuf
  import opened Spans
  import opened Sections
  import opened Envars
  import opened EnvBlock
  import Sanitize

  const VPID := "ess_base_vpid"

  /** An entry of the job map; `daemon` is the rank of the daemon mapped to the node. */
  datatype MapNode = MapNode(name: string, rawname: Option<string>, daemon: Option<nat>, launched: bool, slots: int)

  /** What a DVM is called by. */
  function RawName(prefix: Option<string>, nspace: string): string {
    if prefix.Some? then prefix.value else nspace
  }

  /** The base name, for object names and for the selector alike. */
  function BaseName(prefix: Option<string>, nspace: string): string {
    Sanitize.Sanitized(RawName(prefix, nspace), 50)
  }

  /** The configured prefix alone decides, if there is one, and the launcher's own name otherwise. */
  method GetBaseName(prefix: Option<string>, nspace: string) returns (name: string)
    ensures name == BaseName(prefix, nspace)
    ensures prefix.Some? ==> name == Sanitize.Sanitized(prefix.value, 50)
    ensures prefix.None? ==> name == Sanitize.Sanitized(nspace, 50)
  {
    var raw := if prefix.Some? then prefix.value else nspace;
    name := Sanitize.SanitizeName(Some(raw), 50);
  }

  /** Two DVMs have one name if their prefixes or, without prefixes, their own names are the same; and a prefix has
      the name that this text would have on its own. */
  lemma BaseNameFrom(prefix: string, nspace: string, other: string)
    ensures BaseName(Some(prefix), nspace) == BaseName(Some(prefix), other) == BaseName(None, prefix)
    ensures BaseName(None, nspace) == Sanitize.Sanitized(nspace, 50)
  {
    hide Sanitize.Sanitized;
  }

  /** A node that still needs a daemon. */
  predicate Wanted(n: Option<MapNode>) {
    n.Some? && n.value.daemon.Some? && !n.value.launched
  }

  function WantedNodes(nodes: seq<Option<MapNode>>): (r: seq<MapNode>)
    ensures forall k :: 0 <= k < |r| ==> r[k].daemon.Some?
  {
    if nodes == [] then []
    else
      var n := |nodes| - 1;
      WantedNodes(nodes[..n]) + if Wanted(nodes[n]) then [nodes[n].value] else []
  }

  /** Every wanted node's rank can be printed. */
  predicate RanksPrint(wanted: seq<MapNode>, convert: nat -> Option<string>)
    requires forall k :: 0 <= k < |wanted| ==> wanted[k].daemon.Some?
  {
    forall k :: 0 <= k < |wanted| ==> convert(wanted[k].daemon.value).Some?
  }

  function RankOf(n: MapNode, convert: nat -> Option<string>): string
    requires n.daemon.Some? && convert(n.daemon.value).Some?
  {
    convert(n.daemon.value).value
  }

  /** What the template gets to see of a node: its own name, rank, slots and env. */
  function TnodeOf(n: MapNode, argv: seq<string>, slot: nat, convert: nat -> Option<string>, f: Filter): TNode
    requires slot < |argv| && n.daemon.Some? && convert(n.daemon.value).Some?
  {
    var rank := RankOf(n, convert);
    TNode(if n.rawname.Some? then n.rawname.value else n.name, rank,
          AppendAll(Kept(Scan(argv[slot := rank], 0), f)), n.slots)
  }

  function Tnodes(wanted: seq<MapNode>, argv: seq<string>, slot: nat, convert: nat -> Option<string>,
                  f: Filter): seq<TNode>
    requires slot < |argv| && forall k :: 0 <= k < |wanted| ==> wanted[k].daemon.Some?
    requires RanksPrint(wanted, convert)
  {
    seq(|wanted|, k requires 0 <= k < |wanted| => TnodeOf(wanted[k], argv, slot, convert, f))
  }

  /** The command line once the ranks of `wanted` have been written into its slot, one after the other. */
  function ArgvAfter(wanted: seq<MapNode>, argv: seq<string>, slot: nat, convert: nat -> Option<string>): seq<string>
    requires slot < |argv| && forall k :: 0 <= k < |wanted| ==> wanted[k].daemon.Some?
    requires RanksPrint(wanted, convert)
  {
    if wanted == [] then argv else argv[slot := RankOf(wanted[|wanted| - 1], convert)]
  }

  /** Fills the array with the wanted nodes in map order. It fails, without writing past the array, when the
      map holds more of them than it said, or when a rank cannot be printed; and only then. */
  method FillNodes(nodes: seq<Option<MapNode>>, tnodes: array<TNode>, argv: array<string>, slot: nat,
                   convert: nat -> Option<string>, f: Filter)
    returns (ok: bool, n: nat)
    requires slot < argv.Length
    modifies tnodes, argv
    ensures ok <==> |WantedNodes(nodes)| <= tnodes.Length && RanksPrint(WantedNodes(nodes), convert)
    ensures ok ==>
      n == |WantedNodes(nodes)| && tnodes[..n] == Tnodes(WantedNodes(nodes), old(argv[..]), slot, convert, f)
    ensures ok ==> argv[..] == ArgvAfter(WantedNodes(nodes), old(argv[..]), slot, convert)
  {
    hide WantedNodes, Scan, Kept, AppendAll, TnodeOf;
    n := 0;
    ghost var before := argv[..];
    assert WantedNodes(nodes[..0]) == [] by {
      NoneWanted();
    }
    for i := 0 to |nodes|
      invariant n == |WantedNodes(nodes[..i])| <= tnodes.Length && RanksPrint(WantedNodes(nodes[..i]), convert)
      invariant tnodes[..n] == Tnodes(WantedNodes(nodes[..i]), before, slot, convert, f)
      invariant argv[..] == ArgvAfter(WantedNodes(nodes[..i]), before, slot, convert)
    {
      WantedNext(nodes, i);
      if nodes[i].None? || nodes[i].value.daemon.None? || nodes[i].value.launched {
        continue;
      }
      var node := nodes[i].value;
      ghost var wanted := WantedNodes(nodes[..i]);
      WantedGrows(nodes, i + 1);
      if n >= tnodes.Length {
        return false, n;
      }
      var rank := convert(node.daemon.value);
      if rank.None? {
        argv[slot] := "";
        assert WantedNodes(nodes)[n] == node;
        return false, n;
      }
      argv[slot] := rank.value;
      assert argv[..] == before[slot := rank.value];
      var envars := ArgvToEnvars(argv[..], f);
      tnodes[n] := TNode(if node.rawname.Some? then node.rawname.value else node.name, rank.value, envars, node.slots);
      assert tnodes[n] == TnodeOf(node, before, slot, convert, f) by {
        TnodeFields(node, before, slot, convert, f);
      }
      TnodesSnoc(wanted, node, before, slot, convert, f);
      assert tnodes[..n + 1] == tnodes[..n] + [tnodes[n]];
      n := n + 1;
    }
    assert nodes[..|nodes|] == nodes;
    ok := true;
  }

  /** The places in the map of the wanted nodes. */
  function WantedIndexes(nodes: seq<Option<MapNode>>): seq<nat> {
    if nodes == [] then []
    else
      var n := |nodes| - 1;
      WantedIndexes(nodes[..n]) + if Wanted(nodes[n]) then [n] else []
  }

  /** The wanted nodes are exactly the nodes with a daemon that is not launched yet, in map order. */
  lemma {:induction false} WantedExactly(nodes: seq<Option<MapNode>>)
    ensures var at, wanted := WantedIndexes(nodes), WantedNodes(nodes);
            && |at| == |wanted|
            && (forall k :: 0 <= k < |at| ==> at[k] < |nodes| && nodes[at[k]] == Some(wanted[k]))
            && (forall j, k :: 0 <= j < k < |at| ==> at[j] < at[k])
            && (forall i :: 0 <= i < |nodes| ==>
                  (i in at <==> nodes[i].Some? && nodes[i].value.daemon.Some? && !nodes[i].value.launched))
  {
    if nodes != [] {
      var n := |nodes| - 1;
      WantedExactly(nodes[..n]);
      assert forall i :: 0 <= i < n ==> nodes[..n][i] == nodes[i];
    }
  }

  lemma NoneWanted()
    ensures WantedNodes([]) == []
  {
  }

  lemma TnodeFields(n: MapNode, argv: seq<string>, slot: nat, convert: nat -> Option<string>, f: Filter)
    requires slot < |argv| && n.daemon.Some? && convert(n.daemon.value).Some?
    ensures var rank := convert(n.daemon.value).value;
            TnodeOf(n, argv, slot, convert, f)
              == TNode(if n.rawname.Some? then n.rawname.value else n.name, rank,
                       AppendAll(Kept(Scan(argv[slot := rank], 0), f)), n.slots)
  {
  }

  lemma TnodesSnoc(wanted: seq<MapNode>, node: MapNode, argv: seq<string>, slot: nat,
                   convert: nat -> Option<string>, f: Filter)
    requires slot < |argv| && forall k :: 0 <= k < |wanted| ==> wanted[k].daemon.Some?
    requires RanksPrint(wanted, convert) && node.daemon.Some? && convert(node.daemon.value).Some?
    ensures RanksPrint(wanted + [node], convert)
    ensures Tnodes(wanted + [node], argv, slot, convert, f)
         == Tnodes(wanted, argv, slot, convert, f) + [TnodeOf(node, argv, slot, convert, f)]
    ensures ArgvAfter(wanted + [node], argv, slot, convert) == argv[slot := RankOf(node, convert)]
  {
    hide TnodeOf;
    forall k | 0 <= k < |wanted + [node]|
      ensures (wanted + [node])[k] == if k < |wanted| then wanted[k] else node
    {
    }
  }

  lemma WantedNext(nodes: seq<Option<MapNode>>, i: nat)
    requires i < |nodes|
    ensures WantedNodes(nodes[..i + 1]) == WantedNodes(nodes[..i]) + if Wanted(nodes[i]) then [nodes[i].value] else []
  {
    assert nodes[..i + 1][..i] == nodes[..i];
  }

  lemma {:induction false} WantedGrows(nodes: seq<Option<MapNode>>, i: nat)
    requires i <= |nodes|
    ensures WantedNodes(nodes[..i]) <= WantedNodes(nodes)
    decreases |nodes| - i
  {
    if i < |nodes| {
      WantedNext(nodes, i);
      WantedGrows(nodes, i + 1);
    } else {
      assert nodes[..i] == nodes;
    }
  }

  // ------------------------------------------------------------------ the whole launch

  datatype Outcome = Failed | NothingToLaunch | Manifest(text: string)

  /** What the template sees of a launch. */
  function LaunchContext(name: string, wanted: seq<MapNode>, argv: seq<string>, slot: nat,
                         convert: nat -> Option<string>, f: Filter, vpidStart: int): Tctx
    requires slot < |argv| && forall k :: 0 <= k < |wanted| ==> wanted[k].daemon.Some?
    requires RanksPrint(wanted, convert)
  {
    var after := ArgvAfter(wanted, argv, slot, convert);
    Tctx(name, Tnodes(wanted, argv, slot, convert, f),
         AppendAll(Kept(Scan(after, 0), f.(skip := Some(VPID)))), vpidStart)
  }

  /** Field by field, what the template sees is the launch's name, the map's first vpid and, of every wanted node in
      order, its raw name if it has one, its daemon's rank and its slots. */
  lemma LaunchFields(name: string, wanted: seq<MapNode>, argv: seq<string>, slot: nat,
                     convert: nat -> Option<string>, f: Filter, vpidStart: int)
    requires slot < |argv| && forall k :: 0 <= k < |wanted| ==> wanted[k].daemon.Some?
    requires RanksPrint(wanted, convert)
    ensures var ctx := LaunchContext(name, wanted, argv, slot, convert, f, vpidStart);
            && ctx.name == name && ctx.vpidStart == vpidStart && |ctx.nodes| == |wanted|
            && (forall k :: 0 <= k < |wanted| && wanted[k].rawname.Some? ==>
                  ctx.nodes[k].node == wanted[k].rawname.value)
            && (forall k :: 0 <= k < |wanted| && wanted[k].rawname.None? ==> ctx.nodes[k].node == wanted[k].name)
            && (forall k :: 0 <= k < |wanted| ==>
                  convert(wanted[k].daemon.value) == Some(ctx.nodes[k].rank) && ctx.nodes[k].slots == wanted[k].slots)
  {
    hide Scan, Kept, AppendAll, ArgvAfter;
  }

  /** Loads, fills, renders: one manifest for all the daemons that are wanted. */
  method PlanLaunch(nodes: seq<Option<MapNode>>, numNew: nat, argv: array<string>, slot: nat,
                    convert: nat -> Option<string>, f: Filter, prefix: Option<string>, nspace: string,
                    template: string, vpidStart: int, grants: nat -> bool)
    returns (r: Outcome, ghost requests: nat)
    requires slot < argv.Length
    modifies argv
    ensures r == NothingToLaunch <==> numNew == 0 || WantedNodes(nodes) == []
    ensures r.Failed? <==>
      numNew > 0 && (|WantedNodes(nodes)| > numNew || !RanksPrint(WantedNodes(nodes), convert)
                     || Refused(grants, requests))
    ensures r.Manifest? ==>
      RanksPrint(WantedNodes(nodes), convert)
      && r.text == Meaning(Parse(true, template),
                           LaunchContext(BaseName(prefix, nspace), WantedNodes(nodes), old(argv[..]), slot, convert, f,
                                         vpidStart))
  {
    if numNew == 0 {
      return NothingToLaunch, 0;
    }
    hide Meaning, Parse, Scan, Kept, AppendAll, WantedNodes, Tnodes, ArgvAfter, Sanitize.Sanitized;
    var name := GetBaseName(prefix, nspace);
    var tnodes := new TNode[numNew](_ => TNode("", "", [], 0));
    var ok, n := FillNodes(nodes, tnodes, argv, slot, convert, f);
    if !ok {
      return Failed, 0;
    }
    if n == 0 {
      return NothingToLaunch, 0;
    }
    var common := ArgvToEnvars(argv[..], f.(skip := Some(VPID)));
    var manifest, asked := Render(Some(template), Some(Tctx(name, tnodes[..n], common, vpidStart)), grants);
    r, requests := if manifest.Some? then Manifest(manifest.value) else Failed, asked;
  }

  lemma PlainAnySlot(argv: seq<string>, slot: nat, v: string)
    requires SlotFrom(argv, 0, slot, VPID) && PlainArgv(argv)
    ensures PlainArgv(argv[slot := v])
  {
    ScanAtSlot(argv, 0, slot, VPID, v);
    ScanAtSlot(argv, 0, slot, VPID, argv[slot]);
    assert argv[slot := argv[slot]] == argv;
    var kind := SlotKind(argv, slot);
    var before, after := ScanBefore(argv, 0, slot, VPID), Scan(argv, slot + 1);
    hide Scan, ScanBefore, SlotFrom, SlotKind;
    var was, now := Setting(kind, VPID, argv[slot]), Setting(kind, VPID, v);
    assert was in before + ([was] + after);
    forall s | s in before + ([now] + after)
      ensures PlainWord(s.name)
    {
      assert s == now || s in before + ([was] + after);
    }
  }

  /** In every launch, the env list of each node without its vpid is the common env list. */
  lemma CommonEnvOfLaunch(name: string, wanted: seq<MapNode>, argv: seq<string>, slot: nat,
                          convert: nat -> Option<string>, f: Filter, vpidStart: int, k: nat)
    requires SlotFrom(argv, 0, slot, VPID) && PlainArgv(argv) && f.skip.None?
    requires forall i :: 0 <= i < |wanted| ==> wanted[i].daemon.Some?
    requires RanksPrint(wanted, convert) && k < |wanted|
    ensures var ctx := LaunchContext(name, wanted, argv, slot, convert, f, vpidStart);
            var own := Settings(argv[slot := ctx.nodes[k].rank], f);
            && ctx.nodes[k].rank == convert(wanted[k].daemon.value).value
            && ctx.nodes[k].envars == Entries(PairsOf(own))
            && ctx.commonEnvars == Entries(PairsOf(Without(own, VPID)))
            && forall s :: s in Without(own, VPID) ==> s.name != VPID
  {
    var own, last := RankOf(wanted[k], convert), RankOf(wanted[|wanted| - 1], convert);
    var g := f.(skip := Some(VPID));
    PlainAnySlot(argv, slot, own);
    PlainAnySlot(argv, slot, last);
    hide Scan, Forwarded, SlotFrom;
    KeptPlain(Scan(argv[slot := own], 0), f);
    KeptPlain(Scan(argv[slot := last], 0), g);
    AppendAllFirst(Kept(Scan(argv[slot := own], 0), f));
    AppendAllFirst(Kept(Scan(argv[slot := last], 0), g));
    CommonIsNodeWithout(argv, slot, VPID, own, last, f);
    WithoutNone(Settings(argv[slot := own], f), VPID);
  }

  lemma {:induction false} WithoutNone(ts: seq<Setting>, name: string)
    ensures forall s :: s in Without(ts, name) ==> s.name != name
  {
    if ts != [] {
      WithoutNone(ts[1..], name);
    }
  }
}
