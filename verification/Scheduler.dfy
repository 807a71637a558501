/** Every way a scheduler may place and start the pods of a launch, under the affinity rules of the default
    template (templates/single-job.yaml.tmpl:50-106). */
module Scheduler {
  import opened Strings
  import opened Finite
  import opened EnvBlock
  import opened Spans
  import opened Sections
  import opened Envars
  import opened Launch
  import opened Identity

  /** A machine of the cluster: its node name and the hostname label the affinity rules match on. */
  datatype Machine = Machine(name: string, hostname: string)

  datatype Pod = Pending | Bound(at: Machine) | Running(at: Machine, vpid: string) | Refused(at: Machine) | Gone

  datatype Step = Bind(pod: nat, to: Machine) | Start(pod: nat) | Exit(pod: nat)

  /** A launch, as the cluster sees it: its machines, the map, the settings in the one pod template. */
  datatype Job = Job(cluster: set<Machine>, ctx: Tctx, common: seq<Setting>)

  /** Pods that count for the anti-affinity rule: those that have been placed and have not ended. */
  predicate Placed(p: Pod) {
    p.Bound? || p.Running?
  }

  /** nodeAffinity: only allocated nodes. podAntiAffinity: no two pods of the launch on one hostname. */
  predicate MayBind(s: seq<Pod>, to: Machine, job: Job) {
    && to in job.cluster && to.hostname in NodeNames(job.ctx)
    && forall q :: 0 <= q < |s| && Placed(s[q]) ==> s[q].at.hostname != to.hostname
  }

  function Next(s: seq<Pod>, step: Step, job: Job): Option<seq<Pod>> {
    match step
    case Bind(p, to) =>
      if p < |s| && s[p].Pending? && MayBind(s, to, job) then Some(s[p := Bound(to)]) else None
    case Start(p) =>
      if p < |s| && s[p].Bound? then
        var daemon := DaemonOf(PodEnv(job.ctx, job.common, s[p].at.name));
        Some(s[p := if daemon.Some? then Running(s[p].at, daemon.value) else Refused(s[p].at)])
      else None
    case Exit(p) =>
      if p < |s| && Placed(s[p]) then Some(s[p := Gone]) else None
  }

  /** As many pods as nodes, none of them placed yet; then any steps the rules allow. */
  function Run(steps: seq<Step>, job: Job): Option<seq<Pod>> {
    if steps == [] then Some(seq(|job.ctx.nodes|, _ => Pending))
    else
      var before := Run(steps[..|steps| - 1], job);
      if before.None? then None else Next(before.value, steps[|steps| - 1], job)
  }

  /** Node names are unique in a cluster; the map is readable, its names and ranks distinct; and the vpid is
      not among the common settings. */
  ghost predicate Sound(job: Job) {
    && (forall m, n :: m in job.cluster && n in job.cluster && m.name == n.name ==> m == n)
    && (forall m :: m in job.cluster ==> PlainWord(m.name))
    && Readable(job.ctx) && DistinctNames(job.ctx) && DistinctRanks(job.ctx)
    && (forall s :: s in job.common ==> s.Key() != VPID_VARIABLE)
  }

  /** The pod runs as the daemon that the launcher mapped to the machine it is on. */
  ghost predicate Right(p: Pod, job: Job)
    requires p.Running?
  {
    exists k :: 0 <= k < |job.ctx.nodes| && job.ctx.nodes[k].node == p.at.name && job.ctx.nodes[k].rank == p.vpid
  }

  /** Placed pods sit on machines of the cluster, no two of them on one hostname; running ones are right; and
      those that refused are on machines the launcher did not map. */
  ghost predicate Inv(s: seq<Pod>, job: Job) {
    && |s| == |job.ctx.nodes|
    && (forall p :: 0 <= p < |s| && Placed(s[p]) ==> s[p].at in job.cluster)
    && (forall p, q :: 0 <= p < q < |s| && Placed(s[p]) && Placed(s[q]) ==> s[p].at.hostname != s[q].at.hostname)
    && (forall p :: 0 <= p < |s| && s[p].Running? ==> Right(s[p], job))
    && (forall p :: 0 <= p < |s| && s[p].Refused? ==> s[p].at.name !in NodeNames(job.ctx))
  }

  lemma StartRight(at: Machine, job: Job)
    requires Sound(job) && at in job.cluster
    ensures var daemon := DaemonOf(PodEnv(job.ctx, job.common, at.name));
            if daemon.Some? then Right(Running(at, daemon.value), job) else at.name !in NodeNames(job.ctx)
  {
    PodIdentity(job.ctx, job.common, at.name);
    hide PodEnv, DaemonOf, PlainWord;
    var daemon := DaemonOf(PodEnv(job.ctx, job.common, at.name));
    if daemon.Some? {
      var k :| 0 <= k < |job.ctx.nodes| && NodeNames(job.ctx)[k] == at.name;
      assert job.ctx.nodes[k].rank == daemon.value;
    }
  }

  lemma NextKeeps(s: seq<Pod>, step: Step, job: Job)
    requires Sound(job) && Inv(s, job) && Next(s, step, job).Some?
    ensures Inv(Next(s, step, job).value, job)
  {
    hide PodEnv, DaemonOf, Right, Sound;
    if step.Start? {
      StartRight(s[step.pod].at, job);
    }
  }

  /** Over every run. */
  lemma {:induction false} RunKeeps(steps: seq<Step>, job: Job)
    requires Sound(job) && Run(steps, job).Some?
    ensures Inv(Run(steps, job).value, job)
  {
    hide PodEnv, DaemonOf, Right, Sound, Next;
    if steps != [] {
      var n := |steps| - 1;
      RunKeeps(steps[..n], job);
      NextKeeps(Run(steps[..n], job).value, steps[n], job);
    }
  }

  /** Which node of the map a running pod is. */
  ghost function NodeOf(p: Pod, job: Job): (k: nat)
    requires p.Running? && Right(p, job)
    ensures k < |job.ctx.nodes| && job.ctx.nodes[k].node == p.at.name && job.ctx.nodes[k].rank == p.vpid
  {
    var k :| 0 <= k < |job.ctx.nodes| && job.ctx.nodes[k].node == p.at.name && job.ctx.nodes[k].rank == p.vpid;
    k
  }

  /** At any moment of any run, wherever the pods have been placed: every running pod has the rank of the
      node it is on, and no two have the same rank. */
  lemma RunningDistinct(steps: seq<Step>, job: Job, p: nat, q: nat)
    requires Sound(job) && Run(steps, job).Some?
    requires p < q < |Run(steps, job).value| && Run(steps, job).value[p].Running? && Run(steps, job).value[q].Running?
    ensures var s := Run(steps, job).value;
            Right(s[p], job) && Right(s[q], job) && NodeOf(s[p], job) != NodeOf(s[q], job) && s[p].vpid != s[q].vpid
  {
    RunKeeps(steps, job);
    hide Run, Right;
    var s := Run(steps, job).value;
    var i, j := NodeOf(s[p], job), NodeOf(s[q], job);
    assert s[p].at.name != s[q].at.name;
    assert i < j || j < i;
  }

  // ----------------------------------------------------------- all of them are running

  /** The ranks the pods run with. */
  function Started(s: seq<Pod>): set<string> {
    set p | 0 <= p < |s| && s[p].Running? :: s[p].vpid
  }

  /** The ranks the launcher assigned. */
  function Launched(ctx: Tctx): set<string> {
    set k | 0 <= k < |ctx.nodes| :: ctx.nodes[k].rank
  }

  /** In every run the running pods' ranks are among the launched ones; once all pods run, they are exactly
      the launched ones. */
  lemma StartedLaunched(steps: seq<Step>, job: Job)
    requires Sound(job) && Run(steps, job).Some?
    ensures var s := Run(steps, job).value;
            && Started(s) <= Launched(job.ctx)
            && ((forall p :: 0 <= p < |s| ==> s[p].Running?) ==> Started(s) == Launched(job.ctx))
  {
    RunKeeps(steps, job);
    var s := Run(steps, job).value;
    forall r | r in Started(s)
      ensures r in Launched(job.ctx)
    {
      var p :| 0 <= p < |s| && s[p].Running? && s[p].vpid == r;
      assert job.ctx.nodes[NodeOf(s[p], job)].rank == r;
    }
    if forall p :: 0 <= p < |s| ==> s[p].Running? {
      AllStarted(steps, job);
    }
  }

  lemma AllStarted(steps: seq<Step>, job: Job)
    requires Sound(job) && Run(steps, job).Some?
    requires forall p :: 0 <= p < |Run(steps, job).value| ==> Run(steps, job).value[p].Running?
    ensures Launched(job.ctx) <= Started(Run(steps, job).value)
  {
    RunKeeps(steps, job);
    var s := Run(steps, job).value;
    hide Right;
    var f := seq(|s|, p requires 0 <= p < |s| => NodeOf(s[p], job));
    forall p, q | 0 <= p < q < |s|
      ensures f[p] != f[q]
    {
      RunningDistinct(steps, job, p, q);
    }
    hide Run, Sound;
    Pigeonhole(f, Below(|s|));
    forall r | r in Launched(job.ctx)
      ensures r in Started(s)
    {
      var k: nat :| k < |job.ctx.nodes| && job.ctx.nodes[k].rank == r;
      assert k in Below(|s|);
      var p :| 0 <= p < |f| && f[p] == k;
      assert s[p].vpid == r;
    }
  }

  /** A pod refuses to start exactly on a machine that the launcher mapped no daemon to. */
  lemma StartOutcome(s: seq<Pod>, p: nat, job: Job)
    requires Sound(job) && Inv(s, job) && p < |s| && s[p].Bound?
    ensures Next(s, Start(p), job).Some?
    ensures Next(s, Start(p), job).value[p].Refused? <==> s[p].at.name !in NodeNames(job.ctx)
  {
    PodIdentity(job.ctx, job.common, s[p].at.name);
    hide PodEnv, DaemonOf;
  }

  function NameOf(n: MapNode): string {
    if n.rawname.Some? then n.rawname.value else n.name
  }

  /** Every launch over distinct, well-named nodes with distinct daemons is sound in every cluster. */
  lemma LaunchSound(cluster: set<Machine>, name: string, wanted: seq<MapNode>, argv: seq<string>, slot: nat,
                    convert: nat -> Option<string>, f: Filter, vpidStart: int)
    requires forall m, n :: m in cluster && n in cluster && m.name == n.name ==> m == n
    requires forall m :: m in cluster ==> PlainWord(m.name)
    requires slot < |argv| && Decimal(wanted, convert) && DistinctDaemons(wanted)
    requires forall k :: 0 <= k < |wanted| ==> PlainWord(NameOf(wanted[k]))
    requires forall i, j :: 0 <= i < j < |wanted| ==> NameOf(wanted[i]) != NameOf(wanted[j])
    ensures var ctx := LaunchContext(name, wanted, argv, slot, convert, f, vpidStart);
            var common := Settings(ArgvAfter(wanted, argv, slot, convert), f.(skip := Some(VPID)));
            Sound(Job(cluster, ctx, common))
  {
    LaunchRanks(name, wanted, argv, slot, convert, f, vpidStart);
    LaunchLeavesVpidUnset(ArgvAfter(wanted, argv, slot, convert), f);
    LaunchNames(name, wanted, argv, slot, convert, f, vpidStart);
    hide LaunchContext, ArgvAfter, PlainWord, Settings, DecNat, Setting.Key, NameOf;
  }

  lemma LaunchNames(name: string, wanted: seq<MapNode>, argv: seq<string>, slot: nat,
                    convert: nat -> Option<string>, f: Filter, vpidStart: int)
    requires slot < |argv| && Decimal(wanted, convert)
    ensures var nodes := LaunchContext(name, wanted, argv, slot, convert, f, vpidStart).nodes;
            |nodes| == |wanted| && forall k :: 0 <= k < |nodes| ==> nodes[k].node == NameOf(wanted[k])
  {
    hide Scan, Kept, AppendAll, DecNat;
  }
}
