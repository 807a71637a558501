/** The whole pre-position protocol as a state machine: any number of jobs at once, messages that travel at any
    pace or get lost, daemons that pull and answer on their own (filem_rsync/filem_rsync_module.c:10-46). */
module Protocol {
  import opened Strings
  import opened Finite
  import opened Preposition
  import opened Hnp
  import opened Exported
  import opened Network

  /** How many daemons there are and where each keeps its session directory; the launcher's URI; and the
      daemons that are on its machine. */
  datatype Config = Config(n: nat, session: string, uri: Option<string>, home: set<nat>)

  /** A job whose order went out, and the tree that was staged for it. */
  datatype Sent = Sent(order: Order, tree: Tree, called: bool)

  datatype State = State(
    used: set<string>,                // jobs whose request went through
    sent: map<string, Sent>,          // those of them that had something to pull
    port: nat,                        // where the trees are exported; 0 before the first
    exports: map<string, Tree>,       // the exported subdirectories
    net: Net,
    tracks: seq<Track>,               // the launcher's trackers
    fired: seq<Callback>,             // the callbacks it has fired
    stashes: seq<seq<Stash>>,         // what each daemon has recorded
    disks: seq<map<string, Tree>>)    // what is in each daemon's stash directories

  datatype Step =
    | AskNothing(nspace: string, called: bool)
    | Ask(nspace: string, called: bool, port: nat, sources: seq<string>, fs: string -> Entry, base: string -> string)
    | AskFails(nspace: string, port: nat, left: Tree)
    | Handle(part: Part, made: bool, exits: nat -> int, left: Tree)
    | Collect(answer: Answer)
    | LoseOrder(part: Part)
    | LoseAnswer(answer: Answer)

  /** The port of the exporting daemon: the first one chosen stays. */
  function PortOf(s: State, port: nat): nat {
    if s.port == 0 then port else s.port
  }

  /** A job's subdirectory with its sources staged on top of what is there. */
  function Staged(s: State, nspace: string, sources: seq<string>, fs: string -> Entry, base: string -> string): Tree {
    (if nspace in s.exports then s.exports[nspace] else map[]) + Merged(sources, fs, base)
  }

  function ServerOf(s: State, cfg: Config): Server {
    Server(s.port, HostsOf(cfg.uri), s.exports)
  }

  /** What a daemon records, and all it does, when it gets a job's order. */
  function Outcome(s: State, cfg: Config, nspace: string, made: bool, exits: nat -> int): (Option<Stash>, seq<Action>)
    requires nspace in s.sent
  {
    Handled(cfg.session, PackOrder(s.sent[nspace].order), made, exits)
  }

  /** The status of the answer among a daemon's actions, which is the last of them. */
  function Status(done: seq<Action>): int {
    if done != [] && done[|done| - 1].Acked? then done[|done| - 1].status else ERROR
  }

  function Init(cfg: Config): State {
    State({}, map[], 0, map[], EMPTY, [], [], seq(cfg.n, _ => []), seq(cfg.n, _ => map[]))
  }

  /** A job asks until its request goes through, and then no more; a message is handled while it is on its way; and
      a pull that exits 0 leaves the tree that its URL names. */
  ghost predicate Enabled(s: State, step: Step, cfg: Config) {
    match step
    case AskNothing(nspace, _) => nspace !in s.used
    case Ask(nspace, _, port, _, _, _) => nspace !in s.used && port > 0
    case AskFails(nspace, _, _) => nspace !in s.used
    case Handle(p, made, exits, left) =>
      && p in s.net.orders && p.nspace in s.sent && p.daemon < |s.stashes| == |s.disks|
      && var done := Outcome(s, cfg, p.nspace, made, exits).1;
         && PullArrives(ServerOf(s, cfg), p.daemon in cfg.home, done, exits, left)
         && SilentElsewhere(p.daemon in cfg.home, done, exits)
    case Collect(a) => a in s.net.answers
    case LoseOrder(p) => p in s.net.orders
    case LoseAnswer(a) => a in s.net.answers
  }

  ghost function Next(s: State, step: Step, cfg: Config): State
    requires Enabled(s, step, cfg)
  {
    match step
    case AskNothing(nspace, called) =>
      s.(used := s.used + {nspace}, fired := s.fired + if called then [Callback(nspace, true)] else [])
    case Ask(nspace, called, port, sources, fs, base) =>
      var tree := Staged(s, nspace, sources, fs, base);
      s.(used := s.used + {nspace}, port := PortOf(s, port), exports := s.exports[nspace := tree],
         sent := s.sent[nspace := Sent(OrderFor(cfg.uri, PortOf(s, port), nspace), tree, called)],
         net := Broadcast(s.net, nspace, cfg.n), tracks := s.tracks + [NewTrack(nspace, called)])
    case AskFails(nspace, port, left) =>
      s.(port := PortOf(s, port), exports := s.exports[nspace := left])
    case Handle(p, made, exits, left) =>
      var (stash, done) := Outcome(s, cfg, p.nspace, made, exits);
      s.(net := Replied(s.net, p, Status(done)),
         stashes := s.stashes[p.daemon := s.stashes[p.daemon] + if stash.Some? then [stash.value] else []],
         disks := s.disks[p.daemon := DiskAfter(s.disks[p.daemon], done, left)])
    case Collect(a) =>
      var (ts, more) := Answered(s.tracks, PackAck(a.part.nspace, a.status), cfg.n);
      s.(net := Delivered(s.net, a), tracks := ts, fired := s.fired + more)
    case LoseOrder(p) => s.(net := OrderLost(s.net, p))
    case LoseAnswer(a) => s.(net := AnswerLost(s.net, a))
  }

  ghost function Run(steps: seq<Step>, cfg: Config): Option<State> {
    if steps == [] then Some(Init(cfg))
    else
      var n := |steps| - 1;
      var before := Run(steps[..n], cfg);
      if before.None? || !Enabled(before.value, steps[n], cfg) then None else Some(Next(before.value, steps[n], cfg))
  }

  // ---------------------------------------------------------------- the trackers

  /** The daemons whose answers for that job have reached the launcher. */
  function Who(net: Net, nspace: string, n: nat): set<nat> {
    set d: nat | d < n && Part(d, nspace) in net.counted
  }

  /** A tracker knows how many daemons have answered, whether all have, and whether all of them succeeded. */
  ghost predicate TrackRight(t: Track, net: Net, n: nat) {
    && t.nrecvd == |Who(net, t.nspace, n)|
    && (t.complete <==> t.nrecvd >= n)
    && (t.status == 0 <==> forall d :: d in Who(net, t.nspace, n) ==> Said(net, d, t.nspace) == SUCCESS)
  }

  function Said(net: Net, d: nat, nspace: string): int {
    if Part(d, nspace) in net.answered then net.answered[Part(d, nspace)] else ERROR
  }

  /** Every job has one tracker, and it is right. */
  ghost predicate Tracking(ts: seq<Track>, net: Net, n: nat) {
    && (forall i, j :: 0 <= i < j < |ts| ==> ts[i].nspace != ts[j].nspace)
    && (forall i :: 0 <= i < |ts| ==> TrackRight(ts[i], net, n))
    && (forall nspace :: nspace in net.jobs <==> TrackOf(ts, nspace) < |ts|)
  }

  lemma {:induction false} TrackOfSnoc(ts: seq<Track>, t: Track, nspace: string)
    ensures TrackOf(ts + [t], nspace)
         == if TrackOf(ts, nspace) < |ts| then TrackOf(ts, nspace) else if t.nspace == nspace then |ts| else |ts| + 1
  {
    if ts != [] {
      assert (ts + [t])[1..] == ts[1..] + [t];
      TrackOfSnoc(ts[1..], t, nspace);
    }
  }

  lemma TrackOfUpdate(ts: seq<Track>, i: nat, t: Track, nspace: string)
    requires i < |ts| && t.nspace == ts[i].nspace
    ensures TrackOf(ts[i := t], nspace) == TrackOf(ts, nspace)
  {
    var a, b := TrackOf(ts[i := t], nspace), TrackOf(ts, nspace);
    assert b < |ts| ==> ts[i := t][b].nspace == nspace;
    assert a < |ts| ==> ts[a].nspace == nspace;
  }

  /** A complete tracker has every daemon's answer. */
  lemma WhoAll(net: Net, nspace: string, n: nat)
    ensures |Who(net, nspace, n)| <= n
    ensures |Who(net, nspace, n)| >= n <==> forall d: nat :: d < n ==> Part(d, nspace) in net.counted
  {
    assert forall d: nat :: d in Who(net, nspace, n) <==> d < n && Part(d, nspace) in net.counted;
    SubsetSize(Who(net, nspace, n), Below(n));
    if forall d: nat :: d < n ==> Part(d, nspace) in net.counted {
      assert Who(net, nspace, n) == Below(n);
    }
  }

  /** A tracker whose job no counted or answered part has changed stays right. */
  lemma SameTrack(t: Track, net: Net, next: Net, n: nat)
    requires TrackRight(t, net, n)
    requires forall d: nat :: Part(d, t.nspace) in net.counted <==> Part(d, t.nspace) in next.counted
    requires forall d: nat :: Part(d, t.nspace) in net.counted ==> Said(next, d, t.nspace) == Said(net, d, t.nspace)
    ensures TrackRight(t, next, n)
  {
    assert Who(next, t.nspace, n) == Who(net, t.nspace, n);
  }

  /** One more answer of that job counts for its tracker. */
  lemma CountedTrack(t: Track, net: Net, a: Answer, n: nat)
    requires TrackRight(t, net, n) && a.part.nspace == t.nspace && a.part.daemon < n
    requires a.part !in net.counted && a.part in net.answered && net.answered[a.part] == a.status
    ensures TrackRight(Counted(t, a.status, n), Delivered(net, a), n)
  {
    var was, now := Who(net, t.nspace, n), Who(Delivered(net, a), t.nspace, n);
    assert now == was + {a.part.daemon};
    assert Said(net, a.part.daemon, t.nspace) == a.status;
    assert forall d :: d in was ==> Said(Delivered(net, a), d, t.nspace) == Said(net, d, t.nspace);
  }

  /** Nothing but a delivered answer is counted, and nobody answers twice. */
  lemma OldTracks(ts: seq<Track>, net: Net, next: Net, n: nat)
    requires Tracking(ts, net, n) && next.counted == net.counted
    requires forall p :: p in net.counted ==>
      p in net.answered && p in next.answered && next.answered[p] == net.answered[p]
    ensures forall i :: 0 <= i < |ts| ==> TrackRight(ts[i], next, n)
  {
    hide TrackRight, Tracking;
    forall i | 0 <= i < |ts|
      ensures TrackRight(ts[i], next, n)
    {
      RightIn(ts, net, n, i);
      SameTrack(ts[i], net, next, n);
    }
  }

  lemma RightIn(ts: seq<Track>, net: Net, n: nat, i: nat)
    requires Tracking(ts, net, n) && i < |ts|
    ensures TrackRight(ts[i], net, n) && ts[i].nspace in net.jobs && TrackOf(ts, ts[i].nspace) == i
  {
    hide TrackRight;
    var j := TrackOf(ts, ts[i].nspace);
    assert j <= i;
  }

  lemma AskTracking(ts: seq<Track>, net: Net, nspace: string, called: bool, n: nat)
    requires Tracking(ts, net, n) && Kept(net, n) && nspace !in net.jobs && n > 0
    ensures Tracking(ts + [NewTrack(nspace, called)], Broadcast(net, nspace, n), n)
  {
    var t, next := NewTrack(nspace, called), Broadcast(net, nspace, n);
    assert forall p :: p in net.counted ==> p in net.answered && Known(net, p, n);
    OldTracks(ts, net, next, n);
    assert Who(next, nspace, n) == {};
    assert TrackRight(t, next, n);
    hide TrackOf, Kept, TrackRight;
    forall other: string
      ensures other in next.jobs <==> TrackOf(ts + [t], other) < |ts + [t]|
    {
      TrackOfSnoc(ts, t, other);
    }
    forall i | 0 <= i < |ts|
      ensures ts[i].nspace != nspace
    {
      RightIn(ts, net, n, i);
    }
  }

  lemma SameTracking(ts: seq<Track>, net: Net, next: Net, n: nat)
    requires Tracking(ts, net, n) && next.counted == net.counted && next.jobs == net.jobs
    requires forall p :: p in net.counted ==>
      p in net.answered && p in next.answered && next.answered[p] == net.answered[p]
    ensures Tracking(ts, next, n)
  {
    OldTracks(ts, net, next, n);
    hide TrackRight, TrackOf;
  }

  /** An answer on its way meets a tracker that still waits for it. */
  lemma AnswerAwaited(ts: seq<Track>, net: Net, a: Answer, n: nat)
    requires Tracking(ts, net, n) && Kept(net, n) && a in net.answers
    ensures var i := TrackOf(ts, a.part.nspace);
            i < |ts| && !ts[i].complete && a.part.daemon < n && TrackRight(ts[i], net, n)
            && a.part !in net.counted && a.part in net.answered && net.answered[a.part] == a.status
  {
    assert AnswerKept(net, a) && Known(net, a.part, n);
    hide Kept;
    WhoAll(net, a.part.nspace, n);
  }

  lemma CollectTracking(ts: seq<Track>, net: Net, a: Answer, n: nat)
    requires Tracking(ts, net, n) && Kept(net, n) && a in net.answers
    ensures Tracking(Received(ts, a.part.nspace, a.status, n).0, Delivered(net, a), n)
  {
    AnswerAwaited(ts, net, a, n);
    hide Kept, Tracking, TrackRight, TrackOf, Fires;
    var i := TrackOf(ts, a.part.nspace);
    CountedTrack(ts[i], net, a, n);
    ReplacedTracking(ts, i, Counted(ts[i], a.status, n), net, Delivered(net, a), n);
  }

  lemma ReplacedTracking(ts: seq<Track>, i: nat, t: Track, net: Net, next: Net, n: nat)
    requires Tracking(ts, net, n) && i < |ts| && TrackRight(t, next, n) && t.nspace == ts[i].nspace
    requires next.answered == net.answered && next.jobs == net.jobs
    requires forall p: Part :: p.nspace != ts[i].nspace ==> (p in next.counted <==> p in net.counted)
    ensures Tracking(ts[i := t], next, n)
  {
    hide TrackRight, TrackOf;
    UpdatedRight(ts, i, t, net, next, n);
    forall other: string
      ensures TrackOf(ts[i := t], other) == TrackOf(ts, other)
    {
      TrackOfUpdate(ts, i, t, other);
    }
  }

  lemma UpdatedRight(ts: seq<Track>, i: nat, t: Track, net: Net, next: Net, n: nat)
    requires Tracking(ts, net, n) && i < |ts| && TrackRight(t, next, n)
    requires next.answered == net.answered
    requires forall p: Part :: p.nspace != ts[i].nspace ==> (p in next.counted <==> p in net.counted)
    ensures var now := ts[i := t]; forall k :: 0 <= k < |now| ==> TrackRight(now[k], next, n)
  {
    hide TrackRight, TrackOf;
    var now := ts[i := t];
    forall k | 0 <= k < |now|
      ensures TrackRight(now[k], next, n)
    {
      if k != i {
        assert ts[k].nspace != ts[i].nspace;
        SameTrack(ts[k], net, next, n);
      }
    }
  }

  // --------------------------------------------------------------- the callbacks

  /** No job's callback has fired twice; a tracked job's has fired exactly if its tracker is complete, and it
      told whether the tracker has seen no failure. */
  ghost predicate Firing(fired: seq<Callback>, ts: seq<Track>, used: set<string>) {
    && (forall i, j :: 0 <= i < j < |fired| ==> fired[i].nspace != fired[j].nspace)
    && (forall i :: 0 <= i < |fired| ==> fired[i].nspace in used)
    && (forall k :: 0 <= k < |ts| ==> ts[k].nspace in used)
    && (forall i :: 0 <= i < |fired| && TrackOf(ts, fired[i].nspace) < |ts| ==>
          ts[TrackOf(ts, fired[i].nspace)].complete && ts[TrackOf(ts, fired[i].nspace)].called)
    && (forall i :: 0 <= i < |fired| && TrackOf(ts, fired[i].nspace) == |ts| ==> fired[i].ok)
    && (forall k :: 0 <= k < |ts| && ts[k].complete && ts[k].called ==>
          Callback(ts[k].nspace, ts[k].status == 0) in fired)
  }

  lemma AskNothingFiring(fired: seq<Callback>, ts: seq<Track>, used: set<string>, nspace: string, called: bool)
    requires Firing(fired, ts, used) && nspace !in used
    ensures Firing(fired + if called then [Callback(nspace, true)] else [], ts, used + {nspace})
  {
    var k := TrackOf(ts, nspace);
    hide TrackOf;
    assert k == |ts|;
  }

  lemma AskFiring(fired: seq<Callback>, ts: seq<Track>, used: set<string>, nspace: string, called: bool)
    requires Firing(fired, ts, used) && nspace !in used
    ensures Firing(fired, ts + [NewTrack(nspace, called)], used + {nspace})
  {
    hide TrackOf;
    forall i | 0 <= i < |fired|
      ensures TrackOf(ts + [NewTrack(nspace, called)], fired[i].nspace)
           == if TrackOf(ts, fired[i].nspace) < |ts| then TrackOf(ts, fired[i].nspace) else |ts| + 1
    {
      TrackOfSnoc(ts, NewTrack(nspace, called), fired[i].nspace);
    }
  }

  lemma CollectFiring(fired: seq<Callback>, ts: seq<Track>, used: set<string>, nspace: string, status: int, n: nat)
    requires Firing(fired, ts, used) && TrackOf(ts, nspace) < |ts| && !ts[TrackOf(ts, nspace)].complete
    requires forall i, j :: 0 <= i < j < |ts| ==> ts[i].nspace != ts[j].nspace
    ensures var (next, more) := Received(ts, nspace, status, n); Firing(fired + more, next, used)
  {
    var i := TrackOf(ts, nspace);
    var t := Counted(ts[i], status, n);
    hide TrackOf;
    assert forall j :: 0 <= j < |fired| ==> fired[j].nspace != nspace;
    hide Counted;
    CountedName(ts[i], status, n);
    if t.complete && t.called {
      ReplacedFiring(fired, ts, used, i, t, [Callback(nspace, t.status == 0)]);
    } else {
      ReplacedFiring(fired, ts, used, i, t, []);
    }
  }

  lemma CountedName(t: Track, status: int, n: nat)
    ensures Counted(t, status, n).nspace == t.nspace && Counted(t, status, n).called == t.called
  {
  }

  lemma ReplacedFiring(fired: seq<Callback>, ts: seq<Track>, used: set<string>, i: nat, t: Track, more: seq<Callback>)
    requires Firing(fired, ts, used) && i < |ts| && t.nspace == ts[i].nspace && TrackOf(ts, t.nspace) == i
    requires forall j :: 0 <= j < |fired| ==> fired[j].nspace != t.nspace
    requires more == if t.complete && t.called then [Callback(t.nspace, t.status == 0)] else []
    ensures Firing(fired + more, ts[i := t], used)
  {
    hide TrackOf;
    forall other: string
      ensures TrackOf(ts[i := t], other) == TrackOf(ts, other)
    {
      TrackOfUpdate(ts, i, t, other);
    }
  }

  // ----------------------------------------------------------------- the stashes

  /** A daemon finds a job's stash exactly if it has answered with success; and then the staged tree is in it,
      if the port it was exported at is a port. */
  ghost predicate StashRight(stashes: seq<Stash>, disk: map<string, Tree>, answered: map<Part, int>,
                             sent: map<string, Sent>, port: nat, p: Part, session: string)
  {
    var dir := Stashed(stashes, p.nspace);
    && (dir.Some? <==> p in answered && answered[p] == SUCCESS)
    && (dir.Some? ==> dir.value == StashDir(session, p.nspace) && dir.value in disk)
    && (dir.Some? ==> p.nspace in sent && (port < 0x1_0000 ==> Arrived(sent[p.nspace].tree, disk[dir.value])))
  }

  ghost predicate Stashing(s: State, cfg: Config) {
    && |s.stashes| == |s.disks| == cfg.n
    && forall p: Part :: p.daemon < cfg.n ==>
         StashRight(s.stashes[p.daemon], s.disks[p.daemon], s.net.answered, s.sent, s.port, p, cfg.session)
  }

  /** Every order that went out is the one for its job and the exporting port, and what was staged is what is
      exported. */
  ghost predicate Exporting(s: State, cfg: Config) {
    forall nspace :: nspace in s.sent ==>
      && s.port > 0 && s.sent[nspace].order == OrderFor(cfg.uri, s.port, nspace)
      && nspace in s.exports && s.exports[nspace] == s.sent[nspace].tree
  }

  lemma {:induction false} StashedSnoc(stashes: seq<Stash>, x: Stash, nspace: string)
    ensures Stashed(stashes + [x], nspace)
         == if Stashed(stashes, nspace).Some? then Stashed(stashes, nspace)
            else if x.nspace == nspace then Some(x.dir) else None
  {
    if stashes != [] {
      assert (stashes + [x])[1..] == stashes[1..] + [x];
      StashedSnoc(stashes[1..], x, nspace);
    }
  }

  lemma StashDirInjective(session: string, a: string, b: string)
    requires StashDir(session, a) == StashDir(session, b)
    ensures a == b
  {
    assert StashDir(session, a)[|session + "/filem-rsync/"|..] == a;
    assert StashDir(session, b)[|session + "/filem-rsync/"|..] == b;
  }

  /** The answer that travels is the one the handler sends last, for the job it was asked about. */
  lemma OutcomeAnswer(s: State, cfg: Config, nspace: string, made: bool, exits: nat -> int)
    requires nspace in s.sent && s.sent[nspace].order.nspace == nspace
    ensures var (stash, done) := Outcome(s, cfg, nspace, made, exits);
            && done != [] && done[|done| - 1] == Acked(nspace, Status(done))
            && (Status(done) == SUCCESS <==> stash.Some?)
  {
    HandledOnce(cfg.session, PackOrder(s.sent[nspace].order), made, exits);
    hide Handled;
  }

  /** What handling a job's order does to the daemon's disk: only the job's own directory changes, and it is
      recorded as a stash only with the staged tree in it. */
  lemma OutcomeDisk(s: State, cfg: Config, p: Part, made: bool, exits: nat -> int, left: Tree)
    requires Exporting(s, cfg) && Enabled(s, Handle(p, made, exits, left), cfg)
    ensures var (stash, done) := Outcome(s, cfg, p.nspace, made, exits);
            var disk, dir := s.disks[p.daemon], StashDir(cfg.session, p.nspace);
            var after := DiskAfter(disk, done, left);
            && (after == disk || after == disk[dir := left])
            && (stash.Some? ==> stash.value == Stash(p.nspace, dir) && after == disk[dir := left])
            && (stash.Some? && s.port < 0x1_0000 ==> Arrived(s.sent[p.nspace].tree, left))
  {
    var (stash, done) := Outcome(s, cfg, p.nspace, made, exits);
    hide Handled, DiskAfter, StashDir, Arrived, PullArrives, SilentElsewhere;
    OrderNames(cfg.uri, s.port, p.nspace);
    HandledDir(cfg.session, s.sent[p.nspace].order, made, exits, s.disks[p.daemon], left);
    if stash.Some? && s.port < 0x1_0000 {
      HandledPull(cfg.session, cfg.uri, ServerOf(s, cfg), p.daemon in cfg.home, p.nspace, made, exits, left);
    }
  }

  lemma HandleStash(stashes: seq<Stash>, disk: map<string, Tree>, answered: map<Part, int>, sent: map<string, Sent>,
                    port: nat, p: Part, stash: Option<Stash>, status: int, after: map<string, Tree>, left: Tree,
                    session: string, q: Part)
    requires StashRight(stashes, disk, answered, sent, port, q, session) && q.daemon == p.daemon
    requires p !in answered && p.nspace in sent && (status == SUCCESS <==> stash.Some?)
    requires after == disk || after == disk[StashDir(session, p.nspace) := left]
    requires stash.Some? ==>
      stash.value == Stash(p.nspace, StashDir(session, p.nspace)) && after == disk[StashDir(session, p.nspace) := left]
    requires stash.Some? && port < 0x1_0000 ==> Arrived(sent[p.nspace].tree, left)
    ensures StashRight(stashes + if stash.Some? then [stash.value] else [], after, answered[p := status], sent, port,
                       q, session)
  {
    hide StashDir, Stashed, Arrived;
    if stash.Some? {
      StashedSnoc(stashes, stash.value, q.nspace);
    } else {
      assert stashes + [] == stashes;
    }
    if StashDir(session, q.nspace) == StashDir(session, p.nspace) {
      StashDirInjective(session, q.nspace, p.nspace);
    }
  }

  lemma HandleStashing(s: State, p: Part, made: bool, exits: nat -> int, left: Tree, cfg: Config)
    requires Stashing(s, cfg) && Exporting(s, cfg) && p !in s.net.answered
    requires Enabled(s, Handle(p, made, exits, left), cfg) && s.sent[p.nspace].order.nspace == p.nspace
    ensures Stashing(Next(s, Handle(p, made, exits, left), cfg), cfg)
  {
    OutcomeDisk(s, cfg, p, made, exits, left);
    OutcomeAnswer(s, cfg, p.nspace, made, exits);
    hide Outcome, StashDir, StashRight, Arrived, Broadcast, DiskAfter, Status, PullArrives, SilentElsewhere;
    var next, d := Next(s, Handle(p, made, exits, left), cfg), p.daemon;
    var (stash, done) := Outcome(s, cfg, p.nspace, made, exits);
    forall q: Part | q.daemon < cfg.n
      ensures StashRight(next.stashes[q.daemon], next.disks[q.daemon], next.net.answered, next.sent, next.port, q,
                         cfg.session)
    {
      if q.daemon == d {
        HandleStash(s.stashes[d], s.disks[d], s.net.answered, s.sent, s.port, p, stash, Status(done),
                    DiskAfter(s.disks[d], done, left), left, cfg.session, q);
      } else {
        OtherStash(s.stashes[q.daemon], s.disks[q.daemon], s.net.answered, s.sent, s.port, p, Status(done),
                   cfg.session, q);
      }
    }
  }

  lemma OtherStash(stashes: seq<Stash>, disk: map<string, Tree>, answered: map<Part, int>, sent: map<string, Sent>,
                   port: nat, p: Part, status: int, session: string, q: Part)
    requires StashRight(stashes, disk, answered, sent, port, q, session) && q != p
    ensures StashRight(stashes, disk, answered[p := status], sent, port, q, session)
  {
  }

  /** New jobs, with an order out or not, leave what has been answered alone. */
  lemma AskStashing(s: State, next: State, cfg: Config)
    requires Stashing(s, cfg) && Exporting(s, cfg) && Kept(s.net, cfg.n) && s.sent.Keys == s.net.jobs
    requires next.stashes == s.stashes && next.disks == s.disks && next.net.answered == s.net.answered
    requires s.port > 0 ==> next.port == s.port
    requires forall nspace :: nspace in s.sent ==> nspace in next.sent && next.sent[nspace] == s.sent[nspace]
    ensures Stashing(next, cfg)
  {
    forall q: Part | q.daemon < cfg.n
      ensures StashRight(next.stashes[q.daemon], next.disks[q.daemon], next.net.answered, next.sent, next.port, q,
                         cfg.session)
    {
      assert StashRight(s.stashes[q.daemon], s.disks[q.daemon], s.net.answered, s.sent, s.port, q, cfg.session);
      assert q in s.net.answered ==> Known(s.net, q, cfg.n);
    }
  }

  // ------------------------------------------------------------------- every run

  /** The jobs with orders out are those with a tracker, and each has its own order. */
  ghost predicate Asking(s: State) {
    && s.sent.Keys == s.net.jobs && s.sent.Keys <= s.used
    && (forall nspace :: nspace in s.sent ==> s.sent[nspace].order.nspace == nspace)
    && (forall k :: 0 <= k < |s.tracks| ==>
          s.tracks[k].nspace in s.sent && s.tracks[k].called == s.sent[s.tracks[k].nspace].called)
  }

  ghost predicate Inv(s: State, cfg: Config) {
    && cfg.n > 0 && Kept(s.net, cfg.n) && Tracking(s.tracks, s.net, cfg.n)
    && Firing(s.fired, s.tracks, s.used) && Stashing(s, cfg) && Asking(s) && Exporting(s, cfg)
  }

  lemma AskAsking(s: State, step: Step, cfg: Config)
    requires Asking(s) && step.Ask? && Enabled(s, step, cfg)
    ensures Asking(Next(s, step, cfg)) && step.nspace !in s.net.jobs
  {
    OrderNames(cfg.uri, PortOf(s, step.port), step.nspace);
    hide ToAll, Staged, OrderFor, PortOf;
  }

  lemma AskExporting(s: State, step: Step, cfg: Config)
    requires Exporting(s, cfg) && step.Ask? && Enabled(s, step, cfg) && s.sent.Keys <= s.used
    ensures Exporting(Next(s, step, cfg), cfg)
    ensures s.sent != map[] ==> Next(s, step, cfg).port == s.port
  {
    hide Broadcast, Staged, OrderFor;
    var next, nspace, tree := Next(s, step, cfg), step.nspace, Staged(s, step.nspace, step.sources, step.fs, step.base);
    assert next.exports == s.exports[nspace := tree] && next.port == PortOf(s, step.port) > 0;
    assert next.sent == s.sent[nspace := Sent(OrderFor(cfg.uri, next.port, nspace), tree, step.called)];
    if s.sent != map[] {
      var nspace :| nspace in s.sent;
      assert s.port > 0;
    }
  }

  lemma AskInv(s: State, step: Step, cfg: Config)
    requires Inv(s, cfg) && step.Ask? && Enabled(s, step, cfg)
    ensures Inv(Next(s, step, cfg), cfg)
  {
    hide Kept, Firing, Stashing, Tracking, Asking, Exporting, Broadcast, Staged, OrderFor;
    var nspace, next := step.nspace, Next(s, step, cfg);
    AskAsking(s, step, cfg);
    SentJobs(s);
    AskExporting(s, step, cfg);
    BroadcastKept(s.net, nspace, cfg.n);
    AskTracking(s.tracks, s.net, nspace, step.called, cfg.n);
    AskFiring(s.fired, s.tracks, s.used, nspace, step.called);
    BroadcastAnswered(s.net, nspace, cfg.n);
    AskStashing(s, next, cfg);
  }

  lemma SentJobs(s: State)
    requires Asking(s)
    ensures s.sent.Keys == s.net.jobs && s.sent.Keys <= s.used
  {
  }

  lemma BroadcastAnswered(net: Net, nspace: string, n: nat)
    ensures Broadcast(net, nspace, n).answered == net.answered
  {
  }

  /** A request that fails may leave a port chosen and something staged, but nothing anybody was told of. */
  lemma AskFailsInv(s: State, step: Step, cfg: Config)
    requires Inv(s, cfg) && step.AskFails? && Enabled(s, step, cfg)
    ensures Inv(Next(s, step, cfg), cfg)
  {
    hide Kept, Stashing, Tracking;
    var next := Next(s, step, cfg);
    assert Exporting(next, cfg) by {
      assert step.nspace !in s.sent;
    }
    AskStashing(s, next, cfg);
  }

  lemma HandleFacts(s: State, p: Part, made: bool, exits: nat -> int, left: Tree, cfg: Config)
    requires Kept(s.net, cfg.n) && Asking(s) && Exporting(s, cfg) && Enabled(s, Handle(p, made, exits, left), cfg)
    ensures p !in s.net.answered && s.sent[p.nspace].order.nspace == p.nspace
    ensures forall q :: q in s.net.counted ==> q in s.net.answered && q != p
    ensures var next := Next(s, Handle(p, made, exits, left), cfg); Asking(next) && Exporting(next, cfg)
  {
    OrderAlone(s.net, p, cfg.n);
    hide Kept, Outcome, Status, PullArrives, SilentElsewhere, OrderFor, DiskAfter;
    var next := Next(s, Handle(p, made, exits, left), cfg);
    SameAsking(s, next);
    SameExporting(s, next, cfg);
  }

  lemma SameAsking(s: State, next: State)
    requires next.sent == s.sent && next.used == s.used && next.tracks == s.tracks && next.net.jobs == s.net.jobs
    ensures Asking(s) ==> Asking(next)
  {
  }

  lemma SameExporting(s: State, next: State, cfg: Config)
    requires next.sent == s.sent && next.port == s.port && next.exports == s.exports
    ensures Exporting(s, cfg) ==> Exporting(next, cfg)
  {
  }

  lemma OrderAlone(net: Net, p: Part, n: nat)
    requires Kept(net, n) && p in net.orders
    ensures p !in net.answered && forall q :: q in net.counted ==> q in net.answered && q != p
  {
    assert OrderKept(net, p);
  }

  lemma HandleInv(s: State, p: Part, made: bool, exits: nat -> int, left: Tree, cfg: Config)
    requires Inv(s, cfg) && Enabled(s, Handle(p, made, exits, left), cfg)
    ensures Inv(Next(s, Handle(p, made, exits, left), cfg), cfg)
  {
    hide Kept, Firing, Stashing, Tracking, Asking, Exporting, Outcome, Status, PullArrives, SilentElsewhere;
    HandleFacts(s, p, made, exits, left, cfg);
    var status := Status(Outcome(s, cfg, p.nspace, made, exits).1);
    RepliedKept(s.net, p, status, cfg.n);
    SameTracking(s.tracks, s.net, Replied(s.net, p, status), cfg.n);
    HandleStashing(s, p, made, exits, left, cfg);
  }

  lemma CollectAsking(s: State, a: Answer, cfg: Config)
    requires Asking(s) && Exporting(s, cfg) && Enabled(s, Collect(a), cfg)
    ensures Asking(Next(s, Collect(a), cfg)) && Exporting(Next(s, Collect(a), cfg), cfg)
  {
    hide OrderFor, Answered;
    CollectReceives(s, a, cfg);
  }

  /** The buffer that comes in is read as the answer that was given. */
  lemma CollectReceives(s: State, a: Answer, cfg: Config)
    ensures Answered(s.tracks, PackAck(a.part.nspace, a.status), cfg.n)
         == Received(s.tracks, a.part.nspace, a.status, cfg.n)
  {
    AckRoundTrip(a.part.nspace, a.status);
    hide Received;
  }

  lemma CollectInv(s: State, a: Answer, cfg: Config)
    requires Inv(s, cfg) && Enabled(s, Collect(a), cfg)
    ensures Inv(Next(s, Collect(a), cfg), cfg)
  {
    hide Kept, Firing, Tracking, Received, Answered, Stashing, Asking, Exporting, Delivered;
    CollectAsking(s, a, cfg);
    CollectReceives(s, a, cfg);
    CollectTracks(s.tracks, s.net, s.fired, s.used, a, cfg.n);
    DeliveredKept(s.net, a, cfg.n);
    CollectStashing(s, a, cfg);
  }

  lemma CollectTracks(ts: seq<Track>, net: Net, fired: seq<Callback>, used: set<string>, a: Answer, n: nat)
    requires Tracking(ts, net, n) && Kept(net, n) && a in net.answers && Firing(fired, ts, used)
    ensures var (after, more) := Received(ts, a.part.nspace, a.status, n);
            Tracking(after, Delivered(net, a), n) && Firing(fired + more, after, used)
  {
    AnswerAwaited(ts, net, a, n);
    Distinct(ts, net, n);
    hide Kept, Firing, Tracking, TrackRight, TrackOf, Received, Delivered;
    CollectTracking(ts, net, a, n);
    CollectFiring(fired, ts, used, a.part.nspace, a.status, n);
  }

  lemma CollectStashing(s: State, a: Answer, cfg: Config)
    requires Stashing(s, cfg) && Enabled(s, Collect(a), cfg)
    ensures Stashing(Next(s, Collect(a), cfg), cfg)
  {
    DeliveredAnswered(s.net, a);
    hide StashRight, Answered, Delivered;
  }

  lemma DeliveredAnswered(net: Net, a: Answer)
    ensures Delivered(net, a).answered == net.answered
  {
  }

  lemma Distinct(ts: seq<Track>, net: Net, n: nat)
    requires Tracking(ts, net, n)
    ensures forall i, j :: 0 <= i < j < |ts| ==> ts[i].nspace != ts[j].nspace
  {
  }

  lemma LossStashing(s: State, next: Net, cfg: Config)
    requires Stashing(s, cfg) && Asking(s) && Exporting(s, cfg)
    requires next.jobs == s.net.jobs && next.answered == s.net.answered
    ensures var after := s.(net := next); Stashing(after, cfg) && Asking(after) && Exporting(after, cfg)
  {
    hide StashRight, OrderFor;
  }

  /** A change of the network alone, that answers and counts nothing. */
  lemma LossKeeps(s: State, next: Net, cfg: Config)
    requires Inv(s, cfg) && Kept(next, cfg.n)
    requires next.jobs == s.net.jobs && next.counted == s.net.counted && next.answered == s.net.answered
    ensures Inv(s.(net := next), cfg)
  {
    CountedAnswered(s.net, cfg.n);
    hide Kept, Firing, Tracking, Stashing, Asking, Exporting;
    LossStashing(s, next, cfg);
    SameTracking(s.tracks, s.net, next, cfg.n);
  }

  lemma LossInv(s: State, step: Step, cfg: Config)
    requires Inv(s, cfg) && Enabled(s, step, cfg) && (step.LoseOrder? || step.LoseAnswer?)
    ensures Inv(Next(s, step, cfg), cfg)
  {
    hide Kept, Firing, Tracking, Stashing, Asking, Exporting;
    match step
    case LoseOrder(p) =>
      OrderLostKept(s.net, p, cfg.n);
      LossKeeps(s, OrderLost(s.net, p), cfg);
    case LoseAnswer(a) =>
      AnswerLostKept(s.net, a, cfg.n);
      LossKeeps(s, AnswerLost(s.net, a), cfg);
  }

  lemma NextInv(s: State, step: Step, cfg: Config)
    requires Inv(s, cfg) && Enabled(s, step, cfg)
    ensures Inv(Next(s, step, cfg), cfg)
  {
    hide Kept, Tracking, Stashing, Firing, Asking, Exporting, Enabled;
    match step
    case AskNothing(nspace, called) => AskNothingInv(s, nspace, called, cfg);
    case Ask(_, _, _, _, _, _) => AskInv(s, step, cfg);
    case AskFails(_, _, _) => AskFailsInv(s, step, cfg);
    case Handle(p, made, exits, left) => HandleInv(s, p, made, exits, left, cfg);
    case Collect(a) => CollectInv(s, a, cfg);
    case _ => LossInv(s, step, cfg);
  }

  lemma AskNothingRest(s: State, nspace: string, called: bool, cfg: Config)
    requires Stashing(s, cfg) && Asking(s) && Exporting(s, cfg) && Enabled(s, AskNothing(nspace, called), cfg)
    ensures var next := Next(s, AskNothing(nspace, called), cfg);
            Stashing(next, cfg) && Asking(next) && Exporting(next, cfg)
  {
    hide StashRight, OrderFor;
  }

  lemma AskNothingInv(s: State, nspace: string, called: bool, cfg: Config)
    requires Inv(s, cfg) && Enabled(s, AskNothing(nspace, called), cfg)
    ensures Inv(Next(s, AskNothing(nspace, called), cfg), cfg)
  {
    hide Kept, Tracking, Stashing, Asking, Exporting, Firing;
    AskNothingRest(s, nspace, called, cfg);
    AskNothingFiring(s.fired, s.tracks, s.used, nspace, called);
  }

  /** Every reachable state is right, whatever the jobs, the losses, the pulls and the order of it all. */
  lemma {:induction false} RunInv(steps: seq<Step>, cfg: Config)
    requires cfg.n > 0 && Run(steps, cfg).Some?
    ensures Inv(Run(steps, cfg).value, cfg)
  {
    if steps == [] {
      assert Inv(Init(cfg), cfg);
    } else {
      hide Inv, Next, Enabled;
      var n := |steps| - 1;
      RunInv(steps[..n], cfg);
      NextInv(Run(steps[..n], cfg).value, steps[n], cfg);
    }
  }

  // ------------------------------------------------------------------ main results

  /** The state after a run. */
  ghost function After(steps: seq<Step>, cfg: Config): State
    requires Run(steps, cfg).Some?
  {
    Run(steps, cfg).value
  }

  /** No job's callback ever fires twice. */
  lemma CallbackOnce(steps: seq<Step>, cfg: Config, i: nat, j: nat)
    requires cfg.n > 0 && Run(steps, cfg).Some?
    requires i < j < |After(steps, cfg).fired|
    ensures After(steps, cfg).fired[i].nspace != After(steps, cfg).fired[j].nspace
  {
    RunInv(steps, cfg);
  }

  /** A job's callback never fires before every daemon's answer has arrived, and it reports success exactly
      when all those answers were success. */
  lemma CallbackMeaning(steps: seq<Step>, cfg: Config, c: Callback)
    requires cfg.n > 0 && Run(steps, cfg).Some?
    requires c in After(steps, cfg).fired && c.nspace in After(steps, cfg).sent
    ensures var s := After(steps, cfg);
            && (forall d: nat :: d < cfg.n ==>
                  Part(d, c.nspace) in s.net.counted && Part(d, c.nspace) in s.net.answered)
            && (c.ok <==> forall d: nat :: d < cfg.n ==> Said(s.net, d, c.nspace) == SUCCESS)
  {
    RunInv(steps, cfg);
    var s := After(steps, cfg);
    hide Run, Stashing;
    var k := TrackOf(s.tracks, c.nspace);
    FiredFor(s, cfg, c, k);
    WhoAll(s.net, c.nspace, cfg.n);
    CountedAnswered(s.net, cfg.n);
    assert forall d: nat :: d in Who(s.net, c.nspace, cfg.n) <==> d < cfg.n;
  }

  lemma CountedAnswered(net: Net, n: nat)
    requires Kept(net, n)
    ensures forall p :: p in net.counted ==> p in net.answered
  {
  }

  /** The callback belongs to its tracker. */
  lemma FiredFor(s: State, cfg: Config, c: Callback, k: nat)
    requires Inv(s, cfg) && c in s.fired && c.nspace in s.sent && k == TrackOf(s.tracks, c.nspace)
    ensures k < |s.tracks| && s.tracks[k].complete && s.tracks[k].called
    ensures c.ok == (s.tracks[k].status == 0) && TrackRight(s.tracks[k], s.net, cfg.n)
  {
    hide TrackOf, TrackRight, Kept, Stashing;
    FiredBy(s.fired, s.tracks, s.used, c, k);
  }

  lemma FiredBy(fired: seq<Callback>, ts: seq<Track>, used: set<string>, c: Callback, k: nat)
    requires Firing(fired, ts, used) && c in fired && k == TrackOf(ts, c.nspace) && k < |ts|
    ensures ts[k].complete && ts[k].called && c.ok == (ts[k].status == 0)
  {
    var i :| 0 <= i < |fired| && fired[i] == c;
    assert ts[TrackOf(ts, fired[i].nspace)].complete;
    var j :| 0 <= j < |fired| && fired[j] == Callback(ts[k].nspace, ts[k].status == 0);
    assert i == j;
  }

  /** A callback without a pre-position reports success. */
  lemma NothingAsked(steps: seq<Step>, cfg: Config, c: Callback)
    requires cfg.n > 0 && Run(steps, cfg).Some?
    requires c in After(steps, cfg).fired && c.nspace !in After(steps, cfg).sent
    ensures c.ok
  {
    RunInv(steps, cfg);
    var s := After(steps, cfg);
    var i :| 0 <= i < |s.fired| && s.fired[i] == c;
  }

  /** No answer is lost on the launcher: the tracker is there before the order goes out, so once every
      daemon's answer has been delivered, the callback has fired. */
  lemma AllCountedFires(steps: seq<Step>, cfg: Config, nspace: string)
    requires cfg.n > 0 && Run(steps, cfg).Some?
    requires nspace in After(steps, cfg).sent && After(steps, cfg).sent[nspace].called
    requires forall d: nat :: d < cfg.n ==> Part(d, nspace) in After(steps, cfg).net.counted
    ensures exists ok :: Callback(nspace, ok) in After(steps, cfg).fired
  {
    RunInv(steps, cfg);
    var s := After(steps, cfg);
    hide Run, Kept, Stashing;
    WhoAll(s.net, nspace, cfg.n);
    var k := TrackOf(s.tracks, nspace);
    assert Callback(nspace, s.tracks[k].status == 0) in s.fired;
  }

  /** A job with nothing on its way any more and nothing lost has had its callback. */
  lemma QuietFires(steps: seq<Step>, cfg: Config, nspace: string)
    requires cfg.n > 0 && Run(steps, cfg).Some?
    requires nspace in After(steps, cfg).sent && After(steps, cfg).sent[nspace].called
    requires forall p :: p in After(steps, cfg).net.orders || p in After(steps, cfg).net.lost ==> p.nspace != nspace
    requires forall a :: a in After(steps, cfg).net.answers ==> a.part.nspace != nspace
    ensures exists ok :: Callback(nspace, ok) in After(steps, cfg).fired
  {
    RunInv(steps, cfg);
    var s := After(steps, cfg);
    hide Run, Tracking, Firing, Stashing;
    forall d: nat | d < cfg.n
      ensures Part(d, nspace) in s.net.counted
    {
      assert Known(s.net, Part(d, nspace), cfg.n);
      assert Accounted(s.net, Part(d, nspace));
    }
    AllCountedFires(steps, cfg, nspace);
  }

  /** End to end: after a success callback, on every daemon every app of the job that asked for its binary, or
      for files with the working directory set, is run in a directory; and it holds the tree that was staged for
      the job and is exported under its name, if the port it is exported at is a port. */
  lemma SuccessReachesAll(steps: seq<Step>, cfg: Config, nspace: string, d: nat, wish: Wish, setWorkdir: bool)
    requires cfg.n > 0 && Run(steps, cfg).Some? && d < cfg.n
    requires Callback(nspace, true) in After(steps, cfg).fired && nspace in After(steps, cfg).sent
    requires wish.binary || (wish.files && setWorkdir)
    ensures var s := After(steps, cfg);
            && |s.stashes| == |s.disks| == cfg.n
            && RunDir(s.stashes[d], nspace, wish, setWorkdir) == Some(StashDir(cfg.session, nspace))
            && StashDir(cfg.session, nspace) in s.disks[d] && nspace in s.exports
            && s.exports[nspace] == s.sent[nspace].tree
            && (s.port < 0x1_0000 ==> Arrived(s.exports[nspace], s.disks[d][StashDir(cfg.session, nspace)]))
  {
    RunInv(steps, cfg);
    CallbackMeaning(steps, cfg, Callback(nspace, true));
    var s := After(steps, cfg);
    hide Run, Tracking, Firing, Kept, StashDir, OrderFor;
    assert Said(s.net, d, nspace) == SUCCESS;
    assert StashRight(s.stashes[d], s.disks[d], s.net.answered, s.sent, s.port, Part(d, nspace), cfg.session);
  }

  lemma SentStays(s: State, step: Step, cfg: Config, nspace: string)
    requires Asking(s) && Enabled(s, step, cfg) && nspace in s.sent
    ensures nspace in Next(s, step, cfg).sent && Next(s, step, cfg).sent[nspace] == s.sent[nspace]
  {
    hide Outcome, PullArrives, SilentElsewhere, Staged, OrderFor, Answered, Broadcast, Replied, Delivered;
  }

  /** What a job asked for is in the tree that stays exported for it. */
  lemma {:induction false} AskedTree(steps: seq<Step>, cfg: Config, j: nat, path: string)
    requires cfg.n > 0 && Run(steps, cfg).Some? && j < |steps| && steps[j].Ask?
    requires path in Merged(steps[j].sources, steps[j].fs, steps[j].base)
    ensures var s, merged := After(steps, cfg), Merged(steps[j].sources, steps[j].fs, steps[j].base);
            && steps[j].nspace in s.sent && path in s.sent[steps[j].nspace].tree
            && s.sent[steps[j].nspace].tree[path] == merged[path]
  {
    hide Next, Enabled, Inv, Merged;
    var n := |steps| - 1;
    var before := Run(steps[..n], cfg).value;
    if j == n {
      AskTree(before, steps[n], cfg, path);
    } else {
      assert steps[..n][j] == steps[j];
      AskedTree(steps[..n], cfg, j, path);
      RunInv(steps[..n], cfg);
      InvAsking(before, cfg);
      SentStays(before, steps[n], cfg, steps[j].nspace);
    }
  }

  lemma InvAsking(s: State, cfg: Config)
    requires Inv(s, cfg)
    ensures Asking(s)
  {
  }

  lemma AskTree(s: State, step: Step, cfg: Config, path: string)
    requires step.Ask? && Enabled(s, step, cfg) && path in Merged(step.sources, step.fs, step.base)
    ensures var next, merged := Next(s, step, cfg), Merged(step.sources, step.fs, step.base);
            && step.nspace in next.sent && path in next.sent[step.nspace].tree
            && next.sent[step.nspace].tree[path] == merged[path]
  {
    hide Merged, OrderFor, Broadcast;
  }

  /** A request that goes through after one that failed keeps what that one staged, except where it has something at
      the same path. */
  lemma StagedKeeps(s: State, nspace: string, sources: seq<string>, fs: string -> Entry, base: string -> string,
                    path: string)
    requires nspace in s.exports && path in s.exports[nspace] && path !in Merged(sources, fs, base)
    ensures var tree := Staged(s, nspace, sources, fs, base); path in tree && tree[path] == s.exports[nspace][path]
  {
    hide Merged;
  }

  /** What an app wants. */
  function WishOf(a: AppCtx): Wish {
    Wish(a.preloadFiles.Some?, a.preloadBinary)
  }

  /** Both trees hold that path, with the same content. */
  predicate SameAt(a: Tree, b: Tree, path: string) {
    path in a && path in b && a[path] == b[path]
  }

  /** End to end for a preloaded binary: after a success callback, on every daemon, the app is run in a directory in
      which its binary is, under the very name that the app was rewritten to. */
  lemma BinaryReachesAll(steps: seq<Step>, cfg: Config, j: nat, d: nat, setWorkdir: bool,
                         apps: seq<Option<AppCtx>>, cwd: Option<string>, k: nat)
    requires cfg.n > 0 && Run(steps, cfg).Some? && d < cfg.n && After(steps, cfg).port < 0x1_0000
    requires j < |steps| && steps[j].Ask? && steps[j].sources == Sources(apps, cwd)
    requires Callback(steps[j].nspace, true) in After(steps, cfg).fired
    requires k < |apps| && apps[k].Some? && apps[k].value.preloadBinary
    requires steps[j].fs(Absolute(apps[k].value.app, cwd)).File?
    requires steps[j].base(Absolute(apps[k].value.app, cwd)) == steps[j].base(apps[k].value.app)
    ensures var s, dir := After(steps, cfg), StashDir(cfg.session, steps[j].nspace);
            var name := steps[j].base(apps[k].value.app);
            && |s.stashes| == |s.disks| == cfg.n
            && Renamed(apps[k], steps[j].base).value.app == "./" + name
            && RunDir(s.stashes[d], steps[j].nspace, WishOf(apps[k].value), setWorkdir) == Some(dir)
            && dir in s.disks[d]
            && SameAt(s.disks[d][dir], Merged(Sources(apps, cwd), steps[j].fs, steps[j].base), name)
  {
    hide Run, Merged, Sources, Absolute, StashDir;
    var name := steps[j].base(apps[k].value.app);
    BinaryMerged(apps, cwd, k, steps[j].fs, steps[j].base);
    AskedTree(steps, cfg, j, name);
    SuccessReachesAll(steps, cfg, steps[j].nspace, d, WishOf(apps[k].value), setWorkdir);
  }

  lemma SourcesIndex(apps: seq<Option<AppCtx>>, cwd: Option<string>, k: nat, source: string) returns (i: nat)
    requires k < |apps| && apps[k].Some? && source in SourcesOf(apps[k].value, cwd)
    ensures i < |Sources(apps, cwd)| && Sources(apps, cwd)[i] == source
  {
    SourcesHold(apps, cwd, k);
    i :| i < |Sources(apps, cwd)| && Sources(apps, cwd)[i] == source;
  }

  lemma FileSource(a: AppCtx, cwd: Option<string>, fields: seq<string>, m: nat, source: string)
    requires m < |fields| && a.preloadFiles == Some(Join(fields, ","))
    requires forall i :: 0 <= i < |fields| ==> fields[i] != "" && ',' !in fields[i]
    requires Resolves(fields[m], cwd, source)
    ensures source in SourcesOf(a, cwd)
  {
    JoinedSplit(fields, ',');
    AbsoluteResolves(fields[m], cwd);
    hide ArgvSplit, Absolute, Join;
    assert AbsoluteAll(fields, cwd)[m] == source;
  }

  /** End to end for preloaded files: after a success callback, on every daemon, the stash holds what is in every file
      and directory that an app of the job lists - a directory's contents at the root, a file under its base name -
      with its content where no other source has that path; and with the option set, the app is run in it. */
  lemma FilesReachAll(steps: seq<Step>, cfg: Config, j: nat, d: nat, setWorkdir: bool, apps: seq<Option<AppCtx>>,
                      cwd: Option<string>, k: nat, fields: seq<string>, m: nat, source: string, path: string,
                      content: string)
    requires cfg.n > 0 && Run(steps, cfg).Some? && d < cfg.n && After(steps, cfg).port < 0x1_0000
    requires j < |steps| && steps[j].Ask? && steps[j].sources == Sources(apps, cwd)
    requires Callback(steps[j].nspace, true) in After(steps, cfg).fired
    requires k < |apps| && apps[k].Some? && apps[k].value.preloadFiles == Some(Join(fields, ",")) && m < |fields|
    requires forall i :: 0 <= i < |fields| ==> fields[i] != "" && ',' !in fields[i]
    requires Resolves(fields[m], cwd, source) && Offers(source, steps[j].fs, steps[j].base, path, content)
    ensures var s, dir, sources := After(steps, cfg), cfg.session + "/filem-rsync/" + steps[j].nspace, steps[j].sources;
            && |s.stashes| == |s.disks| == cfg.n && Stashed(s.stashes[d], steps[j].nspace) == Some(dir)
            && (apps[k].value.preloadBinary || setWorkdir ==>
                  RunDir(s.stashes[d], steps[j].nspace, WishOf(apps[k].value), setWorkdir) == Some(dir))
            && dir in s.disks[d] && path in s.disks[d][dir]
            && (NowhereElse(sources, source, steps[j].fs, steps[j].base, path) ==> s.disks[d][dir][path] == content)
  {
    var fs, base := steps[j].fs, steps[j].base;
    FileSource(apps[k].value, cwd, fields, m, source);
    var i := SourcesIndex(apps, cwd, k, source);
    OffersMerged(steps[j].sources, i, fs, base, path, content);
    NowhereElseAt(steps[j].sources, i, fs, base, path, content);
    hide Run, Merged, Sources, Offers, NowhereElse, Resolves;
    AskedTree(steps, cfg, j, path);
    SuccessReachesAll(steps, cfg, steps[j].nspace, d, Wish(true, true), setWorkdir);
  }

  /** No other source has anything at that path. */
  ghost predicate NowhereElse(sources: seq<string>, source: string, fs: string -> Entry, base: string -> string,
                              path: string)
  {
    && (forall i, j :: 0 <= i < j < |sources| && sources[i] == source ==> sources[j] != source)
    && forall i, other :: 0 <= i < |sources| && sources[i] != source ==> !Offers(sources[i], fs, base, path, other)
  }

  lemma NowhereElseAt(sources: seq<string>, i: nat, fs: string -> Entry, base: string -> string, path: string,
                      content: string)
    requires i < |sources| && Offers(sources[i], fs, base, path, content) && path in Merged(sources, fs, base)
    ensures NowhereElse(sources, sources[i], fs, base, path) ==> Merged(sources, fs, base)[path] == content
  {
    hide Offers, Merged;
    if NowhereElse(sources, sources[i], fs, base, path) {
      assert forall j, other :: 0 <= j < |sources| && j != i ==> !Offers(sources[j], fs, base, path, other);
      OffersMerged(sources, i, fs, base, path, content);
    }
  }

  /** And whatever the callback said: a daemon has a job's stash exactly if it answered with success. */
  lemma StashIffSuccess(steps: seq<Step>, cfg: Config, nspace: string, d: nat)
    requires cfg.n > 0 && Run(steps, cfg).Some? && d < cfg.n
    ensures var s := After(steps, cfg);
            |s.stashes| == cfg.n
            && (Stashed(s.stashes[d], nspace).Some? <==>
                  Part(d, nspace) in s.net.answered && Said(s.net, d, nspace) == SUCCESS)
  {
    RunInv(steps, cfg);
    var s := After(steps, cfg);
    hide Run, Tracking, Firing, Kept, StashDir;
    assert StashRight(s.stashes[d], s.disks[d], s.net.answered, s.sent, s.port, Part(d, nspace), cfg.session);
  }
}
