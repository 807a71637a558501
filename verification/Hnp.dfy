/** The launcher's side of pre-positioning: what is staged, who is told, and how the answers are counted
    (filem_rsync/filem_rsync_module.c:395-469, 588-842). */
module Hnp {
  import opened Strings
  import opened Preposition

  // ---------------------------------------------------------------- what is staged

  type Tree = map<string, string>

  datatype Entry = Missing | Dir(tree: Tree) | File(content: string)

  /** One app of a job. */
  datatype AppCtx = AppCtx(app: string, argv0: string, preloadBinary: bool, preloadFiles: Option<string>)

  function Absolute(path: string, cwd: Option<string>): string {
    if (path != "" && path[0] == '/') || cwd.None? then path else cwd.value + "/" + path
  }

  function AbsoluteAll(paths: seq<string>, cwd: Option<string>): seq<string> {
    seq(|paths|, i requires 0 <= i < |paths| => Absolute(paths[i], cwd))
  }

  /** What one app wants to find on every node. */
  function SourcesOf(a: AppCtx, cwd: Option<string>): seq<string> {
    (if a.preloadBinary then [Absolute(a.app, cwd)] else [])
      + (if a.preloadFiles.Some? then AbsoluteAll(ArgvSplit(a.preloadFiles.value, ','), cwd) else [])
  }

  function Sources(apps: seq<Option<AppCtx>>, cwd: Option<string>): seq<string> {
    if apps == [] then []
    else
      var n := |apps| - 1;
      Sources(apps[..n], cwd) + if apps[n].Some? then SourcesOf(apps[n].value, cwd) else []
  }

  /** A preloaded binary is run by its name in the directory it lands in. */
  function Renamed(a: Option<AppCtx>, base: string -> string): Option<AppCtx> {
    if a.Some? && a.value.preloadBinary
    then Some(a.value.(app := "./" + base(a.value.app), argv0 := "./" + base(a.value.app))) else a
  }

  method CollectSources(apps: array<Option<AppCtx>>, cwd: Option<string>, base: string -> string)
    returns (sources: seq<string>)
    modifies apps
    ensures sources == Sources(old(apps[..]), cwd)
    ensures forall i :: 0 <= i < apps.Length ==> apps[i] == Renamed(old(apps[i]), base)
    ensures forall i :: 0 <= i < apps.Length && old(apps[i]).Some? && old(apps[i]).value.preloadBinary ==>
      apps[i] == Some(old(apps[i]).value.(app := "./" + base(old(apps[i]).value.app),
                                          argv0 := "./" + base(old(apps[i]).value.app)))
    ensures forall i :: 0 <= i < apps.Length && (old(apps[i]).Some? ==> !old(apps[i]).value.preloadBinary) ==>
      apps[i] == old(apps[i])
  {
    hide SourcesOf;
    sources := [];
    ghost var before := apps[..];
    for i := 0 to apps.Length
      invariant sources == Sources(before[..i], cwd)
      invariant forall j :: 0 <= j < i ==> apps[j] == Renamed(before[j], base)
      invariant forall j :: i <= j < apps.Length ==> apps[j] == before[j]
    {
      assert before[..i + 1][..i] == before[..i];
      if apps[i].Some? {
        var a := apps[i].value;
        var own := CollectApp(a, cwd);
        sources := sources + own;
        if a.preloadBinary {
          apps[i] := Some(a.(app := "./" + base(a.app), argv0 := "./" + base(a.app)));
        }
      }
    }
    assert before[..apps.Length] == before;
  }

  /** The absolute form of a path, as it is typed. */
  ghost predicate Resolves(path: string, cwd: Option<string>, full: string) {
    full == if cwd.None? || "/" <= path then path else cwd.value + "/" + path
  }

  lemma AbsoluteResolves(path: string, cwd: Option<string>)
    ensures Resolves(path, cwd, Absolute(path, cwd))
  {
    assert "/" <= path <==> path != "" && path[0] == '/';
  }

  /** A missing app adds no source. */
  lemma NoApp(apps: seq<Option<AppCtx>>, cwd: Option<string>)
    ensures Sources(apps + [None], cwd) == Sources(apps, cwd) && Sources([], cwd) == []
  {
    assert (apps + [None])[..|apps|] == apps;
  }

  /** The binary, if there is one, and then the fields, each resolved against the working directory unless it starts
      with a slash. */
  ghost predicate Resolved(own: seq<string>, binary: seq<string>, fields: seq<string>, cwd: Option<string>) {
    && |own| == |binary| + |fields|
    && (forall m :: 0 <= m < |binary| ==> Resolves(binary[m], cwd, own[m]))
    && forall m :: 0 <= m < |fields| ==> Resolves(fields[m], cwd, own[|binary| + m])
  }

  /** An app that comes next adds its binary, if it asks for that, and then every field of its list of files. */
  lemma NextApp(apps: seq<Option<AppCtx>>, a: AppCtx, cwd: Option<string>, fields: seq<string>)
    returns (own: seq<string>)
    requires fields != [] ==> a.preloadFiles == Some(Join(fields, ","))
    requires fields == [] ==> a.preloadFiles in {None, Some("")}
    requires forall m :: 0 <= m < |fields| ==> fields[m] != "" && ',' !in fields[m]
    ensures Sources(apps + [Some(a)], cwd) == Sources(apps, cwd) + own
    ensures Resolved(own, if a.preloadBinary then [a.app] else [], fields, cwd)
  {
    SourcesSnoc(apps, a, cwd);
    own := SourcesOf(a, cwd);
    if fields != [] {
      JoinedSplit(fields, ',');
    } else {
      NoFields();
    }
    hide ArgvSplit, Absolute, Join, Resolved;
    var binary := if a.preloadBinary then [a.app] else [];
    assert own == AbsoluteAll(binary, cwd) + AbsoluteAll(fields, cwd);
    AllResolved(binary, fields, cwd);
  }

  lemma AllResolved(binary: seq<string>, fields: seq<string>, cwd: Option<string>)
    ensures Resolved(AbsoluteAll(binary, cwd) + AbsoluteAll(fields, cwd), binary, fields, cwd)
  {
    hide Absolute, Resolves;
    forall m | 0 <= m < |binary|
      ensures Resolves(binary[m], cwd, AbsoluteAll(binary, cwd)[m])
    {
      AbsoluteResolves(binary[m], cwd);
    }
    forall m | 0 <= m < |fields|
      ensures Resolves(fields[m], cwd, AbsoluteAll(fields, cwd)[m])
    {
      AbsoluteResolves(fields[m], cwd);
    }
  }

  lemma SourcesSnoc(apps: seq<Option<AppCtx>>, a: AppCtx, cwd: Option<string>)
    ensures Sources(apps + [Some(a)], cwd) == Sources(apps, cwd) + SourcesOf(a, cwd)
  {
    assert (apps + [Some(a)])[..|apps|] == apps;
  }

  lemma NoFields()
    ensures ArgvSplit("", ',') == []
  {
  }

  method CollectApp(a: AppCtx, cwd: Option<string>) returns (own: seq<string>)
    ensures own == SourcesOf(a, cwd)
  {
    hide AbsoluteAll;
    own := [];
    if a.preloadBinary {
      own := own + [Absolute(a.app, cwd)];
    }
    if a.preloadFiles.Some? {
      var files := AbsolutizeAll(ArgvSplit(a.preloadFiles.value, ','), cwd);
      own := own + files;
    }
  }

  method AbsolutizeAll(paths: seq<string>, cwd: Option<string>) returns (r: seq<string>)
    ensures r == AbsoluteAll(paths, cwd)
  {
    r := [];
    for i := 0 to |paths|
      invariant r == AbsoluteAll(paths, cwd)[..i]
    {
      r := r + [Absolute(paths[i], cwd)];
    }
  }

  /** A directory contributes its contents, a file itself by its base name. */
  function Contribution(path: string, fs: string -> Entry, base: string -> string): Tree {
    match fs(path)
    case Missing => map[]
    case Dir(tree) => tree
    case File(content) => map[base(path) := content]
  }

  function Merged(sources: seq<string>, fs: string -> Entry, base: string -> string): Tree {
    if sources == [] then map[]
    else
      var n := |sources| - 1;
      Merged(sources[..n], fs, base) + Contribution(sources[n], fs, base)
  }

  predicate Links(sources: seq<string>, i: nat, fs: string -> Entry, exits: nat -> int)
    requires i < |sources|
  {
    !fs(sources[i]).Missing? && exits(i) == 0
  }

  /** Links the sources into what the stage directory holds already. `exits(i)`: how the i-th linking rsync
      ends; 0 means that the contribution is in the tree. */
  method StageSources(sources: seq<string>, start: Tree, made: bool, fs: string -> Entry, base: string -> string,
                      exits: nat -> int)
    returns (rc: Rc, tree: Tree)
    ensures rc == Success <==> made && forall i :: 0 <= i < |sources| ==> Links(sources, i, fs, exits)
    ensures rc == Success ==> forall i :: 0 <= i < |sources| ==> !fs(sources[i]).Missing? && exits(i) == 0
    ensures made && (forall i :: 0 <= i < |sources| ==> !fs(sources[i]).Missing? && exits(i) == 0) ==> rc == Success
    ensures rc == Success ==> tree == start + Merged(sources, fs, base)
    ensures rc == FileOpenFailure <==> !made
    ensures rc == NotFound <==> made && MissingFirst(sources, fs, exits)
    ensures rc in {Success, FileOpenFailure, NotFound, Error}
    ensures start.Keys <= tree.Keys
  {
    hide MissingFirst;
    AllLink(sources, fs, exits);
    tree := start;
    if !made {
      return FileOpenFailure, tree;
    }
    for i := 0 to |sources|
      invariant forall j :: 0 <= j < i ==> Links(sources, j, fs, exits)
      invariant tree == start + Merged(sources[..i], fs, base)
    {
      if fs(sources[i]).Missing? {
        assert !Links(sources, i, fs, exits);
        StopsAt(sources, i, fs, exits);
        return NotFound, tree;
      }
      if exits(i) != 0 {
        assert !Links(sources, i, fs, exits);
        StopsAt(sources, i, fs, exits);
        return Error, tree;
      }
      assert sources[..i + 1][..i] == sources[..i];
      MergeNext(start, Merged(sources[..i], fs, base), Contribution(sources[i], fs, base));
      tree := tree + Contribution(sources[i], fs, base);
    }
    assert sources[..|sources|] == sources;
    NothingMissing(sources, fs, exits);
    rc := Success;
  }

  lemma AllLink(sources: seq<string>, fs: string -> Entry, exits: nat -> int)
    ensures (forall i :: 0 <= i < |sources| ==> Links(sources, i, fs, exits))
       <==> forall i :: 0 <= i < |sources| ==> !fs(sources[i]).Missing? && exits(i) == 0
  {
    if forall i :: 0 <= i < |sources| ==> Links(sources, i, fs, exits) {
      forall i | 0 <= i < |sources|
        ensures !fs(sources[i]).Missing? && exits(i) == 0
      {
        assert Links(sources, i, fs, exits);
      }
    }
  }

  /** The first source that does not link is one that does not exist. */
  ghost predicate MissingFirst(sources: seq<string>, fs: string -> Entry, exits: nat -> int) {
    exists i: nat :: StopsMissing(sources, i, fs, exits)
  }

  ghost predicate StopsMissing(sources: seq<string>, i: nat, fs: string -> Entry, exits: nat -> int) {
    i < |sources| && fs(sources[i]).Missing? && forall j :: 0 <= j < i ==> Links(sources, j, fs, exits)
  }

  lemma StopsAt(sources: seq<string>, i: nat, fs: string -> Entry, exits: nat -> int)
    requires i < |sources| && !Links(sources, i, fs, exits) && forall j :: 0 <= j < i ==> Links(sources, j, fs, exits)
    ensures MissingFirst(sources, fs, exits) <==> fs(sources[i]).Missing?
  {
    forall k: nat
      ensures StopsMissing(sources, k, fs, exits) <==> k == i && fs(sources[i]).Missing?
    {
      LinkedThere(sources, k, fs, exits);
      assert k < i ==> Links(sources, k, fs, exits);
    }
    assert StopsMissing(sources, i, fs, exits) <==> fs(sources[i]).Missing?;
  }

  lemma LinkedThere(sources: seq<string>, i: nat, fs: string -> Entry, exits: nat -> int)
    ensures i < |sources| && Links(sources, i, fs, exits) ==> !fs(sources[i]).Missing?
  {
  }

  lemma NothingMissing(sources: seq<string>, fs: string -> Entry, exits: nat -> int)
    requires forall j :: 0 <= j < |sources| ==> Links(sources, j, fs, exits)
    ensures !MissingFirst(sources, fs, exits)
  {
    forall k: nat
      ensures !StopsMissing(sources, k, fs, exits)
    {
      LinkedThere(sources, k, fs, exits);
    }
  }

  lemma MergeNext(a: Tree, b: Tree, c: Tree)
    ensures a + b + c == a + (b + c)
  {
  }

  /** Only the i-th source has that path. */
  ghost predicate OnlyIn(sources: seq<string>, i: nat, fs: string -> Entry, base: string -> string, path: string)
  {
    i < |sources| && forall j :: 0 <= j < |sources| ==> (path in Contribution(sources[j], fs, base) <==> j == i)
  }

  /** The merge holds every path of every source and no other. */
  lemma {:induction false} MergedPaths(sources: seq<string>, fs: string -> Entry, base: string -> string,
                                       path: string)
    ensures path in Merged(sources, fs, base)
        <==> exists i :: 0 <= i < |sources| && path in Contribution(sources[i], fs, base)
  {
    hide Contribution;
    if sources != [] {
      var n := |sources| - 1;
      MergedPaths(sources[..n], fs, base, path);
      assert forall i :: 0 <= i < n ==> sources[..n][i] == sources[i];
      if path in Contribution(sources[n], fs, base) {
        assert path in Merged(sources, fs, base);
      }
    }
  }

  /** A path that only one source has is merged with that source's content. */
  lemma {:induction false} MergedContent(sources: seq<string>, i: nat, fs: string -> Entry, base: string -> string,
                                         path: string)
    requires OnlyIn(sources, i, fs, base, path)
    ensures path in Merged(sources, fs, base)
    ensures Merged(sources, fs, base)[path] == Contribution(sources[i], fs, base)[path]
  {
    hide Contribution;
    var n := |sources| - 1;
    if i < n {
      assert forall j :: 0 <= j < n ==> sources[..n][j] == sources[j];
      MergedContent(sources[..n], i, fs, base, path);
    }
  }

  /** What is at that path in a source: in a directory, one of its own paths; a file only at its base name. */
  ghost predicate Offers(source: string, fs: string -> Entry, base: string -> string, path: string, content: string) {
    match fs(source)
    case Missing => false
    case Dir(tree) => path in tree && tree[path] == content
    case File(text) => path == base(source) && text == content
  }

  /** Every path of a source directory, and every source file under its base name, is merged; and with its content
      where no other source has anything there. */
  lemma OffersMerged(sources: seq<string>, i: nat, fs: string -> Entry, base: string -> string, path: string,
                     content: string)
    requires i < |sources| && Offers(sources[i], fs, base, path, content)
    ensures path in Merged(sources, fs, base)
    ensures (forall j, other :: 0 <= j < |sources| && j != i ==> !Offers(sources[j], fs, base, path, other))
        ==> Merged(sources, fs, base)[path] == content
  {
    MergedPaths(sources, fs, base, path);
    assert path in Contribution(sources[i], fs, base) && Contribution(sources[i], fs, base)[path] == content;
    if forall j, other :: 0 <= j < |sources| && j != i ==> !Offers(sources[j], fs, base, path, other) {
      forall j | 0 <= j < |sources|
        ensures path in Contribution(sources[j], fs, base) <==> j == i
      {
        if path in Contribution(sources[j], fs, base) && j != i {
          assert Offers(sources[j], fs, base, path, Contribution(sources[j], fs, base)[path]);
        }
      }
      MergedContent(sources, i, fs, base, path);
    }
  }

  /** The staged tree holds what the directory held before and every path of every source, and no other path;
      a directory that did not exist holds the sources alone. */
  lemma StagedPaths(start: Tree, sources: seq<string>, fs: string -> Entry, base: string -> string, path: string)
    ensures path in start + Merged(sources, fs, base)
        <==> path in start || exists i :: 0 <= i < |sources| && path in Contribution(sources[i], fs, base)
    ensures map[] + Merged(sources, fs, base) == Merged(sources, fs, base)
  {
    MergedPaths(sources, fs, base, path);
  }

  lemma {:induction false} SourcesHold(apps: seq<Option<AppCtx>>, cwd: Option<string>, k: nat)
    requires k < |apps| && apps[k].Some?
    ensures forall p :: p in SourcesOf(apps[k].value, cwd) ==> p in Sources(apps, cwd)
  {
    hide SourcesOf;
    var n := |apps| - 1;
    if k < n {
      SourcesHold(apps[..n], cwd, k);
    }
  }

  lemma BinaryMerged(apps: seq<Option<AppCtx>>, cwd: Option<string>, k: nat, fs: string -> Entry,
                     base: string -> string)
    requires k < |apps| && apps[k].Some? && apps[k].value.preloadBinary
    requires fs(Absolute(apps[k].value.app, cwd)).File?
    requires base(Absolute(apps[k].value.app, cwd)) == base(apps[k].value.app)
    ensures base(apps[k].value.app) in Merged(Sources(apps, cwd), fs, base)
  {
    var a, sources := apps[k].value, Sources(apps, cwd);
    SourcesHold(apps, cwd, k);
    var path, name := Absolute(a.app, cwd), base(a.app);
    assert path in SourcesOf(a, cwd);
    hide Sources, Merged, Absolute;
    var i :| 0 <= i < |sources| && sources[i] == path;
    assert name in Contribution(sources[i], fs, base);
    MergedPaths(sources, fs, base, name);
  }

  /** A preloaded binary is in the staged tree under the very name the app is rewritten to, wherever the base
      name of a path does not depend on the directory it is resolved against. */
  lemma BinaryStaged(apps: seq<Option<AppCtx>>, cwd: Option<string>, k: nat, fs: string -> Entry,
                     base: string -> string)
    requires k < |apps| && apps[k].Some? && apps[k].value.preloadBinary
    requires fs(Absolute(apps[k].value.app, cwd)).File?
    requires base(Absolute(apps[k].value.app, cwd)) == base(apps[k].value.app)
    ensures exists name ::
      name in Merged(Sources(apps, cwd), fs, base) && Renamed(apps[k], base).value.app == "./" + name
  {
    BinaryMerged(apps, cwd, k, fs, base);
    hide Merged, Sources;
  }

  // -------------------------------------------------------------------- counting

  /** One pre-position in flight; `called`: there is a callback to fire. */
  datatype Track = Track(nspace: string, called: bool, nrecvd: nat, status: int, complete: bool)

  datatype Callback = Callback(nspace: string, ok: bool)

  function NewTrack(nspace: string, called: bool): Track {
    Track(nspace, called, 0, 0, false)
  }

  /** A tracker after one more answer, of `n` it waits for. */
  function Counted(t: Track, status: int, n: nat): Track {
    t.(nrecvd := t.nrecvd + 1, status := if status != 0 && t.status == 0 then status else t.status,
       complete := t.complete || t.nrecvd + 1 >= n)
  }

  /** The callback that this answer fires. */
  function Fires(t: Track, status: int, n: nat): seq<Callback> {
    var now := Counted(t, status, n);
    if !t.complete && now.complete && t.called then [Callback(t.nspace, now.status == 0)] else []
  }

  /** The first tracker of that job; the length when there is none. */
  function TrackOf(ts: seq<Track>, nspace: string): (i: nat)
    ensures i <= |ts| && (i < |ts| ==> ts[i].nspace == nspace)
    ensures forall j :: 0 <= j < i ==> ts[j].nspace != nspace
  {
    if ts == [] then 0 else if ts[0].nspace == nspace then 0 else 1 + TrackOf(ts[1..], nspace)
  }

  /** The trackers and the callbacks fired after one answer. */
  function Received(ts: seq<Track>, nspace: string, status: int, n: nat): (seq<Track>, seq<Callback>) {
    var i := TrackOf(ts, nspace);
    if i < |ts| then (ts[i := Counted(ts[i], status, n)], Fires(ts[i], status, n)) else (ts, [])
  }

  /** An answer as it reaches the launcher. */
  datatype Ack = Ack(nspace: string, status: int)

  /** The first two data of an answer's buffer, if they are what they should be. */
  function UnpackAck(b: seq<Field>): Option<Ack> {
    if |b| >= 2 && b[0].Str? && b[1].Num? then Some(Ack(b[0].text, b[1].n)) else None
  }

  /** A packed answer is the answer that was packed. */
  lemma AckRoundTrip(nspace: string, status: int)
    ensures PackAck(nspace, status) == [Str(nspace), Num(status)]
    ensures UnpackAck(PackAck(nspace, status)) == Some(Ack(nspace, status))
  {
  }

  /** The trackers and the callbacks fired after one buffer has come in. */
  function Answered(ts: seq<Track>, b: seq<Field>, n: nat): (seq<Track>, seq<Callback>) {
    match UnpackAck(b)
    case None => (ts, [])
    case Some(a) => Received(ts, a.nspace, a.status, n)
  }

  /** An answer, datum by datum: without a job name and a number it changes nothing; otherwise the first tracker of that
      job, if there is one, has one more answer, keeps the first failure it has seen and, when it has as many answers
      as it waits for, fires its callback, once. */
  lemma AnsweredExactly(ts: seq<Track>, b: seq<Field>, n: nat, i: nat)
    ensures |b| < 2 || !b[0].Str? || !b[1].Num? ==> Answered(ts, b, n) == (ts, [])
    ensures |b| >= 2 && b[0].Str? && b[1].Num? && (forall j :: 0 <= j < |ts| ==> ts[j].nspace != b[0].text) ==>
      Answered(ts, b, n) == (ts, [])
    ensures |b| >= 2 && b[0].Str? && b[1].Num? && i < |ts| && ts[i].nspace == b[0].text
            && (forall j :: 0 <= j < i ==> ts[j].nspace != b[0].text) ==>
      var t, status := ts[i], if ts[i].status == 0 then b[1].n else ts[i].status;
      var enough := t.nrecvd + 1 >= n;
      Answered(ts, b, n) == (ts[i := Track(t.nspace, t.called, t.nrecvd + 1, status, t.complete || enough)],
                             if enough && !t.complete && t.called then [Callback(t.nspace, status == 0)] else [])
  {
    if |b| >= 2 && b[0].Str? && b[1].Num? {
      assert UnpackAck(b) == Some(Ack(b[0].text, b[1].n));
      assert TrackOf(ts, b[0].text) < |ts| ==> ts[TrackOf(ts, b[0].text)].nspace == b[0].text;
    }
  }

  function ReceivedAll(ts: seq<Track>, acks: seq<Ack>, n: nat): (r: (seq<Track>, seq<Callback>))
    ensures |r.0| == |ts|
  {
    if acks == [] then (ts, [])
    else
      var k := |acks| - 1;
      var (before, fired) := ReceivedAll(ts, acks[..k], n);
      var (after, more) := Received(before, acks[k].nspace, acks[k].status, n);
      (after, fired + more)
  }

  function StatusesOf(acks: seq<Ack>, nspace: string): seq<int> {
    if acks == [] then []
    else
      var k := |acks| - 1;
      StatusesOf(acks[..k], nspace) + if acks[k].nspace == nspace then [acks[k].status] else []
  }

  function FirstFailure(sts: seq<int>): int {
    if sts == [] then 0
    else
      var k := |sts| - 1;
      var before := FirstFailure(sts[..k]);
      if before != 0 then before else sts[k]
  }

  ghost predicate Waiting(ts: seq<Track>) {
    forall j :: 0 <= j < |ts| ==> ts[j] == NewTrack(ts[j].nspace, ts[j].called)
  }

  lemma {:induction false} SameNames(a: seq<Track>, b: seq<Track>, nspace: string)
    requires |a| == |b| && forall j :: 0 <= j < |a| ==> a[j].nspace == b[j].nspace
    ensures TrackOf(a, nspace) == TrackOf(b, nspace)
  {
    if a != [] {
      SameNames(a[1..], b[1..], nspace);
    }
  }

  /** Where a tracker stands after the answers `sts`, if it gets to see them. */
  function Standing(t: Track, sts: seq<int>, n: nat): Track {
    t.(nrecvd := |sts|, status := FirstFailure(sts), complete := |sts| >= n)
  }

  /** Answers count only for the first tracker of their job: a later tracker of the same job name keeps waiting
      whatever arrives, so its job is never told. */
  lemma {:induction false} OnlyFirstCounts(ts: seq<Track>, acks: seq<Ack>, n: nat, j: nat)
    requires Waiting(ts) && n > 0 && j < |ts|
    ensures var after := ReceivedAll(ts, acks, n).0;
            after[j] == if TrackOf(ts, ts[j].nspace) == j then Standing(ts[j], StatusesOf(acks, ts[j].nspace), n)
                        else ts[j]
  {
    if acks != [] {
      var k := |acks| - 1;
      var before, a := ReceivedAll(ts, acks[..k], n).0, acks[k];
      forall i: nat | i < |ts|
        ensures before[i].nspace == ts[i].nspace
        ensures before[i] == if TrackOf(ts, ts[i].nspace) == i
                             then Standing(ts[i], StatusesOf(acks[..k], ts[i].nspace), n) else ts[i]
      {
        OnlyFirstCounts(ts, acks[..k], n, i);
      }
      SameNames(before, ts, a.nspace);
      var sts := StatusesOf(acks[..k], ts[j].nspace);
      assert (sts + [a.status])[..|sts|] == sts;
      assert StatusesOf(acks, ts[j].nspace) == if a.nspace == ts[j].nspace then sts + [a.status] else sts;
      hide TrackOf, StatusesOf;
    }
  }

  /** The callbacks of one job. */
  function Told(fired: seq<Callback>, nspace: string): seq<Callback> {
    if fired == [] then []
    else
      var k := |fired| - 1;
      Told(fired[..k], nspace) + if fired[k].nspace == nspace then [fired[k]] else []
  }

  lemma ToldSnoc(fired: seq<Callback>, more: seq<Callback>, nspace: string)
    requires |more| <= 1
    ensures Told(fired + more, nspace)
         == Told(fired, nspace) + if more != [] && more[0].nspace == nspace then more else []
  {
    if more == [] {
      assert fired + more == fired;
    } else {
      assert (fired + more)[..|fired|] == fired;
    }
  }

  lemma {:induction false} FailureFree(sts: seq<int>)
    ensures FirstFailure(sts) == 0 <==> forall i :: 0 <= i < |sts| ==> sts[i] == 0
  {
    if sts != [] {
      FailureFree(sts[..|sts| - 1]);
    }
  }

  /** What a job is told, exactly: once, if its first tracker has a callback and at least `n` answers for the
      job name have arrived, whoever sent them; and then whether the first `n` of them were all success. */
  lemma {:induction false} ToldExactly(ts: seq<Track>, acks: seq<Ack>, n: nat, nspace: string)
    requires Waiting(ts) && n > 0
    ensures var i, sts := TrackOf(ts, nspace), StatusesOf(acks, nspace);
            Told(ReceivedAll(ts, acks, n).1, nspace)
              == if i < |ts| && ts[i].called && |sts| >= n then [Callback(nspace, FirstFailure(sts[..n]) == 0)] else []
  {
    if acks != [] {
      var k := |acks| - 1;
      var (before, fired) := ReceivedAll(ts, acks[..k], n);
      var a, sts := acks[k], StatusesOf(acks[..k], nspace);
      ToldExactly(ts, acks[..k], n, nspace);
      NextFires(ts, acks[..k], n, a);
      StatusesSnoc(acks, nspace);
      Prefixes(sts, a.status, n);
      var more := Received(before, a.nspace, a.status, n).1;
      FiresName(before, a, n);
      hide TrackOf, StatusesOf, Told, FirstFailure, Received;
      assert ReceivedAll(ts, acks, n).1 == fired + more;
      ToldSnoc(fired, more, nspace);
      assert Told(fired, nspace) + [] == Told(fired, nspace);
    }
  }

  /** The first `n` answers are there and all success. */
  predicate FirstSucceed(sts: seq<int>, n: nat) {
    n <= |sts| && forall i :: 0 <= i < n ==> sts[i] == SUCCESS
  }

  lemma FirstFree(sts: seq<int>, n: nat)
    requires n <= |sts|
    ensures FirstFailure(sts[..n]) == 0 <==> FirstSucceed(sts, n)
  {
    FailureFree(sts[..n]);
    hide FirstFailure;
    assert forall i :: 0 <= i < n ==> sts[..n][i] == sts[i];
  }

  /** And it is told success exactly if these were all success. */
  lemma ToldSuccess(ts: seq<Track>, acks: seq<Ack>, n: nat, nspace: string)
    requires Waiting(ts) && n > 0
    ensures var i, sts := TrackOf(ts, nspace), StatusesOf(acks, nspace);
            (Callback(nspace, true) in Told(ReceivedAll(ts, acks, n).1, nspace)
             <==> i < |ts| && ts[i].called && FirstSucceed(sts, n))
  {
    ToldExactly(ts, acks, n, nspace);
    hide TrackOf, StatusesOf, Told, ReceivedAll, FirstFailure;
    var sts := StatusesOf(acks, nspace);
    if n <= |sts| {
      FirstFree(sts, n);
      hide FirstSucceed;
    }
  }

  /** What one more answer fires. */
  lemma NextFires(ts: seq<Track>, acks: seq<Ack>, n: nat, a: Ack)
    requires Waiting(ts) && n > 0
    ensures var i, sts := TrackOf(ts, a.nspace), StatusesOf(acks, a.nspace);
            Received(ReceivedAll(ts, acks, n).0, a.nspace, a.status, n).1
              == if i < |ts| && ts[i].called && |sts| + 1 == n
                 then [Callback(a.nspace, FirstFailure(sts + [a.status]) == 0)] else []
  {
    var before := ReceivedAll(ts, acks, n).0;
    forall j: nat | j < |ts|
      ensures before[j].nspace == ts[j].nspace
      ensures TrackOf(ts, ts[j].nspace) == j ==> before[j] == Standing(ts[j], StatusesOf(acks, ts[j].nspace), n)
    {
      OnlyFirstCounts(ts, acks, n, j);
    }
    SameNames(before, ts, a.nspace);
    var i := TrackOf(ts, a.nspace);
    hide TrackOf, StatusesOf, FirstFailure, ReceivedAll, Fires;
    if i < |ts| {
      FiresStanding(ts[i], StatusesOf(acks, a.nspace), a.status, n);
    }
  }

  lemma StatusesSnoc(acks: seq<Ack>, nspace: string)
    requires acks != []
    ensures var k := |acks| - 1;
            StatusesOf(acks, nspace)
              == if acks[k].nspace == nspace then StatusesOf(acks[..k], nspace) + [acks[k].status]
                 else StatusesOf(acks[..k], nspace)
  {
  }

  lemma FiresName(ts: seq<Track>, a: Ack, n: nat)
    ensures var more := Received(ts, a.nspace, a.status, n).1;
            |more| <= 1 && (more != [] ==> more[0].nspace == a.nspace)
  {
  }

  lemma Prefixes(sts: seq<int>, status: int, n: nat)
    ensures n <= |sts| ==> (sts + [status])[..n] == sts[..n]
    ensures n == |sts| + 1 ==> (sts + [status])[..n] == sts + [status]
  {
  }

  lemma FiresStanding(t: Track, sts: seq<int>, status: int, n: nat)
    ensures Fires(Standing(t, sts, n), status, n)
         == if t.called && |sts| + 1 == n then [Callback(t.nspace, FirstFailure(sts + [status]) == 0)] else []
  {
    assert (sts + [status])[..|sts|] == sts;
  }

  class Tracker {
    const nspace: string
    const called: bool
    var nrecvd: nat
    var status: int
    var complete: bool

    constructor (nspace: string, called: bool)
      ensures Value() == NewTrack(nspace, called)
    {
      this.nspace, this.called := nspace, called;
      nrecvd, status, complete := 0, 0, false;
    }

    function Value(): Track
      reads this
    {
      Track(nspace, called, nrecvd, status, complete)
    }

    /** One more answer: the first failure sticks, and the callback is due only once. */
    method Count(st: int, n: nat) returns (due: bool)
      modifies this
      ensures Value() == Counted(old(Value()), st, n)
      ensures (if due then [Callback(nspace, status == 0)] else []) == Fires(old(Value()), st, n)
    {
      if st != 0 && status == 0 {
        status := st;
      }
      nrecvd := nrecvd + 1;
      due := false;
      if !complete && nrecvd >= n {
        complete := true;
        due := called;
      }
    }
  }

  /** A process id, as the parent of a fork sees it. */
  type Pid = p: nat | p > 0 witness 1

  /** Everything outside the launcher that decides how a request goes: paths and files; the linking rsyncs;
      the exporting daemon's port, configuration file and fork; the URI; and whether the xcast goes out. */
  datatype World = World(cwd: Option<string>, base: string -> string, fs: string -> Entry, made: bool,
                         exits: nat -> int, configuredPort: int, freePort: int, configWritten: bool,
                         fork: Option<Pid>, uri: Option<string>, delivers: bool)

  /** The order for a job: all of the launcher's addresses, and its port as 16 bits. */
  function OrderFor(uri: Option<string>, port: int, nspace: string): Order {
    Order(nspace, Join(Addresses(uri), ","), port % 0x1_0000, MODULE)
  }

  lemma OrderNames(uri: Option<string>, port: int, nspace: string)
    ensures OrderFor(uri, port, nspace).nspace == nspace
  {
  }

  /** Besides the port, an order names the job, the one module and every address. */
  lemma OrderSays(uri: Option<string>, port: int, nspace: string)
    ensures var o := OrderFor(uri, port, nspace);
            o.nspace == nspace && o.modname == "preload" && ArgvSplit(o.addrs, ',') == Addresses(uri)
  {
    AddressesRoundTrip(uri);
    hide Addresses, ArgvSplit, Join;
  }

  /** The daemons are told the port that is exported, exactly if it is a port. */
  lemma AnnouncedPort(uri: Option<string>, port: int, nspace: string)
    requires port > 0
    ensures OrderFor(uri, port, nspace).port == port <==> port < 0x1_0000
    ensures port < 0x1_0000 ==> UnpackOrder(PackOrder(OrderFor(uri, port, nspace))) == Some(OrderFor(uri, port, nspace))
  {
    hide Addresses, Join;
  }

  function PortFor(w: World): int {
    if w.configuredPort > 0 then w.configuredPort else w.freePort
  }

  /** Everything links, and the exporting daemon runs or can be started. */
  ghost predicate Exports(sources: seq<string>, w: World, running: bool) {
    && w.made && (forall i :: 0 <= i < |sources| ==> Links(sources, i, w.fs, w.exits))
    && (running || (PortFor(w) > 0 && w.configWritten && w.fork.Some?))
  }

  class Launcher {
    const numDaemons: nat
    var outbound: seq<Tracker>
    var rsyncdPid: nat             // 0: not started
    var rsyncdPort: int
    var staged: map<string, Tree>  // the exported subtree of each job
    ghost var fired: seq<Callback>

    ghost predicate Valid()
      reads this
    {
      forall i, j :: 0 <= i < j < |outbound| ==> outbound[i] != outbound[j]
    }

    ghost function Tracks(): (r: seq<Track>)
      reads this, outbound
      ensures |r| == |outbound|
    {
      seq(|outbound|, i requires 0 <= i < |outbound| reads this, outbound => outbound[i].Value())
    }

    constructor (numDaemons: nat)
      ensures this.numDaemons == numDaemons && Valid() && outbound == [] && fired == [] && rsyncdPid == 0
    {
      this.numDaemons := numDaemons;
      outbound, rsyncdPid, rsyncdPort, staged, fired := [], 0, 0, map[], [];
    }

    /** The xcast; the tracker must be there before it. */
    method Xcast(o: Order, delivers: bool) returns (rc: Rc)
      requires exists i :: 0 <= i < |outbound| && outbound[i].Value() == NewTrack(o.nspace, outbound[i].called)
      ensures rc == if delivers then Success else Error
    {
      rc := if delivers then Success else Error;
    }

    method StartRsyncd(w: World) returns (rc: Rc)
      modifies this`rsyncdPid, this`rsyncdPort
      ensures rc == Success ==> rsyncdPid > 0
      ensures rc == Success && old(rsyncdPid) == 0 ==> w.configWritten && w.fork == Some(rsyncdPid)
      ensures old(rsyncdPid) > 0 ==> rc == Success && rsyncdPid == old(rsyncdPid) && rsyncdPort == old(rsyncdPort)
      ensures old(rsyncdPid) == 0 ==> rsyncdPort == if w.configuredPort > 0 then w.configuredPort else w.freePort
      ensures old(rsyncdPid) == 0 ==>
        && rsyncdPort == PortFor(w)
        && rc == (if PortFor(w) <= 0 then SocketNotAvailable
                  else if !w.configWritten then FileOpenFailure
                  else if w.fork.None? then Error else Success)
    {
      if rsyncdPid != 0 {
        return Success;
      }
      rsyncdPort := PortFor(w);
      if rsyncdPort <= 0 {
        return SocketNotAvailable;
      }
      if !w.configWritten {
        return FileOpenFailure;
      }
      if w.fork.None? {
        return Error;
      }
      rsyncdPid := w.fork.value;
      rc := Success;
    }

    /** What the stage directory of a job holds. */
    function Stage(nspace: string): Tree
      reads this`staged
    {
      if nspace in staged then staged[nspace] else map[]
    }

    /** Stages the sources under the job's name, on top of what is there, and makes sure that the exporting
        daemon runs. */
    method Export(nspace: string, sources: seq<string>, w: World) returns (rc: Rc)
      modifies this`rsyncdPid, this`rsyncdPort, this`staged
      ensures rc == Success <==> Exports(sources, w, old(rsyncdPid) > 0)
      ensures rc == Success ==> Stage(nspace) == old(Stage(nspace)) + Merged(sources, w.fs, w.base) && rsyncdPid > 0
      ensures rc == Success ==> rsyncdPort > 0 || old(rsyncdPid) > 0
      ensures rc == Success ==>
        w.made && forall i :: 0 <= i < |sources| ==> !w.fs(sources[i]).Missing? && w.exits(i) == 0
      ensures rc == Success && old(rsyncdPid) == 0 ==>
        && w.configWritten && w.fork == Some(rsyncdPid)
        && rsyncdPort == (if w.configuredPort > 0 then w.configuredPort else w.freePort)
      ensures forall other :: other != nspace ==> Stage(other) == old(Stage(other))
      ensures old(rsyncdPid) > 0 ==> rsyncdPid == old(rsyncdPid) && rsyncdPort == old(rsyncdPort)
    {
      AllLink(sources, w.fs, w.exits);
      hide Merged;
      var tree: Tree;
      rc, tree := StageSources(sources, Stage(nspace), w.made, w.fs, w.base, w.exits);
      staged := staged[nspace := tree];
      if rc != Success {
        return;
      }
      rc := StartRsyncd(w);
    }

    /** Without sources the callback fires at once. Otherwise either everything went well - then the tree is
        staged, a new tracker waits and the order names this job - or no tracker, order or callback is left. */
    method PrepositionFiles(nspace: string, called: bool, apps: array<Option<AppCtx>>, w: World)
      returns (rc: Rc, sent: Option<Order>)
      requires Valid()
      modifies this, apps
      ensures Valid()
      ensures Sources(old(apps[..]), w.cwd) == [] ==>
        rc == Success && sent.None? && outbound == old(outbound)
        && fired == old(fired) + if called then [Callback(nspace, true)] else []
      ensures Sources(old(apps[..]), w.cwd) != [] ==>
        && fired == old(fired) && (sent.Some? <==> rc == Success)
        && (rc == Success <==> w.delivers && Exports(Sources(old(apps[..]), w.cwd), w, old(rsyncdPid) > 0))
      ensures forall i :: 0 <= i < apps.Length ==> apps[i] == Renamed(old(apps[i]), w.base)
      ensures sent.None? ==> Tracks() == old(Tracks())
      ensures sent.Some? ==>
        && Tracks() == old(Tracks()) + [NewTrack(nspace, called)]
        && sent.value == OrderFor(w.uri, rsyncdPort, nspace)
        && sent.value.nspace == nspace && sent.value.modname == "preload"
        && ArgvSplit(sent.value.addrs, ',') == Addresses(w.uri)
        && Stage(nspace) == old(Stage(nspace)) + Merged(Sources(old(apps[..]), w.cwd), w.fs, w.base)
        && rsyncdPid > 0
      ensures sent.Some? && old(rsyncdPid) == 0 ==>
        && w.configWritten && w.fork == Some(rsyncdPid)
        && rsyncdPort == (if w.configuredPort > 0 then w.configuredPort else w.freePort)
      ensures forall other :: other != nspace ==> Stage(other) == old(Stage(other))
      ensures old(rsyncdPid) > 0 ==> rsyncdPid == old(rsyncdPid) && rsyncdPort == old(rsyncdPort)
    {
      hide Sources, Merged, Exports, OrderFor, Renamed, ArgvSplit, Addresses;
      sent := None;
      var sources := CollectSources(apps, w.cwd, w.base);
      if sources == [] {
        fired := fired + if called then [Callback(nspace, true)] else [];
        return Success, None;
      }
      rc := Export(nspace, sources, w);
      if rc != Success {
        return;
      }
      rc, sent := Announce(nspace, called, w.uri, w.delivers);
      OrderSays(w.uri, rsyncdPort, nspace);
    }

    /** Tracks the answers, then sends the order; without the order there is nothing to track. */
    method Announce(nspace: string, called: bool, uri: Option<string>, delivers: bool)
      returns (rc: Rc, sent: Option<Order>)
      requires Valid()
      modifies this`outbound
      ensures Valid() && rc == if delivers then Success else Error
      ensures !delivers ==> sent.None? && outbound == old(outbound) && Tracks() == old(Tracks())
      ensures delivers ==>
        sent == Some(OrderFor(uri, rsyncdPort, nspace)) && Tracks() == old(Tracks()) + [NewTrack(nspace, called)]
    {
      hide OrderFor;
      var ob := new Tracker(nspace, called);
      outbound := outbound + [ob];
      var order := OrderFor(uri, rsyncdPort, nspace);
      OrderNames(uri, rsyncdPort, nspace);
      assert outbound[|outbound| - 1].Value() == NewTrack(nspace, ob.called);
      rc := Xcast(order, delivers);
      if rc != Success {
        outbound := outbound[..|outbound| - 1];
        assert outbound == old(outbound);
        return rc, None;
      }
      sent := Some(order);
    }

    method RecvAck(b: seq<Field>)
      requires Valid()
      modifies this`fired, outbound
      ensures Valid() && outbound == old(outbound)
      ensures (Tracks(), fired) == (Answered(old(Tracks()), b, numDaemons).0,
                                    old(fired) + Answered(old(Tracks()), b, numDaemons).1)
    {
      assert fired + [] == fired;
      if b == [] || !b[0].Str? || |b| < 2 || !b[1].Num? {
        return;
      }
      var nspace, st := b[0].text, b[1].n;
      ghost var ts := Tracks();
      var i := 0;
      while i < |outbound| && outbound[i].nspace != nspace
        invariant i <= |outbound| && forall j :: 0 <= j < i ==> ts[j].nspace != nspace
      {
        i := i + 1;
      }
      if i == |outbound| {
        return;
      }
      assert TrackOf(ts, nspace) == i by {
        assert ts[i].nspace == nspace;
      }
      hide Counted, Fires, TrackOf;
      var due := outbound[i].Count(st, numDaemons);
      if due {
        fired := fired + [Callback(nspace, outbound[i].status == 0)];
      }
      assert Tracks() == ts[i := Counted(ts[i], st, numDaemons)];
    }
  }
}
