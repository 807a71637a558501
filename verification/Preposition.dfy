/** Pre-positioning files with rsync: the launcher's side, each daemon's side, and the messages between them
    (filem_rsync/filem_rsync_module.c). */
module Preposition {
  import opened Strings

  const SUCCESS := 0
  const ERROR := -1
  const MODULE := "preload"
  const LOOPBACK := "127.0.0.1"

  datatype Rc = Success | Error | NotFound | FileOpenFailure | SocketNotAvailable

  // ------------------------------------------------------------------- addresses

  /** PMIx_Argv_split: empty fields disappear. */
  function ArgvSplit(s: string, c: char): seq<string> {
    Filled(Split(s, c))
  }

  /** The address field of the URI's "tcp://" clause, and the loopback address. */
  function Addresses(uri: Option<string>): seq<string> {
    HostsOf(uri) + [LOOPBACK]
  }

  function HostsOf(uri: Option<string>): seq<string> {
    if uri.None? then []
    else
      var tcp := Find(uri.value, 0, "tcp://");
      if tcp.None? then []
      else
        var rest := uri.value[tcp.value + 6..];
        var end := Find(rest, 0, ":");
        if end.None? then [] else ArgvSplit(rest[..end.value], ',')
  }

  lemma JoinedSplit(parts: seq<string>, c: char)
    requires parts != [] && forall i :: 0 <= i < |parts| ==> c !in parts[i] && parts[i] != ""
    ensures ArgvSplit(Join(parts, [c]), c) == parts
  {
    SplitJoin(parts, c);
    FilledAll(parts);
  }

  /** A daemon tries exactly the addresses that the launcher took from its URI, whatever that looks like. */
  lemma AddressesRoundTrip(uri: Option<string>)
    ensures ArgvSplit(Join(Addresses(uri), ","), ',') == Addresses(uri)
  {
    var hosts := HostsOf(uri);
    forall i | 0 <= i < |hosts|
      ensures ',' !in hosts[i] && hosts[i] != ""
    {
      var rest := uri.value[Find(uri.value, 0, "tcp://").value + 6..];
      var parts := Split(rest[..Find(rest, 0, ":").value], ',');
      FilledParts(parts);
      assert hosts[i] in parts;
    }
    hide HostsOf, Join;
    JoinedSplit(Addresses(uri), ',');
  }

  /** A URI that lists hosts yields those hosts, in order, and the loopback address. */
  lemma AddressesOfUri(uri: string, tcp: nat, hosts: seq<string>, tail: string)
    requires hosts != [] && forall i :: 0 <= i < |hosts| ==> ',' !in hosts[i] && ':' !in hosts[i] && hosts[i] != ""
    requires Find(uri, 0, "tcp://") == Some(tcp) && uri[tcp + 6..] == Join(hosts, ",") + ":" + tail
    ensures Addresses(Some(uri)) == hosts + ["127.0.0.1"]
  {
    NoColon(hosts);
    JoinedSplit(hosts, ',');
    hide Join, Find, ArgvSplit, HostsOf;
    FirstOf(Join(hosts, ","), ":", tail);
    HostsAt(uri, tcp, uri[tcp + 6..], |Join(hosts, ",")|);
  }

  /** Without a URI, or a tcp clause in it, or a colon behind that, there is the loopback address alone. */
  lemma AddressesAlone(uri: string, tcp: nat)
    requires Find(uri, 0, "tcp://") == None
          || (Find(uri, 0, "tcp://") == Some(tcp) && Find(uri[tcp + 6..], 0, ":") == None)
    ensures Addresses(Some(uri)) == ["127.0.0.1"] && Addresses(None) == ["127.0.0.1"]
  {
    hide Find;
  }

  lemma HostsAt(uri: string, i: nat, rest: string, n: nat)
    requires Find(uri, 0, "tcp://") == Some(i) && uri[i + 6..] == rest && Find(rest, 0, ":") == Some(n)
    ensures HostsOf(Some(uri)) == ArgvSplit(rest[..n], ',')
  {
  }

  lemma FirstOf(field: string, sep: string, tail: string)
    requires |sep| == 1 && sep[0] !in field
    ensures Find(field + sep + tail, 0, sep) == Some(|field|) && (field + sep + tail)[..|field|] == field
  {
    var s := field + sep + tail;
    assert At(s, |field|, sep);
    forall i | 0 <= i < |field|
      ensures !At(s, i, sep)
    {
      assert s[i..i + 1][0] == field[i];
    }
  }

  lemma {:induction false} NoColon(hosts: seq<string>)
    requires forall i :: 0 <= i < |hosts| ==> ':' !in hosts[i]
    ensures ':' !in Join(hosts, ",")
  {
    if |hosts| > 1 {
      NoColon(hosts[1..]);
    }
  }

  // -------------------------------------------------------------------- messages

  /** One packed datum. */
  datatype Field = Str(text: string) | Num(n: int)

  /** What the launcher tells every daemon. */
  datatype Order = Order(nspace: string, addrs: string, port: nat, modname: string)

  function PackOrder(o: Order): seq<Field> {
    [Str(o.nspace), Str(o.addrs), Num(o.port), Str(o.modname)]
  }

  function UnpackOrder(b: seq<Field>): Option<Order> {
    if |b| >= 4 && b[0].Str? && b[1].Str? && b[2].Num? && 0 <= b[2].n < 0x1_0000 && b[3].Str?
    then Some(Order(b[0].text, b[1].text, b[2].n, b[3].text)) else None
  }

  function PackAck(nspace: string, status: int): seq<Field> {
    [Str(nspace), Num(status)]
  }

  // ------------------------------------------------------------------ daemon side

  /** Where a job's tree landed on a node. */
  datatype Stash = Stash(nspace: string, dir: string)

  datatype Action = Pulled(url: string, dir: string) | Recorded(stash: Stash) | Acked(nspace: string, status: int)

  function StashDir(session: string, nspace: string): string {
    session + "/filem-rsync/" + nspace
  }

  function Url(addr: string, o: Order): string {
    "rsync://" + addr + ":" + DecNat(o.port) + "/" + o.modname + "/" + o.nspace + "/"
  }

  /** How many of the first `n` attempts come before the first that exits 0. */
  function FirstZero(exits: nat -> int, n: nat): (r: nat)
    ensures r <= n && (r < n ==> exits(r) == 0) && forall i :: 0 <= i < r ==> exits(i) != 0
  {
    if n == 0 then 0
    else
      var r := FirstZero(exits, n - 1);
      if r < n - 1 || exits(n - 1) == 0 then r else n
  }

  function Pulls(addrs: seq<string>, n: nat, o: Order, dir: string): seq<Action>
    requires n <= |addrs|
  {
    seq(n, i requires 0 <= i < n => Pulled(Url(addrs[i], o), dir))
  }

  /** How many addresses are tried: up to the first that works, all of them if none does. */
  function Tries(addrs: seq<string>, exits: nat -> int): (n: nat)
    ensures n <= |addrs| && forall i :: 0 <= i < n - 1 ==> exits(i) != 0
    ensures (exists i :: 0 <= i < |addrs| && exits(i) == 0) ==> n > 0 && exits(n - 1) == 0
    ensures (forall i :: 0 <= i < |addrs| ==> exits(i) != 0) ==> n == |addrs|
  {
    var k := FirstZero(exits, |addrs|);
    if k < |addrs| then k + 1 else k
  }

  lemma PullsNext(log: seq<Action>, addrs: seq<string>, i: nat, o: Order, dir: string)
    requires i < |addrs|
    ensures log + Pulls(addrs, i + 1, o, dir) == log + Pulls(addrs, i, o, dir) + [Pulled(Url(addrs[i], o), dir)]
  {
    hide Url;
    assert Pulls(addrs, i + 1, o, dir) == Pulls(addrs, i, o, dir) + [Pulled(Url(addrs[i], o), dir)];
  }

  lemma Regroup(log: seq<Action>, pulled: seq<Action>, a: Action, b: Action)
    ensures log + pulled + [a] + [b] == log + (pulled + [a, b])
  {
  }

  lemma RegroupOne(log: seq<Action>, pulled: seq<Action>, a: Action)
    ensures log + pulled + [a] == log + (pulled + [a])
  {
  }

  /** Everything a daemon does about one message: the stash it records, if any, and its actions in order.
      `made`: the stash directory could be created; `exits(i)`: how the i-th pull ends. */
  function Handled(session: string, b: seq<Field>, made: bool, exits: nat -> int): (Option<Stash>, seq<Action>) {
    if b == [] || !b[0].Str? then (None, [])
    else
      var nspace, order := b[0].text, UnpackOrder(b);
      var dir := StashDir(session, nspace);
      if order.None? || !made then (None, [Acked(nspace, ERROR)])
      else
        var addrs := ArgvSplit(order.value.addrs, ',');
        var pulled := Pulls(addrs, Tries(addrs, exits), order.value, dir);
        if FirstZero(exits, |addrs|) < |addrs| then
          (Some(Stash(nspace, dir)), pulled + [Recorded(Stash(nspace, dir)), Acked(nspace, SUCCESS)])
        else (None, pulled + [Acked(nspace, ERROR)])
  }

  /** Every message that names a job is answered once, as the last thing done, and nothing else is answered.
      The answer is success exactly when the message was whole, the directory there and some pull worked; then
      and only then the stash has been recorded before. The addresses are tried in order, up to and with the one
      that works. */
  lemma HandledOnce(session: string, b: seq<Field>, made: bool, exits: nat -> int)
    ensures var (stash, done) := Handled(session, b, made, exits);
            if b == [] || !b[0].Str? then stash == None && done == []
            else
              var nspace, n := b[0].text, |done| - 1;
              var addrs := if UnpackOrder(b).Some? && made then ArgvSplit(UnpackOrder(b).value.addrs, ',') else [];
              && n >= 0
              && (done[n] == Acked(nspace, SUCCESS) || done[n] == Acked(nspace, ERROR))
              && (forall i :: 0 <= i < n ==> !done[i].Acked?)
              && (done[n].status == SUCCESS <==> exists i :: 0 <= i < |addrs| && exits(i) == 0)
              && (done[n].status == SUCCESS <==> stash.Some?)
              && (stash.Some? ==> stash.value == Stash(nspace, session + "/filem-rsync/" + nspace))
              && (stash.Some? ==> n > 0 && done[n - 1] == Recorded(stash.value))
              && (forall s :: Recorded(s) in done ==> stash == Some(s))
              && (forall i :: 0 <= i <= n ==> (done[i].Pulled? <==> i < Tries(addrs, exits)))
              && (forall i :: 0 <= i < Tries(addrs, exits) ==>
                    done[i] == Pulled(Url(addrs[i], UnpackOrder(b).value), StashDir(session, nspace)))
  {
    hide UnpackOrder, ArgvSplit, Url;
  }

  /** A whole message, datum by datum: the job, the addresses between commas, the port and the module; the first pull is
      from the first address, of the job's directory in that module, into the job's own stash directory. */
  lemma FirstPull(session: string, nspace: string, addrs: seq<string>, port: nat, modname: string, exits: nat -> int)
    requires addrs != [] && (forall i :: 0 <= i < |addrs| ==> addrs[i] != "" && ',' !in addrs[i]) && port < 65536
    ensures var done := Handled(session, [Str(nspace), Str(Join(addrs, ",")), Num(port), Str(modname)], true, exits).1;
            && |done| > 0
            && done[0] == Pulled("rsync://" + addrs[0] + ":" + DecNat(port) + "/" + modname + "/" + nspace + "/",
                                 session + "/filem-rsync/" + nspace)
  {
    JoinedSplit(addrs, ',');
    hide ArgvSplit, Join, DecNat;
    var b := [Str(nspace), Str(Join(addrs, ",")), Num(port), Str(modname)];
    assert UnpackOrder(b) == Some(Order(nspace, Join(addrs, ","), port, modname));
    assert Tries(addrs, exits) > 0;
  }

  /** A message that is too short, or has a datum of the wrong kind or a port that does not fit into 16 bits, is
      answered with an error if it names a job, and nothing is pulled. */
  lemma NotWhole(session: string, b: seq<Field>, made: bool, exits: nat -> int)
    requires b != [] && b[0].Str?
    requires |b| < 4 || !b[1].Str? || !b[2].Num? || !(0 <= b[2].n < 65536) || !b[3].Str?
    ensures Handled(session, b, made, exits) == (None, [Acked(b[0].text, -1)])
  {
  }

  /** No stash directory is a staging directory, nor inside one, nor the other way round. */
  lemma StashesApart(session: string, nspace: string, staged: string)
    ensures var stash, stage := StashDir(session, nspace), session + "/filem-rsync-src/" + staged;
            stash == session + "/filem-rsync/" + nspace && !(stash <= stage) && !(stage <= stash)
  {
    var n := |session| + 12;
    assert StashDir(session, nspace)[n] == '/' && (session + "/filem-rsync-src/" + staged)[n] == '-';
  }

  /** The first stash recorded for the job. */
  function Stashed(stashes: seq<Stash>, nspace: string): Option<string> {
    if stashes == [] then None
    else if stashes[0].nspace == nspace then Some(stashes[0].dir)
    else Stashed(stashes[1..], nspace)
  }

  /** The stash at `i` is the first of that job. */
  predicate FirstStash(stashes: seq<Stash>, nspace: string, i: nat) {
    i < |stashes| && stashes[i].nspace == nspace && forall j :: 0 <= j < i ==> stashes[j].nspace != nspace
  }

  lemma {:induction false} StashedFirst(stashes: seq<Stash>, nspace: string)
    ensures forall i: nat :: FirstStash(stashes, nspace, i) ==> Stashed(stashes, nspace) == Some(stashes[i].dir)
    ensures (forall i :: 0 <= i < |stashes| ==> stashes[i].nspace != nspace) ==> Stashed(stashes, nspace) == None
  {
    if stashes != [] {
      StashedFirst(stashes[1..], nspace);
      forall i: nat | FirstStash(stashes, nspace, i)
        ensures Stashed(stashes, nspace) == Some(stashes[i].dir)
      {
        if i > 0 {
          assert stashes[0].nspace != nspace && FirstStash(stashes[1..], nspace, i - 1);
        }
      }
    }
  }

  /** What a job's app asks for. */
  datatype Wish = Wish(files: bool, binary: bool)

  /** The directory the app's processes are to run in, when it is not the one they would run in anyway. */
  function RunDir(stashes: seq<Stash>, nspace: string, wish: Wish, setWorkdir: bool): Option<string> {
    if wish.binary || (wish.files && setWorkdir) then Stashed(stashes, nspace) else None
  }

  class App {
    var cwd: string
    var pwd: string  // PWD in its environment

    constructor (cwd: string, pwd: string)
      ensures this.cwd == cwd && this.pwd == pwd
    {
      this.cwd, this.pwd := cwd, pwd;
    }
  }

  class Daemon {
    const session: string
    var stashes: seq<Stash>
    ghost var log: seq<Action>

    constructor (session: string)
      ensures this.session == session && stashes == [] && log == []
    {
      this.session, stashes, log := session, [], [];
    }

    method SendAck(nspace: string, status: int)
      modifies this`log
      ensures log == old(log) + [Acked(nspace, status)]
    {
      log := log + [Acked(nspace, status)];
    }

    method RunRsync(url: string, dir: string, exit: int) returns (rc: int)
      modifies this`log
      ensures log == old(log) + [Pulled(url, dir)] && rc == exit
    {
      log := log + [Pulled(url, dir)];
      rc := exit;
    }

    method RecvPreposition(b: seq<Field>, made: bool, exits: nat -> int)
      modifies this
      ensures log == old(log) + Handled(session, b, made, exits).1
      ensures stashes == old(stashes) + match Handled(session, b, made, exits).0 case Some(s) => [s] case None => []
    {
      if b == [] || !b[0].Str? {
        return;
      }
      var nspace, result := b[0].text, ERROR;
      var order := UnpackOrder(b);
      if order.None? || !made {
        SendAck(nspace, result);
        return;
      }
      var dir := StashDir(session, nspace);
      hide UnpackOrder, ArgvSplit, StashDir, Pulls, FirstZero;
      var addrs := ArgvSplit(order.value.addrs, ',');
      result := PullFromFirst(addrs, order.value, dir, exits);
      ghost var pulled := Pulls(addrs, Tries(addrs, exits), order.value, dir);
      if result == SUCCESS {
        stashes := stashes + [Stash(nspace, dir)];
        log := log + [Recorded(Stash(nspace, dir))];
        Regroup(old(log), pulled, Recorded(Stash(nspace, dir)), Acked(nspace, SUCCESS));
      } else {
        RegroupOne(old(log), pulled, Acked(nspace, ERROR));
      }
      SendAck(nspace, result);
    }

    /** Tries the addresses in turn until one pull succeeds. */
    method PullFromFirst(addrs: seq<string>, o: Order, dir: string, exits: nat -> int) returns (result: int)
      modifies this`log
      ensures log == old(log) + Pulls(addrs, Tries(addrs, exits), o, dir)
      ensures result == if FirstZero(exits, |addrs|) < |addrs| then SUCCESS else ERROR
    {
      result := ERROR;
      hide Url;
      var i := 0;
      while i < |addrs|
        invariant i <= |addrs| && FirstZero(exits, |addrs|) >= i
        invariant log == old(log) + Pulls(addrs, i, o, dir)
      {
        var rc := RunRsync(Url(addrs[i], o), dir, exits(i));
        PullsNext(old(log), addrs, i, o, dir);
        i := i + 1;
        if rc == 0 {
          return SUCCESS;
        }
      }
    }

    method FindStash(nspace: string) returns (dir: Option<string>)
      ensures dir == Stashed(stashes, nspace)
    {
      var i := 0;
      assert stashes[0..] == stashes;
      while i < |stashes|
        invariant i <= |stashes| && Stashed(stashes, nspace) == Stashed(stashes[i..], nspace)
      {
        if stashes[i].nspace == nspace {
          return Some(stashes[i].dir);
        }
        i := i + 1;
      }
      return None;
    }

    /** `enters(dir)`: chdir succeeds. */
    method LinkLocalFiles(nspace: string, app: App, wish: Wish, setWorkdir: bool, enters: string -> bool)
      returns (rc: Rc)
      modifies app
      ensures var dir := RunDir(stashes, nspace, wish, setWorkdir);
              if dir.Some? && enters(dir.value) then rc == Success && app.cwd == app.pwd == dir.value
              else rc == (if dir.Some? then FileOpenFailure else Success) && unchanged(app)
      ensures !wish.binary && !(wish.files && setWorkdir) ==> rc == Success && unchanged(app)
      ensures (forall i :: 0 <= i < |stashes| ==> stashes[i].nspace != nspace) ==> rc == Success && unchanged(app)
      ensures forall i: nat :: FirstStash(stashes, nspace, i) && (wish.binary || (wish.files && setWorkdir)) ==>
        if enters(stashes[i].dir) then rc == Success && app.cwd == app.pwd == stashes[i].dir
        else rc == FileOpenFailure && unchanged(app)
    {
      StashedFirst(stashes, nspace);
      hide FirstStash;
      if !wish.files && !wish.binary {
        return Success;
      }
      var stash := FindStash(nspace);
      if stash.None? {
        return Success;
      }
      if !wish.binary && !setWorkdir {
        return Success;
      }
      rc := SetWorkingDir(app, stash.value, enters);
    }

    method SetWorkingDir(app: App, dir: string, enters: string -> bool) returns (rc: Rc)
      modifies app
      ensures if enters(dir) then rc == Success && app.cwd == app.pwd == dir
              else rc == FileOpenFailure && unchanged(app)
    {
      if !enters(dir) {
        return FileOpenFailure;
      }
      app.cwd := dir;
      app.pwd := dir;
      rc := Success;
    }
  }
}
