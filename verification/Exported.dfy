/** What a pull reaches: the URLs the daemons build, and the one rsync daemon that exports every job's tree
    (filem_rsync/filem_rsync_module.c:93-97, 471-559, 699-703, 912-952). */
module Exported {
  import opened Strings
  import opened Preposition
  import opened Hnp

  /** What an rsync URL with a trailing slash names: the contents of a directory in a module. */
  datatype Place = Place(host: string, port: nat, modname: string, path: string)

  predicate Digits(s: string) {
    s != "" && forall i :: 0 <= i < |s| ==> IsDigit(s[i])
  }

  /** rsync://host:port/module/path/ */
  function Named(url: string): Option<Place> {
    if !("rsync://" <= url) then None
    else
      var rest := url[8..];
      var colon := Find(rest, 0, ":");
      if colon.None? then None else NamedPort(rest[..colon.value], rest[colon.value + 1..])
  }

  function NamedPort(host: string, tail: string): Option<Place> {
    var slash := Find(tail, 0, "/");
    if slash.None? || !Digits(tail[..slash.value]) then None
    else NamedPath(host, ReadNat(tail[..slash.value]), tail[slash.value + 1..])
  }

  function NamedPath(host: string, port: nat, inner: string): Option<Place> {
    var slash := Find(inner, 0, "/");
    if slash.None? then None
    else
      var path := inner[slash.value + 1..];
      if path == "" || path[|path| - 1] != '/' then None
      else Some(Place(host, port, inner[..slash.value], path[..|path| - 1]))
  }

  lemma UrlText(addr: string, o: Order)
    ensures Url(addr, o)
         == "rsync://" + (addr + ":" + (DecNat(o.port) + "/" + (o.modname + "/" + (o.nspace + "/"))))
  {
    hide DecNat;
    SixParts(addr, DecNat(o.port), o.modname, o.nspace);
  }

  lemma SixParts(a: string, p: string, m: string, n: string)
    ensures "rsync://" + a + ":" + p + "/" + m + "/" + n + "/"
         == "rsync://" + (a + ":" + (p + "/" + (m + "/" + (n + "/"))))
  {
  }

  lemma AfterSep(field: string, sep: string, tail: string)
    requires |sep| == 1 && sep[0] !in field
    ensures Find(field + sep + tail, 0, sep) == Some(|field|)
    ensures (field + sep + tail)[..|field|] == field && (field + sep + tail)[|field| + 1..] == tail
  {
    FirstOf(field, sep, tail);
  }

  lemma PathNamed(host: string, port: nat, modname: string, nspace: string)
    requires '/' !in modname
    ensures NamedPath(host, port, modname + "/" + (nspace + "/")) == Some(Place(host, port, modname, nspace))
  {
    hide Find;
    AfterSep(modname, "/", nspace + "/");
    assert (nspace + "/")[..|nspace|] == nspace;
  }

  lemma PortNamed(host: string, port: nat, inner: string)
    ensures NamedPort(host, DecNat(port) + "/" + inner) == NamedPath(host, port, inner)
  {
    ReadDec(port);
    assert '/' !in DecNat(port);
    hide Find, DecNat, ReadNat, NamedPath;
    AfterSep(DecNat(port), "/", inner);
  }

  lemma HostNamed(addr: string, tail: string)
    requires ':' !in addr
    ensures Named("rsync://" + (addr + ":" + tail)) == NamedPort(addr, tail)
  {
    hide Find, NamedPort;
    AfterSep(addr, ":", tail);
    var rest := addr + ":" + tail;
    AfterRsync(rest);
  }

  lemma AfterRsync(rest: string)
    ensures "rsync://" <= "rsync://" + rest && ("rsync://" + rest)[8..] == rest
  {
  }

  /** The URL a daemon pulls from names the job's directory, in the announced module, at the announced port of
      the address tried. */
  lemma UrlNames(addr: string, o: Order)
    requires ':' !in addr && '/' !in o.modname
    ensures Named(Url(addr, o)) == Some(Place(addr, o.port, o.modname, o.nspace))
  {
    hide Named, NamedPort, NamedPath, DecNat, Url;
    var inner := o.modname + "/" + (o.nspace + "/");
    UrlText(addr, o);
    HostNamed(addr, DecNat(o.port) + "/" + inner);
    PortNamed(addr, o.port, inner);
    PathNamed(addr, o.port, o.modname, o.nspace);
  }

  // ------------------------------------------------------------ the exporting daemon

  /** The launcher's rsync daemon: its port, the addresses of its machine, and the exported subdirectories. */
  datatype Server = Server(port: nat, hosts: seq<string>, trees: map<string, Tree>)

  /** The tree that a URL names, seen from a daemon that is on the launcher's machine (`home`) or elsewhere. */
  function Served(server: Server, home: bool, url: string): Option<Tree> {
    match Named(url)
    case None => None
    case Some(Place(host, port, modname, path)) =>
      if port == server.port && modname == MODULE && path in server.trees
         && (host in server.hosts || (home && host == LOOPBACK))
      then Some(server.trees[path]) else None
  }

  /** Every path of the tree is there with its content. */
  ghost predicate Arrived(tree: Tree, left: Tree) {
    forall p :: p in tree ==> p in left && left[p] == tree[p]
  }

  /** The last pull among some actions. */
  function LastPull(done: seq<Action>): (r: Option<nat>)
    ensures r.Some? ==> r.value < |done| && done[r.value].Pulled?
  {
    if done == [] then None
    else
      var n := |done| - 1;
      if done[n].Pulled? then Some(n) else LastPull(done[..n])
  }

  function PullCount(done: seq<Action>): nat {
    if done == [] then 0
    else
      var n := |done| - 1;
      PullCount(done[..n]) + if done[n].Pulled? then 1 else 0
  }

  lemma {:induction false} PullsFirst(done: seq<Action>, t: nat)
    requires t <= |done| && forall i :: 0 <= i < |done| ==> (done[i].Pulled? <==> i < t)
    ensures PullCount(done) == t && LastPull(done) == if t == 0 then None else Some(t - 1)
  {
    if done != [] {
      var n := |done| - 1;
      PullsFirst(done[..n], if t > n then n else t);
    }
  }

  /** What exit 0 means: if the last pull of a message exits 0, the tree that its URL names is in the directory
      it was pulled into, which then holds `left`. */
  ghost predicate PullArrives(server: Server, home: bool, done: seq<Action>, exits: nat -> int, left: Tree) {
    var last, n := LastPull(done), PullCount(done);
    n > 0 && last.Some? && exits(n - 1) == 0 && Served(server, home, done[last.value].url).Some? ==>
      Arrived(Served(server, home, done[last.value].url).value, left)
  }

  predicate NamesLoopback(url: string) {
    Named(url).Some? && Named(url).value.host == LOOPBACK
  }

  /** On other machines than the launcher's nothing answers on the loopback address. */
  ghost predicate SilentElsewhere(home: bool, done: seq<Action>, exits: nat -> int) {
    forall i: nat :: i < |done| && done[i].Pulled? && NamesLoopback(done[i].url) && !home ==> exits(i) != 0
  }

  /** What a daemon's stash directories hold after its actions. */
  function DiskAfter(disk: map<string, Tree>, done: seq<Action>, left: Tree): map<string, Tree> {
    var last := LastPull(done);
    if last.Some? then disk[done[last.value].dir := left] else disk
  }

  lemma {:induction false} HostsPlain(uri: Option<string>)
    ensures forall h :: h in HostsOf(uri) ==> ':' !in h
  {
    var tcp := if uri.Some? then Find(uri.value, 0, "tcp://") else None;
    if tcp.Some? {
      var rest := uri.value[tcp.value + 6..];
      var end := Find(rest, 0, ":");
      if end.Some? {
        NotBefore(rest, end.value);
        FieldsWithin(rest[..end.value], ',', ':');
        FilledParts(Split(rest[..end.value], ','));
      }
    }
  }

  lemma NotBefore(s: string, n: nat)
    requires n <= |s| && forall i :: 0 <= i < n ==> !At(s, i, ":")
    ensures ':' !in s[..n]
  {
    forall i | 0 <= i < n
      ensures s[i] != ':'
    {
      assert !At(s, i, ":");
      assert s[i..i + 1] == [s[i]];
    }
  }

  lemma {:induction false} FieldsWithin(s: string, c: char, absent: char)
    requires absent !in s
    ensures forall f :: f in Split(s, c) ==> absent !in f
  {
    if s != "" {
      FieldsWithin(s[1..], c, absent);
    }
  }

  /** The pull that decided for success. */
  lemma SuccessfulPull(session: string, o: Order, made: bool, exits: nat -> int) returns (k: nat)
    requires UnpackOrder(PackOrder(o)) == Some(o) && Handled(session, PackOrder(o), made, exits).0.Some?
    ensures var done, addrs := Handled(session, PackOrder(o), made, exits).1, ArgvSplit(o.addrs, ',');
            && k < |addrs| && exits(k) == 0 && PullCount(done) == k + 1 && LastPull(done) == Some(k)
            && done[k] == Preposition.Action.Pulled(Url(addrs[k], o), StashDir(session, o.nspace))
  {
    var b := PackOrder(o);
    var (stash, done) := Handled(session, b, made, exits);
    HandledOnce(session, b, made, exits);
    hide Handled, ArgvSplit, Url, StashDir, LastPull, PullCount;
    var addrs := if UnpackOrder(b).Some? && made then ArgvSplit(o.addrs, ',') else [];
    assert done[|done| - 1].status == SUCCESS;
    var i :| 0 <= i < |addrs| && exits(i) == 0;
    PullsFirst(done, Tries(addrs, exits));
    k := Tries(addrs, exits) - 1;
  }

  /** At every address of the launcher's machine that URL reaches the job's exported tree. */
  lemma ReachesTree(uri: Option<string>, server: Server, home: bool, addr: string, nspace: string)
    requires server.hosts == HostsOf(uri) && nspace in server.trees && 0 < server.port < 0x1_0000
    requires addr in Addresses(uri)
    ensures var url := Url(addr, OrderFor(uri, server.port, nspace));
            && (NamesLoopback(url) <==> addr == LOOPBACK)
            && (home || addr != LOOPBACK ==> Served(server, home, url) == Some(server.trees[nspace]))
  {
    AddressPlain(uri, addr);
    ModulePlain();
    OrderFields(uri, server.port, nspace);
    hide HostsOf, Url, Named, Join, DecNat, Addresses, OrderFor;
    UrlNames(addr, OrderFor(uri, server.port, nspace));
    AddressHost(uri, addr);
    hide Served, NamesLoopback;
    ServedAt(server, home, Url(addr, OrderFor(uri, server.port, nspace)), addr, nspace);
  }

  lemma OrderFields(uri: Option<string>, port: nat, nspace: string)
    requires port < 0x1_0000
    ensures var o := OrderFor(uri, port, nspace); o.port == port && o.nspace == nspace && o.modname == MODULE
  {
    hide Addresses, Join;
  }

  lemma ServedAt(server: Server, home: bool, url: string, host: string, nspace: string)
    requires Named(url) == Some(Place(host, server.port, MODULE, nspace))
    ensures NamesLoopback(url) <==> host == LOOPBACK
    ensures nspace in server.trees && (host in server.hosts || (home && host == LOOPBACK))
        ==> Served(server, home, url) == Some(server.trees[nspace])
  {
    hide Named;
  }

  /** Exported at more than 65535, the tree is at none of the addresses. */
  lemma MissesTree(uri: Option<string>, server: Server, home: bool, addr: string, nspace: string)
    requires addr in Addresses(uri) && server.port >= 0x1_0000
    ensures Served(server, home, Url(addr, OrderFor(uri, server.port, nspace))) == None
  {
    AddressPlain(uri, addr);
    ModulePlain();
    AnnouncedPort(uri, server.port, nspace);
    AnnouncedModule(uri, server.port, nspace);
    hide HostsOf, Url, Named, Join, DecNat, Addresses, OrderFor;
    UrlNames(addr, OrderFor(uri, server.port, nspace));
  }

  lemma AnnouncedModule(uri: Option<string>, port: int, nspace: string)
    ensures OrderFor(uri, port, nspace).modname == MODULE
  {
    hide Addresses, Join;
  }

  lemma AddressPlain(uri: Option<string>, addr: string)
    requires addr in Addresses(uri)
    ensures ':' !in addr
  {
    HostsPlain(uri);
    assert ':' !in LOOPBACK;
    hide HostsOf;
  }

  lemma AddressHost(uri: Option<string>, addr: string)
    requires addr in Addresses(uri)
    ensures addr in HostsOf(uri) || addr == LOOPBACK
  {
    hide HostsOf;
  }

  lemma ModulePlain()
    ensures '/' !in MODULE
  {
  }

  /** A daemon that records a stash has pulled from the launcher's rsync daemon the very directory that was
      staged for the job - if the port is a port. */
  lemma HandledPull(session: string, uri: Option<string>, server: Server, home: bool, nspace: string, made: bool,
                    exits: nat -> int, left: Tree)
    requires server.hosts == HostsOf(uri) && nspace in server.trees && 0 < server.port < 0x1_0000
    requires var (stash, done) := Handled(session, PackOrder(OrderFor(uri, server.port, nspace)), made, exits);
             stash.Some? && PullArrives(server, home, done, exits, left) && SilentElsewhere(home, done, exits)
    ensures Arrived(server.trees[nspace], left)
  {
    var o := OrderFor(uri, server.port, nspace);
    AnnouncedPort(uri, server.port, nspace);
    AddressesRoundTrip(uri);
    hide Handled, HostsOf, ArgvSplit, Url, Named, Join, LastPull, PullCount, NamesLoopback, Served, StashDir, Addresses;
    var k := SuccessfulPull(session, o, made, exits);
    var addr := Addresses(uri)[k];
    ReachesTree(uri, server, home, addr, nspace);
    var done := Handled(session, PackOrder(o), made, exits).1;
    assert done[k].Pulled? && done[k].url == Url(addr, o);
  }

  /** Pulls go into the job's stash directory and nowhere else. */
  lemma HandledDir(session: string, o: Order, made: bool, exits: nat -> int, disk: map<string, Tree>, left: Tree)
    ensures var (stash, done) := Handled(session, PackOrder(o), made, exits);
            var after, dir := DiskAfter(disk, done, left), StashDir(session, o.nspace);
            && (after == disk || after == disk[dir := left])
            && (stash.Some? ==> stash.value == Stash(o.nspace, dir) && after == disk[dir := left])
  {
    var b := PackOrder(o);
    var (stash, done) := Handled(session, b, made, exits);
    HandledOnce(session, b, made, exits);
    var addrs := if UnpackOrder(b).Some? && made then ArgvSplit(UnpackOrder(b).value.addrs, ',') else [];
    hide Handled, ArgvSplit, Url, StashDir, LastPull;
    var t := Tries(addrs, exits);
    PullsFirst(done, t);
  }
}
