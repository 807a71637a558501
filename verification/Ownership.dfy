/** Who owns what while manifests are being applied: the caddies handed to the wait callback, the jobs they
    retain, and the manifest files (plm_k8s_module.c:103-129, 417-469, 630-747). */
module Ownership {
  import opened Strings

  /** What a launch hands over: its manifest on disk, and the job it retains, once it has one. */
  datatype Caddy = Caddy(path: Option<string>, job: Option<string>)

  function Retained(retains: map<string, int>, job: string): int {
    if job in retains then retains[job] else 0
  }

  /** The caddies that hold a reference on the job. */
  function Holders(live: map<nat, Caddy>, job: string): set<nat> {
    set i | i in live && live[i].job == Some(job)
  }

  /** Every job is retained exactly by its live caddies. */
  ghost predicate Balanced(retains: map<string, int>, live: map<nat, Caddy>) {
    forall job :: Retained(retains, job) == |Holders(live, job)|
  }

  lemma HoldersAdd(live: map<nat, Caddy>, i: nat, c: Caddy, job: string)
    requires i !in live
    ensures |Holders(live[i := c], job)| == |Holders(live, job)| + if c.job == Some(job) then 1 else 0
  {
    if c.job == Some(job) {
      assert Holders(live[i := c], job) == Holders(live, job) + {i};
    } else {
      assert Holders(live[i := c], job) == Holders(live, job);
    }
  }

  lemma HoldersDrop(live: map<nat, Caddy>, i: nat, job: string)
    requires i in live
    ensures |Holders(live - {i}, job)| == |Holders(live, job)| - if live[i].job == Some(job) then 1 else 0
  {
    if live[i].job == Some(job) {
      assert Holders(live - {i}, job) == Holders(live, job) - {i};
    } else {
      assert Holders(live - {i}, job) == Holders(live, job);
    }
  }

  lemma BalancedAdd(retains: map<string, int>, live: map<nat, Caddy>, i: nat, path: Option<string>, owner: string)
    requires Balanced(retains, live) && i !in live
    ensures Balanced(retains[owner := Retained(retains, owner) + 1], live[i := Caddy(path, Some(owner))])
  {
    hide Holders;
    var now := live[i := Caddy(path, Some(owner))];
    forall job: string
      ensures Retained(retains[owner := Retained(retains, owner) + 1], job) == |Holders(now, job)|
    {
      HoldersAdd(live, i, Caddy(path, Some(owner)), job);
    }
  }

  lemma BalancedDrop(retains: map<string, int>, live: map<nat, Caddy>, i: nat, owner: string)
    requires Balanced(retains, live) && i in live && live[i].job == Some(owner)
    ensures Balanced(retains[owner := Retained(retains, owner) - 1], live - {i})
  {
    hide Holders;
    forall job: string
      ensures Retained(retains[owner := Retained(retains, owner) - 1], job) == |Holders(live - {i}, job)|
    {
      HoldersDrop(live, i, job);
    }
  }

  /** Every caddy made so far has been released exactly once, unless it is still live. */
  ghost predicate Released(next: nat, live: map<nat, Caddy>, releases: map<nat, nat>) {
    && (forall i :: i in live ==> i < next)
    && (forall i: nat :: i in releases <==> i < next)
    && (forall i :: i in releases ==> releases[i] == if i in live then 0 else 1)
  }

  /** A live caddy has a job and a manifest of its own, which is on disk. */
  ghost predicate OnDisk(live: map<nat, Caddy>, files: set<string>) {
    && (forall i :: i in live ==> live[i].path.Some? && live[i].job.Some? && live[i].path.value in files)
    && (forall i, j :: i in live && j in live && live[i].path == live[j].path ==> i == j)
  }

  lemma ReleasedSteps(next: nat, live: map<nat, Caddy>, releases: map<nat, nat>, c: Caddy)
    requires Released(next, live, releases)
    ensures Released(next + 1, live[next := c], releases[next := 0])
    ensures Released(next + 1, live, releases[next := 1])
    ensures forall i :: i in live ==> i in releases && Released(next, live - {i}, releases[i := releases[i] + 1])
  {
  }

  lemma NotLive(next: nat, live: map<nat, Caddy>, releases: map<nat, nat>)
    requires Released(next, live, releases)
    ensures next !in live
  {
  }

  /** Making a caddy and dropping it again changes nothing but its release count. */
  lemma Undone(live: map<nat, Caddy>, i: nat, c: Caddy, releases: map<nat, nat>)
    requires i !in live
    ensures live[i := c] - {i} == live && releases[i := 0][i := 1] == releases[i := 1]
  {
  }

  lemma FileUndone(files: set<string>, path: string)
    requires path !in files
    ensures files + {path} - {path} == files
  {
  }

  lemma OnDiskAdd(live: map<nat, Caddy>, files: set<string>, i: nat, path: string, job: string)
    requires OnDisk(live, files) && path !in files
    ensures OnDisk(live[i := Caddy(Some(path), Some(job))], files + {path})
  {
  }

  lemma OnDiskDrop(live: map<nat, Caddy>, files: set<string>, i: nat)
    requires OnDisk(live, files) && i in live
    ensures OnDisk(live - {i}, files) && OnDisk(live - {i}, files - {live[i].path.value})
  {
  }

  class Launches {
    var next: nat                     // caddies made so far
    var live: map<nat, Caddy>         // those not released yet
    var releases: map<nat, nat>       // how often each has been released
    var retains: map<string, int>     // references held on each job
    var files: set<string>
    var failed: set<nat>              // launches that failed their job

    ghost predicate Valid()
      reads this
    {
      && Released(next, live, releases) && OnDisk(live, files) && Balanced(retains, live)
      && forall i :: i in failed ==> i < next
    }

    constructor ()
      ensures Valid() && live == map[] && next == 0 && files == {}
    {
      next, live, releases, retains, files, failed := 0, map[], map[], map[], {}, {};
      new;
      assert forall job :: Holders(live, job) == {};
    }

    /** PMIX_RELEASE of a caddy nobody else holds: its destructor lets go of the job. */
    method Release(i: nat)
      requires i in live && i in releases
      modifies this`live, this`releases, this`retains
      ensures live == old(live) - {i} && releases == old(releases)[i := old(releases)[i] + 1]
      ensures retains == match old(live)[i].job
                         case None => old(retains)
                         case Some(job) => old(retains)[job := Retained(old(retains), job) - 1]
    {
      var job := live[i].job;
      if job.Some? {
        retains := retains[job.value := Retained(retains, job.value) - 1];
      }
      releases := releases[i := releases[i] + 1];
      live := live - {i};
    }

    /** What launch_daemons does with its caddy when it fails. */
    method Cleanup(i: nat)
      requires i in live && i in releases
      modifies this`live, this`releases, this`retains, this`files, this`failed
      ensures live == old(live) - {i} && releases == old(releases)[i := old(releases)[i] + 1]
      ensures retains == match old(live)[i].job
                         case None => old(retains)
                         case Some(job) => old(retains)[job := Retained(old(retains), job) - 1]
      ensures files == if old(live)[i].path.Some? then old(files) - {old(live)[i].path.value} else old(files)
      ensures failed == old(failed) + {i}
    {
      if live[i].path.Some? {
        files := files - {live[i].path.value};
      }
      Release(i);
      failed := failed + {i};
    }

    /** A new caddy, filled in once the manifest has been written. */
    method Prepare(job: string, path: Option<string>) returns (i: nat)
      modifies this`next, this`live, this`releases, this`retains, this`files
      ensures i == old(next) && next == i + 1 && releases == old(releases)[i := 0]
      ensures live == old(live)[i := if path.Some? then Caddy(path, Some(job)) else Caddy(None, None)]
      ensures files == if path.Some? then old(files) + {path.value} else old(files)
      ensures retains == if path.Some? then old(retains)[job := Retained(old(retains), job) + 1] else old(retains)
    {
      i, next := next, next + 1;
      live, releases := live[i := Caddy(None, None)], releases[i := 0];
      if path.Some? {
        files := files + {path.value};
        live := live[i := Caddy(path, Some(job))];
        retains := retains[job := Retained(retains, job) + 1];
      }
    }

    /** The end of launch_daemons: the manifest gets written or not, and then kubectl forked or not. */
    method Launch(job: string, path: Option<string>, forks: bool) returns (i: nat)
      requires Valid() && (path.Some? ==> path.value !in files)
      modifies this
      ensures Valid() && i == old(next) && next == i + 1
      ensures live == if path.Some? && forks then old(live)[i := Caddy(path, Some(job))] else old(live)
      ensures files == if path.Some? && forks then old(files) + {path.value} else old(files)
      ensures failed == if path.Some? && forks then old(failed) else old(failed) + {i}
    {
      NotLive(next, live, releases);
      ReleasedSteps(next, live, releases, Caddy(path, Some(job)));
      hide Balanced, Retained, Released, OnDisk;
      i := Prepare(job, path);
      if path.Some? {
        BalancedAdd(old(retains), old(live), i, path, job);
        OnDiskAdd(old(live), old(files), i, path.value, job);
        FileUndone(old(files), path.value);
      }
      if path.None? || !forks {
        Undone(old(live), i, live[i], old(releases));
        if path.Some? {
          BalancedDrop(retains, live, i, job);
        }
        Cleanup(i);
      }
    }

    /** The callback on kubectl's exit: `status` is its exit status, None if it died otherwise. */
    method WaitApply(i: nat, status: Option<int>, teardown: bool)
      requires Valid() && i in live
      modifies this
      ensures Valid() && next == old(next) && live == old(live) - {i}
      ensures var removed := !teardown && status == Some(0);
              && files == old(files) - (if removed then {old(live)[i].path.value} else {})
              && failed == old(failed) + if teardown || removed then {} else {i}
    {
      ReleasedSteps(next, live, releases, live[i]);
      assert live[i].path.Some? && live[i].job.Some? && i < next;
      hide Balanced, Retained, Released, OnDisk;
      OnDiskDrop(live, files, i);
      BalancedDrop(retains, live, i, live[i].job.value);
      if !teardown {
        if status == Some(0) {
          files := files - {live[i].path.value};
        } else {
          failed := failed + {i};
        }
      }
      Release(i);
    }
  }

  /** One launch from end to end, whatever else is in flight: its caddy is released once, every job is retained
      as before, and the manifest is left exactly when kubectl fails or the teardown gets in between. */
  method OneLaunch(all: Launches, job: string, path: Option<string>, forks: bool, status: Option<int>, teardown: bool)
    requires all.Valid() && (path.Some? ==> path.value !in all.files)
    modifies all
    ensures all.Valid() && all.live == old(all.live)
    ensures old(all.next) in all.releases && all.releases[old(all.next)] == 1
    ensures forall other :: Retained(all.retains, other) == Retained(old(all.retains), other)
    ensures all.files == old(all.files) +
      if path.Some? && forks && (teardown || status != Some(0)) then {path.value} else {}
    ensures old(all.next) in all.failed <==> path.None? || !forks || (!teardown && status != Some(0))
  {
    hide Retained, Holders, OnDisk;
    var i := all.Launch(job, path, forks);
    if path.Some? && forks {
      all.WaitApply(i, status, teardown);
      assert all.live == old(all.live);
    }
  }
}
