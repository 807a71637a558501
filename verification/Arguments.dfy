/** The environment assignments of a command line, word by word (plm_k8s_template.c:267-378). */
module Arguments {
  import opened Strings
  import opened EnvBlock
  import opened Envars

  /** The array that ArgvToEnvars leaves. */
  function Assignments(argv: seq<string>, f: Filter): seq<string> {
    AppendAll(Kept(Scan(argv, 0), f))
  }

  predicate IsFlag(word: string) {
    word == "--prtemca" || word == "--pmixmca"
  }

  /** Complete triples and other words: a scan ends exactly behind them. */
  predicate Complete(argv: seq<string>) {
    argv == []
    || (!IsFlag(argv[0]) && Complete(argv[1..]))
    || (IsFlag(argv[0]) && |argv| >= 3 && Complete(argv[3..]))
  }

  lemma {:induction false} ScanShift(argv: seq<string>, i: nat, j: nat)
    requires i + j <= |argv|
    ensures Scan(argv[i..], j) == Scan(argv, i + j)
    decreases |argv| - i - j
  {
    if i + j < |argv| {
      if TripleAt(argv, i + j) {
        ScanShift(argv, i, j + 3);
      } else {
        ScanShift(argv, i, j + 1);
      }
    }
  }

  lemma {:induction false} ScanConcat(a: seq<string>, b: seq<string>)
    requires Complete(a)
    ensures Scan(a + b, 0) == Scan(a, 0) + Scan(b, 0)
  {
    if a == [] {
      assert a + b == b;
    } else {
      var n := if IsFlag(a[0]) then 3 else 1;
      assert (a + b)[n..] == a[n..] + b;
      ScanShift(a + b, n, 0);
      ScanShift(a, n, 0);
      ScanConcat(a[n..], b);
      assert TripleAt(a + b, 0) <==> TripleAt(a, 0);
    }
  }

  lemma CompleteKept(argv: seq<string>, more: seq<string>, f: Filter)
    requires Complete(argv)
    ensures Kept(Scan(argv + more, 0), f) == Kept(Scan(argv, 0), f) + Kept(Scan(more, 0), f)
  {
    ScanConcat(argv, more);
    KeptConcat(Scan(argv, 0), Scan(more, 0), f);
  }

  /** No words, no assignments. */
  lemma NoWords(f: Filter)
    ensures Assignments([], f) == []
  {
  }

  /** A word that is neither flag is dropped. */
  lemma NextWord(argv: seq<string>, word: string, f: Filter)
    requires Complete(argv) && word != "--prtemca" && word != "--pmixmca"
    ensures Complete(argv + [word]) && Assignments(argv + [word], f) == Assignments(argv, f)
  {
    CompleteKept(argv, [word], f);
    assert Scan([word], 0) == [];
    CompleteConcat(argv, [word]);
    assert Kept(Scan(argv, 0), f) + [] == Kept(Scan(argv, 0), f);
  }

  lemma {:induction false} CompleteConcat(a: seq<string>, b: seq<string>)
    requires Complete(a) && Complete(b)
    ensures Complete(a + b)
  {
    if a == [] {
      assert a + b == b;
    } else {
      var n := if IsFlag(a[0]) then 3 else 1;
      assert (a + b)[n..] == a[n..] + b;
      CompleteConcat(a[n..], b);
    }
  }

  /** An incomplete triple at the end is dropped. */
  lemma CutTriple(argv: seq<string>, flag: string, name: string, f: Filter)
    requires Complete(argv)
    ensures Assignments(argv + [flag], f) == Assignments(argv, f)
    ensures Assignments(argv + [flag, name], f) == Assignments(argv, f)
  {
    CompleteKept(argv, [flag], f);
    CompleteKept(argv, [flag, name], f);
    TooFew([flag], 0);
    TooFew([flag, name], 0);
    hide Scan;
    assert Kept(Scan(argv, 0), f) + [] == Kept(Scan(argv, 0), f);
  }

  lemma {:induction false} TooFew(argv: seq<string>, i: nat)
    requires |argv| <= 2
    ensures Scan(argv, i) == []
    decreases |argv| - i
  {
    if i < |argv| {
      TooFew(argv, i + 1);
    }
  }

  /** Whether a parameter may reach a daemon: it is not the launcher's own, not the skipped one and, unless the
      environment is passed on, not set to that value under that key in the launcher's environment. */
  predicate Reaches(key: string, name: string, value: string, f: Filter) {
    && name != "plm" && !("plm_k8s_" <= name)
    && f.skip != Some(name)
    && (f.passEnviron || !(key in f.environ && f.environ[key] == value))
  }

  /** Some entry of the array sets that key. */
  predicate Sets(entries: seq<string>, key: string) {
    exists e :: e in entries && key + "=" <= e
  }

  lemma NextTriple(argv: seq<string>, flag: string, name: string, value: string, key: string, kind: Kind, f: Filter)
    requires Complete(argv) && IsFlag(flag)
    requires kind == if flag == "--prtemca" then Prte else Pmix
    requires key == Prefix(kind) + name
    ensures Complete(argv + [flag, name, value])
    ensures Assignments(argv + [flag, name, value], f)
         == if Reaches(key, name, value, f) && !Sets(Assignments(argv, f), key)
            then Assignments(argv, f) + [key + "=" + value] else Assignments(argv, f)
  {
    var triple, s := [flag, name, value], Setting(kind, name, value);
    CompleteKept(argv, triple, f);
    CompleteConcat(argv, triple) by {
      assert triple[3..] == [];
    }
    OneTriple(flag, name, value, kind);
    OneKept(s, f);
    hide Scan, Kept, IsFlag, Complete, Prefix;
    var before := Kept(Scan(argv, 0), f);
    assert Forwarded(s, f) <==> Reaches(key, name, value, f);
    SetsKey(Assignments(argv, f), key);
    if Forwarded(s, f) {
      AppendStep(before, s);
    } else {
      assert before + [] == before;
    }
  }

  lemma OneTriple(flag: string, name: string, value: string, kind: Kind)
    requires IsFlag(flag) && kind == if flag == "--prtemca" then Prte else Pmix
    ensures Scan([flag, name, value], 0) == [Setting(kind, name, value)]
  {
    assert Scan([flag, name, value], 3) == [];
  }

  lemma OneKept(s: Setting, f: Filter)
    ensures Kept([s], f) == if Forwarded(s, f) then [s] else []
  {
    hide Forwarded;
    assert [s][1..] == [];
  }

  lemma SetsKey(entries: seq<string>, key: string)
    ensures Sets(entries, key) <==> HasKey(entries, key)
  {
    if HasKey(entries, key) {
      var i :| 0 <= i < |entries| && key + "=" <= entries[i];
      assert entries[i] in entries;
    }
  }

  /** `--prtemca name value` appends PRTE_MCA_name=value if the parameter may reach a daemon and is not set yet, and
      changes nothing otherwise. */
  lemma NextPrte(argv: seq<string>, name: string, value: string, f: Filter)
    requires Complete(argv)
    ensures var key := "PRTE_MCA_" + name;
            && Complete(argv + ["--prtemca", name, value])
            && Assignments(argv + ["--prtemca", name, value], f)
               == if Reaches(key, name, value, f) && !Sets(Assignments(argv, f), key)
                  then Assignments(argv, f) + ["PRTE_MCA_" + name + "=" + value] else Assignments(argv, f)
  {
    NextTriple(argv, "--prtemca", name, value, "PRTE_MCA_" + name, Prte, f);
  }

  /** `--pmixmca name value` likewise appends PMIX_MCA_name=value. */
  lemma NextPmix(argv: seq<string>, name: string, value: string, f: Filter)
    requires Complete(argv)
    ensures var key := "PMIX_MCA_" + name;
            && Complete(argv + ["--pmixmca", name, value])
            && Assignments(argv + ["--pmixmca", name, value], f)
               == if Reaches(key, name, value, f) && !Sets(Assignments(argv, f), key)
                  then Assignments(argv, f) + ["PMIX_MCA_" + name + "=" + value] else Assignments(argv, f)
  {
    NextTriple(argv, "--pmixmca", name, value, "PMIX_MCA_" + name, Pmix, f);
  }

  /** Every command line is complete but for a triple that is cut off at its end. */
  lemma {:induction false} CompleteBut(argv: seq<string>) returns (n: nat)
    ensures n <= |argv| && Complete(argv[..n])
    ensures n == |argv| || (|argv| - n <= 2 && IsFlag(argv[n]))
  {
    if argv == [] || (IsFlag(argv[0]) && |argv| < 3) {
      n := 0;
    } else {
      var k := if IsFlag(argv[0]) then 3 else 1;
      var m := CompleteBut(argv[k..]);
      n := k + m;
      assert argv[..n][k..] == argv[k..][..m];
    }
  }

  // ---------------------------------------------------------- what never gets through

  /** Names of parameters hold no '='. */
  predicate NamesHoldNoEquals(argv: seq<string>) {
    forall i :: 0 <= i < |argv| - 1 && IsFlag(argv[i]) ==> '=' !in argv[i + 1]
  }

  lemma {:induction false} ScanNames(argv: seq<string>, i: nat)
    requires NamesHoldNoEquals(argv)
    ensures forall s :: s in Scan(argv, i) ==> '=' !in s.name
    decreases |argv| - i
  {
    if i < |argv| {
      ScanNames(argv, if TripleAt(argv, i) then i + 3 else i + 1);
    }
  }

  lemma {:induction false} EntriesFrom(ts: seq<Setting>, e: string)
    requires e in AppendAll(ts)
    ensures exists s :: s in ts && e == s.Entry()
  {
    hide HasKey, Setting.Entry, Setting.Key;
    var n := |ts| - 1;
    if e in AppendAll(ts[..n]) {
      EntriesFrom(ts[..n], e);
      var s :| s in ts[..n] && e == s.Entry();
      assert s in ts;
    } else {
      assert ts[n] in ts && e == ts[n].Entry();
    }
  }

  lemma NotLaunchers(s: Setting, key: string)
    requires '=' !in s.name && !LauncherOnly(s.name)
    requires key in {"PRTE_MCA_plm=", "PMIX_MCA_plm=", "PRTE_MCA_plm_k8s_", "PMIX_MCA_plm_k8s_"}
    ensures !(key <= s.Entry())
  {
    var e, p := s.Entry(), Prefix(s.kind);
    assert |p| == 9 && e == p + (s.name + "=" + s.value);
    if key <= e {
      assert e[9..] == s.name + "=" + s.value && key[9..] <= e[9..];
      NameStarts(s.name, s.value, key[9..]);
    }
  }

  lemma NameStarts(name: string, value: string, w: string)
    requires '=' !in name && w <= name + "=" + value && (w == "plm=" || w == "plm_k8s_")
    ensures LauncherOnly(name)
  {
    var e := name + "=" + value;
    assert e[|name|] == '=';
    assert forall i :: 0 <= i < |w| ==> w[i] == e[i];
    if w == "plm=" {
      assert w[3] == '=' && |name| == 3;
      assert name == e[..3] == "plm";
    } else {
      assert forall i :: 0 <= i < 8 ==> w[i] != '=';
      assert name[..8] == e[..8] == w;
    }
  }

  /** No assignment sets the launcher's own parameters, under either prefix. */
  lemma NoLauncherParameter(argv: seq<string>, f: Filter, e: string)
    requires NamesHoldNoEquals(argv) && e in Assignments(argv, f)
    ensures !("PRTE_MCA_plm=" <= e) && !("PMIX_MCA_plm=" <= e)
    ensures !("PRTE_MCA_plm_k8s_" <= e) && !("PMIX_MCA_plm_k8s_" <= e)
  {
    var ts := Scan(argv, 0);
    ScanNames(argv, 0);
    KeptForwarded(ts, f);
    EntriesFrom(Kept(ts, f), e);
    hide Scan, Kept;
    var s :| s in Kept(ts, f) && e == s.Entry();
    hide Setting.Entry, LauncherOnly;
    assert '=' !in s.name && !LauncherOnly(s.name);
    NotLaunchers(s, "PRTE_MCA_plm=");
    NotLaunchers(s, "PMIX_MCA_plm=");
    NotLaunchers(s, "PRTE_MCA_plm_k8s_");
    NotLaunchers(s, "PMIX_MCA_plm_k8s_");
  }
}
