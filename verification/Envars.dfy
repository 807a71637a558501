/** From a daemon command line to environment assignments (plm_k8s_template.c:263-378). */
module Envars {
  import opened Strings
  import opened EnvBlock

  datatype Kind = Prte | Pmix

  function Prefix(k: Kind): string {
    if k.Prte? then "PRTE_MCA_" else "PMIX_MCA_"
  }

  /** One "--prtemca name value" or "--pmixmca name value" triple. */
  datatype Setting = Setting(kind: Kind, name: string, value: string) {
    function Key(): string {
      Prefix(kind) + name
    }

    function Entry(): string {
      Key() + "=" + value
    }
  }

  /** What decides whether a triple is forwarded. */
  datatype Filter = Filter(skip: Option<string>, passEnviron: bool, environ: map<string, string>)

  // --------------------------------------------------------------------- meaning

  predicate TripleAt(argv: seq<string>, i: nat) {
    i + 2 < |argv| && (argv[i] == "--prtemca" || argv[i] == "--pmixmca")
  }

  /** The triple that starts at `i`. */
  function SettingAt(argv: seq<string>, i: nat): Setting
    requires TripleAt(argv, i)
  {
    Setting(if argv[i] == "--prtemca" then Prte else Pmix, argv[i + 1], argv[i + 2])
  }

  /** The triples in scan order from `i` on; a word that starts no triple is a bare flag and is dropped. */
  function Scan(argv: seq<string>, i: nat): seq<Setting>
    decreases |argv| - i
  {
    if i >= |argv| then []
    else if TripleAt(argv, i) then [SettingAt(argv, i)] + Scan(argv, i + 3)
    else Scan(argv, i + 1)
  }

  predicate LauncherOnly(name: string) {
    name == "plm" || "plm_k8s_" <= name
  }

  predicate FromEnviron(s: Setting, environ: map<string, string>) {
    s.Key() in environ && environ[s.Key()] == s.value
  }

  predicate Forwarded(s: Setting, f: Filter) {
    && (f.skip.None? || s.name != f.skip.value)
    && !LauncherOnly(s.name)
    && (f.passEnviron || !FromEnviron(s, f.environ))
  }

  function Kept(ts: seq<Setting>, f: Filter): seq<Setting> {
    if ts == [] then []
    else (if Forwarded(ts[0], f) then [ts[0]] else []) + Kept(ts[1..], f)
  }

  predicate Mentions(ts: seq<Setting>, kind: Kind, name: string) {
    exists i :: 0 <= i < |ts| && ts[i].kind == kind && ts[i].name == name
  }

  /** Of the triples that set the same parameter, the first one. */
  function FirstPerKey(ts: seq<Setting>): seq<Setting> {
    if ts == [] then []
    else
      var n := |ts| - 1;
      FirstPerKey(ts[..n]) + if Mentions(ts[..n], ts[n].kind, ts[n].name) then [] else [ts[n]]
  }

  /** The settings a daemon is started with. */
  function Settings(argv: seq<string>, f: Filter): seq<Setting> {
    FirstPerKey(Kept(Scan(argv, 0), f))
  }

  function PairOf(s: Setting): Pair {
    Pair(s.Key(), s.value)
  }

  function PairsOf(ts: seq<Setting>): seq<Pair> {
    seq(|ts|, i requires 0 <= i < |ts| => PairOf(ts[i]))
  }

  // ------------------------------------------------------- the array of assignments

  /** Some entry starts with "key=". */
  predicate HasKey(entries: seq<string>, key: string) {
    exists i :: 0 <= i < |entries| && key + "=" <= entries[i]
  }

  method AppendUniqueEnvar(entries: seq<string>, key: string, value: string) returns (r: seq<string>)
    ensures r == if HasKey(entries, key) then entries else entries + [key + "=" + value]
  {
    for i := 0 to |entries|
      invariant forall j :: 0 <= j < i ==> !(key + "=" <= entries[j])
    {
      if |key| < |entries[i]| && entries[i][..|key|] == key && entries[i][|key|] == '=' {
        assert entries[i][..|key| + 1] == key + "=";
        return entries;
      }
    }
    r := entries + [key + "=" + value];
  }

  /** What appending the triples one by one leaves, whatever characters the names hold. */
  function AppendAll(ts: seq<Setting>): seq<string> {
    if ts == [] then []
    else
      var n := |ts| - 1;
      var before := AppendAll(ts[..n]);
      if HasKey(before, ts[n].Key()) then before else before + [ts[n].Entry()]
  }

  method ArgvToEnvars(argv: seq<string>, f: Filter) returns (envars: seq<string>)
    ensures envars == AppendAll(Kept(Scan(argv, 0), f))
  {
    envars := [];
    ghost var done: seq<Setting> := [];
    var i := 0;
    while i < |argv|
      invariant Kept(Scan(argv, 0), f) == done + Kept(Scan(argv, i), f)
      invariant envars == AppendAll(done)
      decreases |argv| - i
    {
      if TripleAt(argv, i) {
        var s := SettingAt(argv, i);
        ScanStep(argv, i, f, done);
        if Forwarded(s, f) {
          AppendStep(done, s);
          envars := AppendUniqueEnvar(envars, s.Key(), s.value);
          done := done + [s];
        }
        i := i + 2;
      }
      i := i + 1;
    }
    assert done + [] == done;
  }

  lemma ScanStep(argv: seq<string>, i: nat, f: Filter, done: seq<Setting>)
    requires TripleAt(argv, i)
    ensures done + Kept(Scan(argv, i), f)
         == (if Forwarded(SettingAt(argv, i), f) then done + [SettingAt(argv, i)] else done)
              + Kept(Scan(argv, i + 3), f)
  {
    hide Forwarded;
    var s, rest := SettingAt(argv, i), Scan(argv, i + 3);
    assert Scan(argv, i) == [s] + rest && ([s] + rest)[1..] == rest;
  }

  lemma AppendStep(done: seq<Setting>, s: Setting)
    ensures AppendAll(done + [s])
         == if HasKey(AppendAll(done), s.Key()) then AppendAll(done) else AppendAll(done) + [s.Entry()]
  {
    assert (done + [s])[..|done|] == done;
  }

  // ------------------------------------------------- names without '=': first one wins

  ghost predicate PlainSettings(ts: seq<Setting>) {
    forall i :: 0 <= i < |ts| ==> '=' !in ts[i].name
  }

  lemma KeyInjective(a: Setting, b: Setting)
    requires a.Key() == b.Key()
    ensures a.kind == b.kind && a.name == b.name
  {
    assert a.Key()[1] == b.Key()[1];
    assert a.Key()[9..] == a.name && b.Key()[9..] == b.name;
  }

  /** The first '=' of `s` stands at `n`. */
  ghost predicate FirstEquals(s: string, n: nat) {
    n < |s| && s[n] == '=' && forall k :: 0 <= k < n ==> s[k] != '='
  }

  lemma EntryKey(a: Setting, b: Setting)
    requires '=' !in a.name && '=' !in b.name
    ensures b.Key() + "=" <= a.Entry() <==> a.kind == b.kind && a.name == b.name
  {
    var m, n := |a.Key()|, |b.Key()|;
    assert '=' !in a.Key() && '=' !in b.Key();
    assert FirstEquals(a.Entry(), m) by {
      assert forall k :: 0 <= k < m ==> a.Entry()[k] == a.Key()[k];
    }
    if b.Key() + "=" <= a.Entry() {
      assert FirstEquals(b.Key() + "=", n);
      assert FirstEquals(a.Entry(), n) by {
        assert forall k :: 0 <= k <= n ==> a.Entry()[k] == (b.Key() + "=")[k];
      }
      assert m == n;
      assert a.Key() == a.Entry()[..m] && b.Key() == (b.Key() + "=")[..n];
      KeyInjective(a, b);
    }
  }

  lemma {:induction false} FirstMentions(ts: seq<Setting>, kind: Kind, name: string)
    ensures Mentions(FirstPerKey(ts), kind, name) <==> Mentions(ts, kind, name)
  {
    if ts != [] {
      var n := |ts| - 1;
      var init, first := ts[..n], FirstPerKey(ts[..n]);
      FirstMentions(init, kind, name);
      FirstMentions(init, ts[n].kind, ts[n].name);
      assert ts == init + [ts[n]];
      MentionsConcat(init, [ts[n]], kind, name);
      if Mentions(init, ts[n].kind, ts[n].name) {
        assert FirstPerKey(ts) == first;
      } else {
        MentionsConcat(first, [ts[n]], kind, name);
      }
    }
  }

  lemma MentionsConcat(a: seq<Setting>, b: seq<Setting>, kind: Kind, name: string)
    ensures Mentions(a + b, kind, name) <==> Mentions(a, kind, name) || Mentions(b, kind, name)
  {
    if Mentions(a, kind, name) {
      var i :| 0 <= i < |a| && a[i].kind == kind && a[i].name == name;
      assert (a + b)[i] == a[i];
    }
    if Mentions(b, kind, name) {
      var i :| 0 <= i < |b| && b[i].kind == kind && b[i].name == name;
      assert (a + b)[|a| + i] == b[i];
    }
  }

  lemma HasKeyMentions(ts: seq<Setting>, s: Setting)
    requires PlainSettings(ts) && '=' !in s.name
    ensures HasKey(Entries(PairsOf(ts)), s.Key()) <==> Mentions(ts, s.kind, s.name)
  {
    forall i | 0 <= i < |ts|
      ensures s.Key() + "=" <= Entries(PairsOf(ts))[i] <==> ts[i].kind == s.kind && ts[i].name == s.name
    {
      EntryKey(ts[i], s);
    }
  }

  /** The array holds exactly the first surviving triple of every parameter, in scan order. */
  lemma {:induction false} AppendAllFirst(ts: seq<Setting>)
    requires PlainSettings(ts)
    ensures AppendAll(ts) == Entries(PairsOf(FirstPerKey(ts))) && PlainSettings(FirstPerKey(ts))
  {
    if ts != [] {
      var n := |ts| - 1;
      var first := FirstPerKey(ts[..n]);
      AppendAllFirst(ts[..n]);
      HasKeyMentions(first, ts[n]);
      FirstMentions(ts[..n], ts[n].kind, ts[n].name);
      assert Entries(PairsOf(first + [ts[n]])) == Entries(PairsOf(first)) + [ts[n].Entry()];
    }
  }

  ghost predicate DistinctKeys(ts: seq<Setting>) {
    forall i, j :: 0 <= i < j < |ts| ==> ts[i].Key() != ts[j].Key()
  }

  /** `s` is the triple at `k`, and no earlier triple sets the same parameter. */
  ghost predicate IsFirst(ts: seq<Setting>, k: nat, s: Setting) {
    k < |ts| && ts[k] == s && !Mentions(ts[..k], s.kind, s.name)
  }

  lemma {:induction false} FirstDistinct(ts: seq<Setting>)
    ensures DistinctKeys(FirstPerKey(ts))
  {
    if ts != [] {
      var n := |ts| - 1;
      var first, last := FirstPerKey(ts[..n]), ts[n];
      FirstDistinct(ts[..n]);
      FirstMentions(ts[..n], last.kind, last.name);
      if !Mentions(first, last.kind, last.name) {
        forall i | 0 <= i < |first|
          ensures first[i].Key() != last.Key()
        {
          if first[i].Key() == last.Key() {
            KeyInjective(first[i], last);
          }
        }
      }
    }
  }

  /** What is left is every triple that is the first of its parameter, and nothing else. */
  lemma {:induction false} FirstExactly(ts: seq<Setting>, s: Setting)
    ensures s in FirstPerKey(ts) <==> exists k: nat :: IsFirst(ts, k, s)
  {
    if ts == [] {
      assert forall k: nat :: !IsFirst(ts, k, s);
    } else {
      var n := |ts| - 1;
      FirstExactly(ts[..n], s);
      forall k: nat | k < n
        ensures IsFirst(ts[..n], k, s) <==> IsFirst(ts, k, s)
      {
        assert ts[..n][..k] == ts[..k];
      }
      if s in FirstPerKey(ts[..n]) {
        var k: nat :| IsFirst(ts[..n], k, s);
        assert IsFirst(ts, k, s);
      } else if exists k: nat :: IsFirst(ts, k, s) {
        var k: nat :| IsFirst(ts, k, s);
        assert k == n;
      } else {
        assert !IsFirst(ts, n, s);
      }
    }
  }

  // --------------------------------------------------------- what reaches a daemon

  lemma {:induction false} KeptForwarded(ts: seq<Setting>, f: Filter)
    ensures forall i :: 0 <= i < |Kept(ts, f)| ==> Forwarded(Kept(ts, f)[i], f) && Kept(ts, f)[i] in ts
  {
    if ts != [] {
      KeptForwarded(ts[1..], f);
    }
  }

  /** No launcher-only parameter, no skipped one and, unless asked for, none copied from the launcher's own
      environment reaches a daemon; and no key twice. */
  lemma SettingsFiltered(argv: seq<string>, f: Filter)
    ensures DistinctKeys(Settings(argv, f))
    ensures forall s :: s in Settings(argv, f) ==> Forwarded(s, f) && s in Scan(argv, 0)
  {
    var kept := Kept(Scan(argv, 0), f);
    FirstDistinct(kept);
    KeptForwarded(Scan(argv, 0), f);
    hide Forwarded, Scan;
    forall s | s in Settings(argv, f)
      ensures Forwarded(s, f) && s in Scan(argv, 0)
    {
      FirstExactly(kept, s);
      var k: nat :| IsFirst(kept, k, s);
      assert kept[k] == s;
    }
  }

  /** A daemon's environment has the key of a skipped parameter in it under no prefix. */
  lemma SkippedKeyAbsent(argv: seq<string>, f: Filter, kind: Kind)
    requires f.skip.Some?
    ensures forall s :: s in Settings(argv, f) ==> s.Key() != Prefix(kind) + f.skip.value
  {
    SettingsFiltered(argv, f);
    forall s | s in Settings(argv, f)
      ensures s.Key() != Prefix(kind) + f.skip.value
    {
      var other := Setting(kind, f.skip.value, "");
      if s.Key() == other.Key() {
        KeyInjective(s, other);
      }
    }
  }

  ghost predicate PlainArgv(argv: seq<string>) {
    forall s :: s in Scan(argv, 0) ==> PlainWord(s.name)
  }

  lemma PlainKey(s: Setting)
    requires PlainWord(s.name)
    ensures PlainName(s.Key()) && '=' !in s.name
  {
    assert PlainWord(Prefix(s.kind)) && IsLetter(Prefix(s.kind)[0]) && |Prefix(s.kind)| > 5;
    LongName(s.Key());
    forall i | 0 <= i < |s.name|
      ensures s.name[i] != '='
    {
    }
  }

  lemma {:induction false} KeptPlain(ts: seq<Setting>, f: Filter)
    requires forall s :: s in ts ==> PlainWord(s.name)
    ensures PlainSettings(Kept(ts, f))
  {
    KeptForwarded(ts, f);
    hide Forwarded;
    forall i | 0 <= i < |Kept(ts, f)|
      ensures '=' !in Kept(ts, f)[i].name
    {
      PlainKey(Kept(ts, f)[i]);
    }
  }

  /** From the command line to the manifest and back: at any column, a reader of the indented env block
      recovers exactly the filtered settings, one per parameter and the first of each, in order - iff every
      value is printable text, newlines and tabs. */
  lemma ArgvRoundTrip(argv: seq<string>, f: Filter, indent: string)
    requires PlainArgv(argv) && '\n' !in indent
    ensures var envars := AppendAll(Kept(Scan(argv, 0), f));
            var pairs := PairsOf(Settings(argv, f));
            var text := Unindent(indent + Reindent(EnvText(envars), indent), indent);
            text.Some? && ReadBlock(text.value) == if AllPrintable(pairs) then Some(pairs) else None
  {
    hide Forwarded, Scan, EnvText, Reindent, Unindent, ReadBlock, AllPrintable;
    KeptPlain(Scan(argv, 0), f);
    AppendAllFirst(Kept(Scan(argv, 0), f));
    SettingsFiltered(argv, f);
    var ts := Settings(argv, f);
    forall i | 0 <= i < |ts|
      ensures PlainName(PairsOf(ts)[i].key)
    {
      assert ts[i] in ts;
      PlainKey(ts[i]);
    }
    PipelineRoundTrip(PairsOf(ts), indent);
  }

  // ------------------------------- the common block against the per-node blocks

  /** The settings of every parameter but `name`. */
  function Without(ts: seq<Setting>, name: string): seq<Setting> {
    if ts == [] then []
    else (if ts[0].name == name then [] else [ts[0]]) + Without(ts[1..], name)
  }

  /** The scan from `i` on comes to a triple that sets `name`, with its value at `slot`. */
  predicate SlotFrom(argv: seq<string>, i: nat, slot: nat, name: string)
    decreases |argv| - i
  {
    i + 2 <= slot < |argv|
    && if TripleAt(argv, i) then (i + 2 == slot && argv[i + 1] == name) || SlotFrom(argv, i + 3, slot, name)
       else SlotFrom(argv, i + 1, slot, name)
  }

  lemma {:induction false} ScanSuffix(argv: seq<string>, i: nat, slot: nat, v: string)
    requires slot < i && slot < |argv|
    ensures Scan(argv[slot := v], i) == Scan(argv, i)
    decreases |argv| - i
  {
    if i < |argv| {
      ScanSuffix(argv, i + 1, slot, v);
      if TripleAt(argv, i) {
        ScanSuffix(argv, i + 3, slot, v);
      }
    }
  }

  /** Two scans that differ in the slot only stay aligned and read the same triples of other parameters. */
  lemma {:induction false} ScanAligned(argv: seq<string>, i: nat, slot: nat, name: string, v: string)
    requires SlotFrom(argv, i, slot, name)
    ensures Without(Scan(argv[slot := v], i), name) == Without(Scan(argv, i), name)
    ensures SlotFrom(argv[slot := v], i, slot, name)
    decreases |argv| - i
  {
    var other := argv[slot := v];
    if TripleAt(argv, i) {
      var a, b := SettingAt(argv, i), SettingAt(other, i);
      if i + 2 == slot {
        ScanSuffix(argv, i + 3, slot, v);
      } else {
        ScanAligned(argv, i + 3, slot, name, v);
      }
      assert Scan(argv, i)[1..] == Scan(argv, i + 3) && Scan(other, i)[1..] == Scan(other, i + 3);
    } else {
      ScanAligned(argv, i + 1, slot, name, v);
    }
  }

  lemma {:induction false} WithoutConcat(a: seq<Setting>, b: seq<Setting>, name: string)
    ensures Without(a + b, name) == Without(a, name) + Without(b, name)
  {
    if a == [] {
      assert a + b == b;
    } else {
      assert (a + b)[1..] == a[1..] + b;
      WithoutConcat(a[1..], b, name);
    }
  }

  lemma {:induction false} WithoutMentions(ts: seq<Setting>, name: string, kind: Kind, other: string)
    requires other != name
    ensures Mentions(Without(ts, name), kind, other) <==> Mentions(ts, kind, other)
  {
    if ts != [] {
      WithoutMentions(ts[1..], name, kind, other);
      assert ts == [ts[0]] + ts[1..];
      MentionsConcat([ts[0]], ts[1..], kind, other);
      MentionsConcat([ts[0]], Without(ts[1..], name), kind, other);
      if ts[0].name == name {
        assert Without(ts, name) == Without(ts[1..], name);
        assert !Mentions([ts[0]], kind, other);
      }
    }
  }

  lemma WithoutOne(t: Setting, name: string)
    ensures Without([t], name) == if t.name == name then [] else [t]
  {
    assert [t][1..] == [];
  }

  lemma FirstSnoc(a: seq<Setting>, t: Setting)
    ensures FirstPerKey(a + [t]) == FirstPerKey(a) + if Mentions(a, t.kind, t.name) then [] else [t]
  {
    assert (a + [t])[..|a|] == a;
  }

  /** De-duplicating and dropping one parameter can be done in either order. */
  lemma {:induction false} FirstWithout(ts: seq<Setting>, name: string)
    ensures Without(FirstPerKey(ts), name) == FirstPerKey(Without(ts, name))
  {
    hide Mentions;
    if ts != [] {
      var n := |ts| - 1;
      var init, last := ts[..n], ts[n];
      assert ts == init + [last];
      FirstWithout(init, name);
      WithoutConcat(init, [last], name);
      WithoutOne(last, name);
      FirstSnoc(init, last);
      var tail := if Mentions(init, last.kind, last.name) then [] else [last];
      WithoutConcat(FirstPerKey(init), tail, name);
      if last.name == name {
        assert Without(init, name) + [] == Without(init, name);
      } else {
        WithoutMentions(init, name, last.kind, last.name);
        FirstSnoc(Without(init, name), last);
      }
    }
  }

  lemma {:induction false} KeptConcat(a: seq<Setting>, b: seq<Setting>, f: Filter)
    ensures Kept(a + b, f) == Kept(a, f) + Kept(b, f)
  {
    hide Forwarded;
    if a == [] {
      assert a + b == b;
    } else {
      assert (a + b)[1..] == a[1..] + b;
      KeptConcat(a[1..], b, f);
    }
  }

  lemma KeptOne(t: Setting, f: Filter)
    ensures Kept([t], f) == if Forwarded(t, f) then [t] else []
  {
    assert [t][1..] == [];
  }

  lemma SkipOne(t: Setting, f: Filter, name: string)
    requires f.skip.None?
    ensures Forwarded(t, f.(skip := Some(name))) <==> Forwarded(t, f) && t.name != name
  {
  }

  /** Skipping a parameter while filtering is dropping it before or after. */
  lemma {:induction false} KeptWithout(ts: seq<Setting>, f: Filter, name: string)
    requires f.skip.None?
    ensures Kept(ts, f.(skip := Some(name))) == Without(Kept(ts, f), name)
    ensures Kept(ts, f.(skip := Some(name))) == Kept(Without(ts, name), f)
  {
    hide Forwarded;
    if ts != [] {
      var g, t, rest := f.(skip := Some(name)), ts[0], ts[1..];
      assert ts == [t] + rest;
      KeptWithout(rest, f, name);
      KeptConcat([t], rest, g);
      KeptConcat([t], rest, f);
      WithoutConcat([t], rest, name);
      KeptConcat(Without([t], name), Without(rest, name), f);
      WithoutConcat(Kept([t], f), Kept(rest, f), name);
      KeptOne(t, g);
      KeptOne(t, f);
      WithoutOne(t, name);
      SkipOne(t, f, name);
    }
  }

  /** The launcher writes each daemon's rank into one slot of one command line. Whatever ranks it holds, the
      common settings - built while it still holds the last node's - are each node's own settings without
      that parameter, in content and order. */
  lemma CommonIsNodeWithout(argv: seq<string>, slot: nat, name: string, own: string, last: string, f: Filter)
    requires SlotFrom(argv, 0, slot, name) && f.skip.None?
    ensures Settings(argv[slot := last], f.(skip := Some(name))) == Without(Settings(argv[slot := own], f), name)
  {
    ScanAligned(argv, 0, slot, name, own);
    ScanAligned(argv, 0, slot, name, last);
    hide Scan, Forwarded;
    var a, b := Scan(argv[slot := own], 0), Scan(argv[slot := last], 0);
    KeptWithout(a, f, name);
    KeptWithout(b, f, name);
    FirstWithout(Kept(a, f), name);
  }

  // ------------------------------------------------------------- a node's own rank

  /** The triples the scan from `i` reads before the slot. */
  function ScanBefore(argv: seq<string>, i: nat, slot: nat, name: string): seq<Setting>
    requires SlotFrom(argv, i, slot, name)
    decreases |argv| - i
  {
    if TripleAt(argv, i) then
      if i + 2 == slot then [] else [SettingAt(argv, i)] + ScanBefore(argv, i + 3, slot, name)
    else ScanBefore(argv, i + 1, slot, name)
  }

  /** The kind of the triple whose value is the slot. */
  function SlotKind(argv: seq<string>, slot: nat): Kind
    requires 2 <= slot < |argv|
  {
    if argv[slot - 2] == "--prtemca" then Prte else Pmix
  }

  lemma {:induction false} ScanAtSlot(argv: seq<string>, i: nat, slot: nat, name: string, v: string)
    requires SlotFrom(argv, i, slot, name)
    ensures Scan(argv[slot := v], i)
         == ScanBefore(argv, i, slot, name) + ([Setting(SlotKind(argv, slot), name, v)] + Scan(argv, slot + 1))
    decreases |argv| - i
  {
    if TripleAt(argv, i) {
      if i + 2 == slot {
        ScanSuffix(argv, i + 3, slot, v);
      } else {
        ScanAtSlot(argv, i + 3, slot, name, v);
      }
    } else {
      ScanAtSlot(argv, i + 1, slot, name, v);
    }
  }

  /** Behind earlier triples of the same parameter, only those can be its first. */
  lemma FirstInFront(a: seq<Setting>, b: seq<Setting>, s: Setting)
    requires Mentions(a, s.kind, s.name)
    ensures s in FirstPerKey(a + b) <==> s in FirstPerKey(a)
  {
    FirstExactly(a + b, s);
    FirstExactly(a, s);
    hide Mentions;
    forall k: nat | k < |a + b|
      ensures IsFirst(a + b, k, s) <==> IsFirst(a, k, s)
    {
      if k < |a| {
        assert (a + b)[..k] == a[..k];
      } else {
        assert (a + b)[..k] == a + b[..k - |a|];
        MentionsConcat(a, b[..k - |a|], s.kind, s.name);
      }
    }
  }

  /** Without earlier ones, a triple is the first of its parameter. */
  lemma FirstItself(a: seq<Setting>, s: Setting, b: seq<Setting>)
    requires !Mentions(a, s.kind, s.name)
    ensures s in FirstPerKey(a + ([s] + b))
  {
    var ts := a + ([s] + b);
    assert ts[..|a|] == a && ts[|a|] == s;
    assert IsFirst(ts, |a|, s);
    FirstExactly(ts, s);
  }

  /** Exactly when a node's settings carry its own rank: the rank is forwarded, and no forwarded triple before
      the slot sets the same parameter - or the first that does happens to say the same. */
  lemma OwnRank(argv: seq<string>, slot: nat, name: string, own: string, f: Filter)
    requires SlotFrom(argv, 0, slot, name)
    ensures var s, before := Setting(SlotKind(argv, slot), name, own), Kept(ScanBefore(argv, 0, slot, name), f);
            s in Settings(argv[slot := own], f) <==>
              Forwarded(s, f) && (Mentions(before, s.kind, name) ==> s in FirstPerKey(before))
    ensures OncePerParameter(Settings(argv[slot := own], f))
  {
    var s := Setting(SlotKind(argv, slot), name, own);
    var before, after := ScanBefore(argv, 0, slot, name), Scan(argv, slot + 1);
    ScanAtSlot(argv, 0, slot, name, own);
    SettingsFiltered(argv[slot := own], f);
    hide Scan, ScanBefore, SlotFrom, Forwarded, SlotKind, FirstPerKey, Mentions;
    if Forwarded(s, f) {
      KeptConcat(before, [s] + after, f);
      KeptConcat([s], after, f);
      KeptOne(s, f);
      if Mentions(Kept(before, f), s.kind, name) {
        FirstInFront(Kept(before, f), [s] + Kept(after, f), s);
      } else {
        FirstItself(Kept(before, f), s, Kept(after, f));
      }
    }
    OnePerKey(Settings(argv[slot := own], f));
  }

  ghost predicate OncePerParameter(ts: seq<Setting>) {
    forall t, u :: t in ts && u in ts && t.kind == u.kind && t.name == u.name ==> t == u
  }

  lemma OnePerKey(ts: seq<Setting>)
    requires DistinctKeys(ts)
    ensures OncePerParameter(ts)
  {
    forall t, u | t in ts && u in ts && t.kind == u.kind && t.name == u.name
      ensures t == u
    {
      assert t.Key() == u.Key();
    }
  }
}
