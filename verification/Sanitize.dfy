/** Kubernetes object names out of arbitrary text (plm_k8s_template.c:217-261). */
module Sanitize {
  import opened Strings

  const FALLBACK: string := "prte"

  function Lower(c: char): char {
    if 'A' <= c <= 'Z' then (c as int - 'A' as int + 'a' as int) as char else c
  }

  predicate IsAlnum(c: char) {
    'a' <= c <= 'z' || IsDigit(c)
  }

  /** Lower-cased, every run of other characters one dash, none while `lastDash` holds. */
  function Collapse(s: string, lastDash: bool): string {
    if s == "" then ""
    else if IsAlnum(Lower(s[0])) then [Lower(s[0])] + Collapse(s[1..], false)
    else if lastDash then Collapse(s[1..], true)
    else "-" + Collapse(s[1..], true)
  }

  function Take(s: string, n: nat): string {
    if n < |s| then s[..n] else s
  }

  function TrimDashes(s: string): string {
    if s != "" && s[|s| - 1] == '-' then TrimDashes(s[..|s| - 1]) else s
  }

  function Sanitized(raw: string, maxlen: nat): string {
    var t := TrimDashes(Take(Collapse(raw, true), maxlen));
    if t == "" then FALLBACK else t
  }

  method SanitizeName(raw: Option<string>, maxlen: nat) returns (r: string)
    ensures r == if raw.Some? then Sanitized(raw.value, maxlen) else "prte"
  {
    if raw.None? || raw.value == "" {
      return FALLBACK;
    }
    var s := raw.value;
    var buf := new char[(if |s| < maxlen then |s| else maxlen) + 1];
    var out := Copy(s, maxlen, buf);
    while out > 0 && buf[out - 1] == '-'
      invariant 0 <= out < buf.Length
      invariant TrimDashes(buf[..out]) == TrimDashes(Take(Collapse(s, true), maxlen))
    {
      assert buf[..out][..out - 1] == buf[..out - 1];
      out := out - 1;
    }
    if out == 0 {
      return FALLBACK;
    }
    buf[out] := '\0';
    r := buf[..out];
  }

  /** The first loop: fills the buffer, which never needs more than its last cell for the terminator. */
  method Copy(s: string, maxlen: nat, buf: array<char>) returns (out: nat)
    requires buf.Length == (if |s| < maxlen then |s| else maxlen) + 1
    modifies buf
    ensures out < buf.Length && buf[..out] == Take(Collapse(s, true), maxlen)
  {
    hide Collapse, Take, Lower;
    var i, lastDash := 0, true;
    out := 0;
    ghost var done := "";
    assert s[0..] == s;
    while i < |s| && out < maxlen
      invariant out <= i <= |s| && out <= maxlen && done == buf[..out]
      invariant Take(Collapse(s, true), maxlen) == done + Take(Collapse(s[i..], lastDash), maxlen - out)
    {
      var c := Lower(s[i]);
      CollapseStep(s, i, lastDash, maxlen - out, done);
      if IsAlnum(c) || !lastDash {
        lastDash := !IsAlnum(c);
        buf[out] := if lastDash then '-' else c;
        done := done + [buf[out]];
        assert buf[..out + 1] == done;
        out := out + 1;
      }
      i := i + 1;
    }
    TakeEnd(s[i..], lastDash, maxlen - out);
    assert done + "" == done;
  }

  lemma TakeEnd(rest: string, lastDash: bool, n: nat)
    requires rest == "" || n == 0
    ensures Take(Collapse(rest, lastDash), n) == ""
  {
  }

  lemma CollapseStep(s: string, i: nat, lastDash: bool, n: nat, done: string)
    requires i < |s| && n > 0
    ensures var c := Lower(s[i]);
            done + Take(Collapse(s[i..], lastDash), n)
              == if IsAlnum(c) then (done + [c]) + Take(Collapse(s[i + 1..], false), n - 1)
                 else if !lastDash then (done + "-") + Take(Collapse(s[i + 1..], true), n - 1)
                 else done + Take(Collapse(s[i + 1..], true), n)
  {
    assert s[i..][1..] == s[i + 1..];
    var c := Lower(s[i]);
    if IsAlnum(c) {
      TakeCons(c, Collapse(s[i + 1..], false), n);
    } else if !lastDash {
      TakeCons('-', Collapse(s[i + 1..], true), n);
    }
  }

  lemma TakeCons(c: char, s: string, n: nat)
    requires n > 0
    ensures Take([c] + s, n) == [c] + Take(s, n - 1)
  {
  }

  // ------------------------------------------------------------------- what it is

  /** Letters, digits and single dashes, none of them at either end: the shape of an RFC 1123 label. */
  ghost predicate Label(s: string) {
    && s != "" && IsAlnum(s[0]) && IsAlnum(s[|s| - 1])
    && Dashed(s)
  }

  ghost predicate Dashed(s: string) {
    && (forall i :: 0 <= i < |s| ==> IsAlnum(s[i]) || s[i] == '-')
    && (forall i :: 0 < i < |s| && s[i] == '-' ==> s[i - 1] != '-')
  }

  lemma {:induction false} CollapseDashed(s: string, lastDash: bool)
    ensures Dashed(Collapse(s, lastDash))
    ensures lastDash && Collapse(s, lastDash) != "" ==> Collapse(s, lastDash)[0] != '-'
  {
    if s != "" {
      CollapseDashed(s[1..], true);
      CollapseDashed(s[1..], false);
    }
  }

  lemma {:induction false} TrimPrefix(s: string)
    ensures |TrimDashes(s)| <= |s| && TrimDashes(s) == s[..|TrimDashes(s)|]
    ensures TrimDashes(s) != "" ==> TrimDashes(s)[|TrimDashes(s)| - 1] != '-'
  {
    if s != "" && s[|s| - 1] == '-' {
      TrimPrefix(s[..|s| - 1]);
      assert s[..|s| - 1][..|TrimDashes(s)|] == s[..|TrimDashes(s)|];
    }
  }

  /** The result is always a label, of at most `maxlen` characters - or of the fallback's four. */
  lemma SanitizedLabel(raw: string, maxlen: nat)
    ensures Label(Sanitized(raw, maxlen))
    ensures |Sanitized(raw, maxlen)| <= if maxlen < 4 then 4 else maxlen
    ensures forall i :: 0 <= i < |Sanitized(raw, maxlen)| ==>
      var c := Sanitized(raw, maxlen)[i]; 'a' <= c <= 'z' || '0' <= c <= '9' || c == '-'
  {
    var c := Collapse(raw, true);
    CollapseDashed(raw, true);
    TrimPrefix(Take(c, maxlen));
    var t := TrimDashes(Take(c, maxlen));
    assert t == c[..|t|];
  }

  lemma {:induction false} CollapseLabel(s: string, lastDash: bool)
    requires Dashed(s) && (lastDash && s != "" ==> s[0] != '-')
    ensures Collapse(s, lastDash) == s
  {
    if s != "" {
      var rest := s[1..];
      assert forall i :: 0 < i < |rest| && rest[i] == '-' ==> rest[i - 1] == s[i] != '-';
      CollapseLabel(rest, s[0] == '-');
      assert s == [s[0]] + rest;
    }
  }

  /** The text has something to name the object by. */
  predicate HasWord(s: string) {
    exists i :: 0 <= i < |s| && IsAlnum(Lower(s[i]))
  }

  lemma {:induction false} CollapseEmpty(s: string)
    ensures Collapse(s, true) == "" <==> !HasWord(s)
    ensures Collapse(s, true) != "" ==> IsAlnum(Collapse(s, true)[0])
  {
    hide Lower;
    if s != "" {
      CollapseEmpty(s[1..]);
      assert forall i :: 0 <= i < |s[1..]| ==> s[1..][i] == s[i + 1];
      if HasWord(s) && !IsAlnum(Lower(s[0])) {
        var i :| 0 <= i < |s| && IsAlnum(Lower(s[i]));
        assert s[1..][i - 1] == s[i];
      }
    }
  }

  lemma {:induction false} TrimKeeps(s: string)
    requires s != "" && s[0] != '-'
    ensures TrimDashes(s) != ""
  {
    if s[|s| - 1] == '-' {
      TrimKeeps(s[..|s| - 1]);
    }
  }

  /** The fallback is taken exactly if the limit is zero or the text has no letter and no digit. */
  lemma FallbackTaken(raw: string, maxlen: nat)
    ensures TrimDashes(Take(Collapse(raw, true), maxlen)) == "" <==> maxlen == 0 || !HasWord(raw)
    ensures maxlen == 0 || !HasWord(raw) ==> Sanitized(raw, maxlen) == "prte"
  {
    CollapseEmpty(raw);
    var cut := Take(Collapse(raw, true), maxlen);
    if maxlen > 0 && HasWord(raw) {
      assert cut != "" && cut[0] == Collapse(raw, true)[0];
      TrimKeeps(cut);
    } else {
      assert cut == "";
    }
  }

  /** The result keeps to the limit exactly if the limit has room for the fallback, or the fallback is not
      needed. */
  lemma SanitizedFits(raw: string, maxlen: nat)
    ensures |Sanitized(raw, maxlen)| <= maxlen <==> maxlen >= 4 || (maxlen > 0 && HasWord(raw))
  {
    FallbackTaken(raw, maxlen);
    TrimPrefix(Take(Collapse(raw, true), maxlen));
    hide Collapse, HasWord, TrimDashes;
  }

  /** Sanitizing twice is sanitizing once, except where the fallback is taken for a limit of 1, 2 or 3. */
  lemma SanitizedIdempotent(raw: string, maxlen: nat)
    ensures Sanitized(Sanitized(raw, maxlen), maxlen) == Sanitized(raw, maxlen)
        <==> maxlen == 0 || maxlen >= 4 || HasWord(raw)
  {
    var r := Sanitized(raw, maxlen);
    SanitizedLabel(raw, maxlen);
    FallbackTaken(raw, maxlen);
    CollapseLabel(r, true);
    TrimPrefix(Take(Collapse(raw, true), maxlen));
    if |r| <= maxlen {
      assert Sanitized(r, maxlen) == r;
    } else {
      assert r == FALLBACK;
      TrimPrefix(r[..maxlen]);
    }
  }

  // ------------------------------------------------------- an independent definition

  /** Lower-cased, every other character a dash. */
  function Mapped(s: string): string {
    if s == "" then "" else [if IsAlnum(Lower(s[0])) then Lower(s[0]) else '-'] + Mapped(s[1..])
  }

  /** The words of a text: its runs of letters and digits. */
  function Words(s: string): seq<string> {
    Filled(Split(Mapped(s), '-'))
  }

  /** Fields with one dash behind each that is not empty, except the last. */
  function Dashes(parts: seq<string>): string {
    if parts == [] then ""
    else if |parts| == 1 then parts[0]
    else (if parts[0] == "" then "" else parts[0] + "-") + Dashes(parts[1..])
  }

  lemma {:induction false} CollapseDashes(s: string)
    ensures var parts := Split(Mapped(s), '-');
            && Collapse(s, true) == Dashes(parts)
            && Collapse(s, false) == parts[0] + if |parts| == 1 then "" else "-" + Dashes(parts[1..])
  {
    if s != "" {
      var c, rest := Lower(s[0]), Split(Mapped(s[1..]), '-');
      CollapseDashes(s[1..]);
      assert Mapped(s)[1..] == Mapped(s[1..]);
      hide Lower, Mapped;
      if IsAlnum(c) {
        var parts := Split(Mapped(s), '-');
        assert parts == [[c] + rest[0]] + rest[1..] && parts[1..] == rest[1..];
        DashGroup(c, rest[0], if |rest| == 1 then "" else "-" + Dashes(rest[1..]));
      } else {
        assert Split(Mapped(s), '-') == [""] + rest && ([""] + rest)[1..] == rest;
      }
    }
  }

  lemma DashGroup(c: char, word: string, more: string)
    ensures [c] + (word + more) == [c] + word + more
  {
  }

  /** The dash that is left at the end, if the text ends with one and has a word. */
  function LastDash(parts: seq<string>): string
    requires parts != []
  {
    if parts[|parts| - 1] == "" && Filled(parts) != [] then "-" else ""
  }

  lemma {:induction false} DashesJoin(parts: seq<string>)
    requires parts != []
    ensures Dashes(parts) == Join(Filled(parts), "-") + LastDash(parts)
  {
    hide Dashes, Filled, Join, LastDash;
    DashesStep(parts);
    FilledStep(parts);
    if |parts| == 1 {
      OneWord(parts[0]);
      assert parts == [parts[0]];
      return;
    }
    LastDashStep(parts);
    if parts[0] == "" {
      DashesJoin(parts[1..]);
      NothingBefore(Dashes(parts[1..]));
    } else if Filled(parts[1..]) == [] {
      EmptyFields(parts[1..]);
      LastWord(parts[0]);
    } else {
      DashesJoin(parts[1..]);
      JoinFirst(parts[0], Filled(parts[1..]), LastDash(parts[1..]));
    }
  }

  lemma NothingBefore(s: string)
    ensures "" + s == s
  {
  }

  lemma OneWord(word: string)
    ensures var parts := [word]; Join(Filled(parts), "-") + LastDash(parts) == word
  {
    assert [word][1..] == [];
  }

  lemma LastWord(word: string)
    ensures Join([word] + [], "-") + "-" == word + "-" + ""
  {
    assert [word] + [] == [word];
  }

  lemma LastDashStep(parts: seq<string>)
    requires |parts| > 1
    ensures LastDash(parts)
         == if parts[0] == "" || Filled(parts[1..]) != [] then LastDash(parts[1..])
            else if parts[|parts| - 1] == "" then "-" else ""
  {
    FilledStep(parts);
    hide Filled;
  }

  lemma DashesStep(parts: seq<string>)
    requires parts != []
    ensures Dashes(parts)
         == if |parts| == 1 then parts[0] else (if parts[0] == "" then "" else parts[0] + "-") + Dashes(parts[1..])
  {
  }

  lemma FilledStep(parts: seq<string>)
    requires parts != []
    ensures Filled(parts) == if parts[0] == "" then Filled(parts[1..]) else [parts[0]] + Filled(parts[1..])
  {
  }

  lemma JoinFirst(word: string, rest: seq<string>, last: string)
    requires rest != []
    ensures Join([word] + rest, "-") + last == word + "-" + (Join(rest, "-") + last)
  {
    assert ([word] + rest)[1..] == rest;
    assert word + "-" + Join(rest, "-") + last == word + "-" + (Join(rest, "-") + last);
  }

  lemma {:induction false} EmptyFields(parts: seq<string>)
    requires parts != [] && Filled(parts) == []
    ensures parts[|parts| - 1] == "" && Dashes(parts) == ""
  {
    if |parts| > 1 {
      EmptyFields(parts[1..]);
    }
  }

  /** The name is the text's words, joined by single dashes, cut to the limit and trimmed again. */
  lemma SanitizedWords(raw: string, maxlen: nat)
    ensures Sanitized(raw, maxlen)
         == var t := TrimDashes(Take(Join(Words(raw), "-"), maxlen)); if t == "" then FALLBACK else t
  {
    var parts := Split(Mapped(raw), '-');
    CollapseDashes(raw);
    DashesJoin(parts);
    hide Mapped, Collapse, Dashes, Split, Join, Filled;
    TrimDash(Join(Filled(parts), "-"), maxlen);
  }

  lemma TrimDash(x: string, n: nat)
    ensures TrimDashes(Take(x + "-", n)) == TrimDashes(Take(x, n)) && x + "" == x
  {
    if n <= |x| {
      assert Take(x + "-", n) == Take(x, n);
    } else {
      assert (x + "-")[..|x|] == x;
      assert n >= |x + "-"| && Take(x + "-", n) == x + "-";
    }
  }

  // ------------------------------------------------------------- when two names are the same

  /** As many words as fit into `room` characters with a dash between neighbours, the last one cut. */
  function Fit(words: seq<string>, room: nat): seq<string> {
    if words == [] || room == 0 then []
    else if |words[0]| >= room then [words[0][..room]]
    else [words[0]] + Fit(words[1..], room - |words[0]| - 1)
  }

  /** The words that a name of at most `maxlen` characters is made of. */
  function NameWords(raw: string, maxlen: nat): seq<string> {
    if Fit(Words(raw), maxlen) == [] then [FALLBACK] else Fit(Words(raw), maxlen)
  }

  ghost predicate AreWords(words: seq<string>) {
    forall w :: w in words ==> w != "" && '-' !in w
  }

  lemma WordsAre(raw: string)
    ensures AreWords(Words(raw))
  {
    FilledParts(Split(Mapped(raw), '-'));
    hide Mapped, Filled, Split;
  }

  lemma NameWordsAre(raw: string, maxlen: nat)
    ensures AreWords(NameWords(raw, maxlen)) && NameWords(raw, maxlen) != []
  {
    WordsAre(raw);
    FitWords(Words(raw), maxlen);
    hide Words, Fit;
    assert '-' !in FALLBACK;
  }

  lemma {:induction false} FitWords(words: seq<string>, room: nat)
    requires AreWords(words)
    ensures AreWords(Fit(words, room)) && (Fit(words, room) == [] <==> words == [] || room == 0)
  {
    if words != [] && room > 0 {
      RestWords(words);
      if |words[0]| < room {
        FitWords(words[1..], room - |words[0]| - 1);
      }
    }
  }

  lemma RestWords(words: seq<string>)
    requires AreWords(words) && words != []
    ensures words[0] != "" && '-' !in words[0] && AreWords(words[1..])
  {
    assert words[0] in words;
    assert forall w :: w in words[1..] ==> w in words;
  }

  lemma TrimSolid(s: string)
    requires s == "" || s[|s| - 1] != '-'
    ensures TrimDashes(s) == s
  {
  }

  lemma LastIn(w: string)
    ensures w != "" && '-' !in w ==> w[|w| - 1] != '-'
  {
  }

  lemma {:induction false} TrimBehind(a: string, x: string)
    ensures TrimDashes(a + x) == if TrimDashes(x) == "" then TrimDashes(a) else a + TrimDashes(x)
  {
    if x == "" {
      assert a + x == a;
    } else if x[|x| - 1] == '-' {
      assert (a + x)[..|a + x| - 1] == a + x[..|x| - 1];
      TrimBehind(a, x[..|x| - 1]);
    }
  }

  lemma TakeBehind(a: string, b: string, n: nat)
    ensures Take(a + b, n) == if n <= |a| then a[..n] else a + Take(b, n - |a|)
  {
  }

  lemma DashTrimmed(w: string)
    requires w != "" && '-' !in w
    ensures TrimDashes(w + "-") == w
  {
    LastIn(w);
    TrimSolid(w);
    assert (w + "-")[..|w|] == w;
  }

  lemma {:induction false} JoinedFilled(words: seq<string>)
    requires AreWords(words)
    ensures Join(words, "-") == "" <==> words == []
  {
    if words != [] {
      assert words[0] in words;
    }
  }

  /** Cutting and trimming the joined words leaves the words that fit. */
  lemma {:induction false} CutWords(words: seq<string>, room: nat)
    requires AreWords(words)
    ensures TrimDashes(Take(Join(words, "-"), room)) == Join(Fit(words, room), "-")
  {
    hide TrimDashes, Take, Join, Fit;
    FitStep(words, room);
    if words == [] || room == 0 {
      NothingCut(words, room);
      return;
    }
    var w, rest := words[0], words[1..];
    RestWords(words);
    JoinOne(w);
    if |w| >= room {
      FirstCut(words, room);
      JoinOne(w[..room]);
    } else if rest == [] {
      assert words == [w];
      OnlyWordCut(w, room);
      FitStep(rest, room - |w| - 1);
      assert [w] + [] == [w];
    } else {
      var left := room - |w| - 1;
      CutWords(rest, left);
      JoinMore(words);
      FitWords(rest, left);
      JoinedFilled(Fit(rest, left));
      JoinFit(w, Fit(rest, left));
      CutBehind(w, Join(rest, "-"), room);
    }
  }

  lemma FitStep(words: seq<string>, room: nat)
    ensures Fit(words, room)
         == if words == [] || room == 0 then []
            else if |words[0]| >= room then [words[0][..room]]
            else [words[0]] + Fit(words[1..], room - |words[0]| - 1)
  {
  }

  lemma NothingCut(words: seq<string>, room: nat)
    requires words == [] || room == 0
    ensures TrimDashes(Take(Join(words, "-"), room)) == "" == Join([], "-")
  {
  }

  lemma OnlyWordCut(w: string, room: nat)
    requires w != "" && '-' !in w && |w| < room
    ensures TrimDashes(Take(w, room)) == w
  {
    LastIn(w);
    TrimSolid(w);
  }

  lemma CutBehind(w: string, joined: string, room: nat)
    requires w != "" && '-' !in w && |w| < room
    ensures var x := TrimDashes(Take(joined, room - |w| - 1));
            TrimDashes(Take(w + "-" + joined, room)) == if x == "" then w else w + "-" + x
  {
    hide TrimDashes, Take;
    TakeBehind(w + "-", joined, room);
    TrimBehind(w + "-", Take(joined, room - |w| - 1));
    DashTrimmed(w);
    if room == |w| + 1 {
      assert (w + "-")[..room] == w + "-" == w + "-" + "";
      TakeZero(joined);
    }
  }

  lemma TakeZero(s: string)
    ensures Take(s, 0) == "" && TrimDashes("") == ""
  {
  }

  lemma JoinOne(w: string)
    ensures Join([w], "-") == w
  {
  }

  lemma JoinMore(words: seq<string>)
    requires |words| > 1
    ensures Join(words, "-") == words[0] + "-" + Join(words[1..], "-")
  {
  }

  lemma JoinFit(w: string, rest: seq<string>)
    ensures Join([w] + rest, "-") == if rest == [] then w else w + "-" + Join(rest, "-")
  {
    assert ([w] + rest)[1..] == rest;
  }

  lemma FirstCut(words: seq<string>, room: nat)
    requires AreWords(words) && words != [] && 0 < room <= |words[0]|
    ensures TrimDashes(Take(Join(words, "-"), room)) == words[0][..room]
  {
    var w := words[0];
    assert w in words;
    if |words| > 1 {
      TakeBehind(w, "-" + Join(words[1..], "-"), room);
      assert w + ("-" + Join(words[1..], "-")) == w + "-" + Join(words[1..], "-");
    } else {
      TakeBehind(w, "", room);
      assert w + "" == w;
    }
    assert w[..room][room - 1] in w;
    TrimSolid(w[..room]);
  }

  /** The name is made of exactly the words that fit, or is the fallback. */
  lemma SanitizedFit(raw: string, maxlen: nat)
    ensures Sanitized(raw, maxlen) == Join(NameWords(raw, maxlen), "-")
  {
    SanitizedWords(raw, maxlen);
    WordsAre(raw);
    CutWords(Words(raw), maxlen);
    FitWords(Words(raw), maxlen);
    JoinedFilled(Fit(Words(raw), maxlen));
    JoinOne(FALLBACK);
    hide Words, TrimDashes, Fit, Sanitized, Join;
  }

  /** Two texts get the same name exactly if the words that fit are the same. */
  lemma SameName(a: string, b: string, maxlen: nat)
    ensures Sanitized(a, maxlen) == Sanitized(b, maxlen) <==> NameWords(a, maxlen) == NameWords(b, maxlen)
  {
    SanitizedFit(a, maxlen);
    SanitizedFit(b, maxlen);
    NameWordsAre(a, maxlen);
    NameWordsAre(b, maxlen);
    hide Sanitized, NameWords, Join;
    SplitBack(NameWords(a, maxlen));
    SplitBack(NameWords(b, maxlen));
  }

  lemma SplitBack(words: seq<string>)
    requires AreWords(words) && words != []
    ensures Split(Join(words, "-"), '-') == words
  {
    SplitJoin(words, '-');
  }

  lemma {:induction false} MappedConcat(a: string, b: string)
    ensures Mapped(a + b) == Mapped(a) + Mapped(b)
  {
    if a == "" {
      assert a + b == b;
    } else {
      assert (a + b)[1..] == a[1..] + b;
      MappedConcat(a[1..], b);
    }
  }

  lemma MappedDash(c: char)
    requires !IsAlnum(Lower(c))
    ensures Mapped([c]) == "-"
  {
    assert [c][1..] == "";
  }

  /** Which other character stands between two words makes no difference. */
  lemma SamePunctuation(a: string, c: char, d: char, b: string)
    requires !IsAlnum(Lower(c)) && !IsAlnum(Lower(d))
    ensures Words(a + ([c] + b)) == Words(a + ([d] + b))
  {
    MappedDash(c);
    MappedDash(d);
    hide Mapped, Lower, IsAlnum;
    MappedConcat(a, [c] + b);
    MappedConcat(a, [d] + b);
    MappedConcat([c], b);
    MappedConcat([d], b);
  }

  // ------------------------------------------------------------------ letters and digits

  /** What is kept of a letter or digit: capitals turn into the small letters 32 places on. */
  ghost predicate KeptAs(c: char, r: char) {
    if 'A' <= c <= 'Z' then r as int == c as int + 32 else r == c
  }

  ghost predicate AsciiWord(s: string) {
    forall i :: 0 <= i < |s| ==> 'a' <= s[i] <= 'z' || 'A' <= s[i] <= 'Z' || '0' <= s[i] <= '9'
  }

  lemma {:induction false} CollapseWord(s: string, lastDash: bool)
    requires AsciiWord(s)
    ensures var r := Collapse(s, lastDash);
            |r| == |s| && forall i :: 0 <= i < |s| ==> KeptAs(s[i], r[i]) && r[i] != '-'
  {
    if s != "" {
      CollapseWord(s[1..], false);
      var rest := Collapse(s[1..], false);
      assert Collapse(s, lastDash) == [Lower(s[0])] + rest;
      forall i | 0 <= i < |s|
        ensures KeptAs(s[i], ([Lower(s[0])] + rest)[i]) && ([Lower(s[0])] + rest)[i] != '-'
      {
        if i > 0 {
          assert s[1..][i - 1] == s[i];
        }
      }
    }
  }

  /** A text of letters and digits is its own name, in small letters, up to the limit. */
  lemma WordKept(s: string, maxlen: nat)
    requires s != "" && AsciiWord(s) && maxlen > 0
    ensures var r := Sanitized(s, maxlen);
            && |r| == (if |s| < maxlen then |s| else maxlen)
            && forall i :: 0 <= i < |r| ==> KeptAs(s[i], r[i])
  {
    CollapseWord(s, true);
    hide Collapse, KeptAs;
    var cut := Take(Collapse(s, true), maxlen);
    TrimSolid(cut);
  }
}
