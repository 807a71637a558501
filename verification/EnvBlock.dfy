/** The YAML env block: quoting, layout, re-indentation, and the reader that gets the list back
    (plm_k8s_template.c:463-572). */
module EnvBlock {
  import opened Strings
  import opened StrBuf

  // ------------------------------------------------------------------ quoting

  function EscapeChar(c: char): string {
    if c == '"' then "\\\""
    else if c == '\\' then "\\\\"
    else if c == '\n' then "\\n"
    else if c == '\t' then "\\t"
    else [c]
  }

  function Escape(raw: string): string {
    if raw == "" then "" else EscapeChar(raw[0]) + Escape(raw[1..])
  }

  function Quote(raw: string): string {
    "\"" + Escape(raw) + "\""
  }

  lemma {:induction false} EscapeSnoc(a: string, c: char)
    ensures Escape(a + [c]) == Escape(a) + EscapeChar(c)
  {
    if a == "" {
      assert (a + [c])[1..] == "";
    } else {
      assert (a + [c])[1..] == a[1..] + [c];
      EscapeSnoc(a[1..], c);
    }
  }

  method YamlDquote(raw: string) returns (r: string)
    ensures r == Quote(raw)
  {
    hide Escape;
    var sb := new Buffer(_ => true);
    sb.AppendN("\"");
    AppendEscaped(sb, raw);
    sb.AppendN("\"");
    var released := sb.Release();
    r := released.value;
  }

  method AppendEscaped(sb: Buffer, raw: string)
    requires sb.Valid()
    modifies sb, sb.data
    ensures sb.Valid() && (sb.data == old(sb.data) || fresh(sb.data))
    ensures old(sb.failed) ==> sb.failed
    ensures !sb.failed ==> sb.text == old(sb.text) + Escape(raw)
  {
    assert Escape("") == "" && old(sb.text) + "" == old(sb.text);
    hide EscapeChar, Escape;
    for i := 0 to |raw|
      invariant sb.Valid() && (sb.data == old(sb.data) || fresh(sb.data))
      invariant old(sb.failed) ==> sb.failed
      invariant !sb.failed ==> sb.text == old(sb.text) + Escape(raw[..i])
    {
      assert raw[..i + 1] == raw[..i] + [raw[i]];
      EscapeSnoc(raw[..i], raw[i]);
      JoinGroup(old(sb.text), Escape(raw[..i]), EscapeChar(raw[i]), Escape(raw[..i + 1]));
      sb.AppendN(EscapeChar(raw[i]));
    }
    assert raw[..|raw|] == raw;
  }

  // ------------------------------------------------------------ reading a scalar

  /** Characters a one-line double-quoted YAML scalar may hold, once \n and \t are escaped. */
  predicate Printable(v: string) {
    forall i :: 0 <= i < |v| ==> v[i] >= ' ' || v[i] == '\n' || v[i] == '\t'
  }

  /** Reads up to the closing quote, which must end the text; raw control characters and line breaks
      do not belong inside a one-line scalar. */
  function Unescape(s: string): Option<string> {
    if s == "" then None
    else if s[0] == '"' then (if |s| == 1 then Some("") else None)
    else if s[0] == '\\' then
      if |s| < 2 then None
      else
        var rest := Unescape(s[2..]);
        if rest.None? then None
        else if s[1] == '"' then Some("\"" + rest.value)
        else if s[1] == '\\' then Some("\\" + rest.value)
        else if s[1] == 'n' then Some("\n" + rest.value)
        else if s[1] == 't' then Some("\t" + rest.value)
        else None
    else if s[0] < ' ' && s[0] != '\t' then None
    else
      var rest := Unescape(s[1..]);
      if rest.None? then None else Some([s[0]] + rest.value)
  }

  function ReadScalar(s: string): Option<string> {
    if |s| > 0 && s[0] == '"' then Unescape(s[1..]) else None
  }

  /** Reading one escaped character takes it off and leaves the rest. */
  lemma UnescapeChar(c: char, rest: string)
    ensures Unescape(EscapeChar(c) + rest)
         == if Printable([c]) && Unescape(rest).Some? then Some([c] + Unescape(rest).value) else None
  {
    var s := EscapeChar(c) + rest;
    assert s[|EscapeChar(c)|..] == rest;
    assert Printable([c]) <==> [c][0] >= ' ' || [c][0] == '\n' || [c][0] == '\t';
  }

  lemma {:induction false} UnescapeEscape(v: string)
    ensures Unescape(Escape(v) + "\"") == if Printable(v) then Some(v) else None
  {
    hide Unescape;
    if v == "" {
      UnescapeQuote();
      assert Escape(v) + "\"" == "\"";
    } else {
      var rest := Escape(v[1..]) + "\"";
      UnescapeEscape(v[1..]);
      UnescapeChar(v[0], rest);
      assert Escape(v) + "\"" == EscapeChar(v[0]) + rest;
      PrintableCons(v);
    }
  }

  lemma UnescapeQuote()
    ensures Unescape("\"") == Some("")
  {
    assert "\""[0] == '"';
  }

  lemma PrintableCons(v: string)
    requires v != ""
    ensures v == [v[0]] + v[1..]
    ensures Printable(v) <==> Printable([v[0]]) && Printable(v[1..])
  {
    assert forall i :: 0 <= i < |v[1..]| ==> v[1..][i] == v[i + 1];
    if Printable([v[0]]) && Printable(v[1..]) {
      assert [v[0]][0] == v[0];
      forall i | 0 <= i < |v|
        ensures v[i] >= ' ' || v[i] == '\n' || v[i] == '\t'
      {
        if i > 0 {
          assert v[i] == v[1..][i - 1];
        }
      }
    }
  }

  /** A quoted value reads back as itself exactly when it is printable text, newlines and tabs. */
  lemma ScalarRoundTrip(v: string)
    ensures ReadScalar(Quote(v)) == if Printable(v) then Some(v) else None
  {
    UnescapeEscape(v);
    assert Quote(v)[1..] == Escape(v) + "\"";
  }

  lemma {:induction false} EscapeOneLine(v: string)
    ensures '\n' !in Escape(v)
  {
    if v != "" {
      EscapeOneLine(v[1..]);
    }
  }

  // --------------------------------------------------------------------- layout

  /** The two lines of each well-formed "KEY=VALUE" entry; entries without '=' are skipped. */
  function EntryLines(envars: seq<string>): seq<string> {
    if envars == [] then []
    else EntryLines(envars[..|envars| - 1]) + LinesOf(envars[|envars| - 1])
  }

  function LinesOf(entry: string): seq<string> {
    var eq := Find(entry, 0, "=");
    if eq.None? then []
    else ["- name: " + entry[..eq.value], "  value: " + Quote(entry[eq.value + 1..])]
  }

  function EnvText(envars: seq<string>): string {
    var lines := EntryLines(envars);
    if lines == [] then "[]" else Join(lines, "\n")
  }

  method BuildEnvBlock(envars: seq<string>) returns (r: string)
    ensures r == EnvText(envars)
  {
    assert Join([], "\n") == "";
    hide Quote, Join;
    var sb := new Buffer(_ => true);
    if |envars| == 0 {
      sb.AppendN("[]");
      var released := sb.Release();
      return released.value;
    }
    var first := true;
    for i := 0 to |envars|
      invariant sb.Valid() && fresh(sb) && fresh(sb.data)
      invariant forall n: nat :: sb.grants(n)
      invariant first <==> EntryLines(envars[..i]) == []
      invariant sb.text == Join(EntryLines(envars[..i]), "\n")
    {
      EntryLinesSnoc(envars, i);
      var eq := Find(envars[i], 0, "=");
      if eq.Some? {
        var key, val := envars[i][..eq.value], envars[i][eq.value + 1..];
        var quoted := YamlDquote(val);
        AppendEntry(sb, EntryLines(envars[..i]), first, key, quoted);
        first := false;
      }
    }
    assert envars[..|envars|] == envars;
    if first {
      sb.AppendN("[]");
    }
    var released := sb.Release();
    r := released.value;
  }

  method AppendEntry(sb: Buffer, ghost done: seq<string>, first: bool, key: string, quoted: string)
    requires sb.Valid() && sb.text == Join(done, "\n") && (first <==> done == [])
    modifies sb, sb.data
    ensures sb.Valid() && (sb.data == old(sb.data) || fresh(sb.data))
    ensures !sb.failed ==> sb.text == Join(done + ["- name: " + key, "  value: " + quoted], "\n")
  {
    hide Join;
    if !first {
      sb.AppendN("\n");
    }
    ghost var before := old(sb.text) + if first then "" else "\n";
    assert sb.failed || sb.text == before;
    sb.AppendN("- name: ");
    sb.AppendN(key);
    sb.AppendN("\n  value: ");
    sb.AppendN(quoted);
    assert "\n" + "  value: " == "\n  value: ";
    AppendTwo(done, "- name: " + key, "  value: " + quoted);
    Regroup(before, "- name: ", key, "\n", "  value: ", quoted);
  }

  lemma Regroup(a: string, n: string, k: string, b: string, v: string, q: string)
    ensures a + n + k + (b + v) + q == a + (n + k) + b + (v + q)
  {
    assert a + n + k + (b + v) + q == a + (n + k) + b + (v + q);
  }

  lemma EntryLinesSnoc(envars: seq<string>, i: nat)
    requires i < |envars|
    ensures EntryLines(envars[..i + 1]) == EntryLines(envars[..i]) + LinesOf(envars[i])
    ensures LinesOf(envars[i]) == [] ==> EntryLines(envars[..i + 1]) == EntryLines(envars[..i])
  {
    assert envars[..i + 1][..i] == envars[..i];
  }

  lemma AppendTwo(lines: seq<string>, a: string, b: string)
    ensures Join(lines + [a, b], "\n") == Join(lines, "\n") + (if lines == [] then "" else "\n") + a + "\n" + b
  {
    if lines == [] {
      assert [a, b][1..] == [b];
      assert lines + [a, b] == [a, b];
    } else {
      assert lines + [a, b] == (lines + [a]) + [b];
      JoinSnoc(lines, a, "\n");
      JoinSnoc(lines + [a], b, "\n");
    }
  }

  // ----------------------------------------------------------- reading the block

  datatype Pair = Pair(key: string, value: string) {
    function Entry(): string {
      key + "=" + value
    }
  }

  predicate IsLetter(c: char) {
    'a' <= c <= 'z' || 'A' <= c <= 'Z'
  }

  /** Letters, digits, '_', '-' and '.', at least one of them. */
  predicate PlainWord(k: string) {
    |k| > 0 && forall i :: 0 <= i < |k| ==> IsLetter(k[i]) || IsDigit(k[i]) || k[i] == '_' || k[i] == '-' || k[i] == '.'
  }

  /** The words that YAML 1.1 reads as a boolean or as null when they are not quoted. */
  const RESERVED := {"y", "Y", "yes", "Yes", "YES", "n", "N", "no", "No", "NO", "true", "True", "TRUE", "false",
                     "False", "FALSE", "on", "On", "ON", "off", "Off", "OFF", "null", "Null", "NULL"}

  /** Names that YAML reads as that text although they are not quoted: no indicator, number, boolean or null. */
  predicate PlainName(k: string) {
    PlainWord(k) && IsLetter(k[0]) && k !in RESERVED
  }

  lemma LongName(k: string)
    requires PlainWord(k) && IsLetter(k[0]) && |k| > 5
    ensures PlainName(k)
  {
  }

  function ReadLines(lines: seq<string>): Option<seq<Pair>> {
    if lines == [] then Some([])
    else if |lines| < 2 || !("- name: " <= lines[0]) || !("  value: " <= lines[1]) then None
    else
      var key := lines[0][8..];
      var value := ReadScalar(lines[1][9..]);
      var rest := ReadLines(lines[2..]);
      if value.None? || rest.None? || !PlainName(key) then None
      else Some([Pair(key, value.value)] + rest.value)
  }

  /** A reader for a YAML sequence of {name, value} mappings in the style the block is written in. */
  function ReadBlock(text: string): Option<seq<Pair>> {
    if text == "[]" then Some([]) else ReadLines(Split(text, '\n'))
  }

  function Entries(pairs: seq<Pair>): seq<string> {
    seq(|pairs|, i requires 0 <= i < |pairs| => pairs[i].Entry())
  }

  lemma EntryParts(p: Pair)
    requires PlainName(p.key)
    ensures LinesOf(p.Entry()) == ["- name: " + p.key, "  value: " + Quote(p.value)]
  {
    var e := p.Entry();
    assert At(e, |p.key|, "=");
    forall i | 0 <= i < |p.key|
      ensures !At(e, i, "=")
    {
      assert e[i..i + 1][0] == p.key[i];
    }
    assert e[..|p.key|] == p.key && e[|p.key| + 1..] == p.value;
  }

  lemma {:induction false} EntryLinesCons(envars: seq<string>)
    requires envars != []
    ensures EntryLines(envars) == LinesOf(envars[0]) + EntryLines(envars[1..])
  {
    hide LinesOf;
    if |envars| > 1 {
      var n := |envars|;
      EntryLinesCons(envars[..n - 1]);
      assert envars[..n - 1][1..] == envars[1..][..n - 2];
      assert envars[1..][n - 2] == envars[n - 1];
    }
  }

  ghost predicate PlainNames(pairs: seq<Pair>) {
    forall i :: 0 <= i < |pairs| ==> PlainName(pairs[i].key)
  }

  ghost predicate AllPrintable(pairs: seq<Pair>) {
    forall i :: 0 <= i < |pairs| ==> Printable(pairs[i].value)
  }

  lemma EntriesCons(pairs: seq<Pair>)
    requires pairs != [] && PlainNames(pairs)
    ensures EntryLines(Entries(pairs))
         == ["- name: " + pairs[0].key, "  value: " + Quote(pairs[0].value)] + EntryLines(Entries(pairs[1..]))
  {
    EntryLinesCons(Entries(pairs));
    assert Entries(pairs)[1..] == Entries(pairs[1..]);
    EntryParts(pairs[0]);
  }

  lemma {:induction false} EntryLinesShape(pairs: seq<Pair>)
    requires PlainNames(pairs)
    ensures |EntryLines(Entries(pairs))| == 2 * |pairs|
    ensures forall i :: 0 <= i < 2 * |pairs| ==> '\n' !in EntryLines(Entries(pairs))[i]
    ensures pairs != [] ==> EntryLines(Entries(pairs))[0] == "- name: " + pairs[0].key
  {
    if pairs != [] {
      EntriesCons(pairs);
      EntryLinesShape(pairs[1..]);
      EscapeOneLine(pairs[0].value);
      hide Escape, LinesOf, EntryLines, Entries;
      assert '\n' !in Quote(pairs[0].value);
      assert '\n' !in "- name: " + pairs[0].key && '\n' !in "  value: " + Quote(pairs[0].value);
    }
  }

  lemma ReadEntry(p: Pair, rest: seq<string>)
    requires PlainName(p.key)
    ensures ReadLines(["- name: " + p.key, "  value: " + Quote(p.value)] + rest)
         == if ReadScalar(Quote(p.value)).None? || ReadLines(rest).None? then None
            else Some([Pair(p.key, ReadScalar(Quote(p.value)).value)] + ReadLines(rest).value)
  {
    var name, value := "- name: " + p.key, "  value: " + Quote(p.value);
    var lines := [name, value] + rest;
    assert lines[0] == name && lines[1] == value && lines[2..] == rest;
    assert name[8..] == p.key && value[9..] == Quote(p.value);
    assert "- name: " <= name && "  value: " <= value;
  }

  lemma {:induction false} ReadEntryLines(pairs: seq<Pair>)
    requires PlainNames(pairs)
    ensures ReadLines(EntryLines(Entries(pairs))) == if AllPrintable(pairs) then Some(pairs) else None
  {
    if pairs != [] {
      var p, rest := pairs[0], EntryLines(Entries(pairs[1..]));
      EntriesCons(pairs);
      ReadEntryLines(pairs[1..]);
      ScalarRoundTrip(p.value);
      ReadEntry(p, rest);
      assert pairs == [p] + pairs[1..];
      assert AllPrintable(pairs) <==> Printable(p.value) && AllPrintable(pairs[1..]) by {
        assert forall i :: 0 <= i < |pairs[1..]| ==> pairs[1..][i] == pairs[i + 1];
        if Printable(p.value) && AllPrintable(pairs[1..]) {
          forall i | 0 <= i < |pairs|
            ensures Printable(pairs[i].value)
          {
            if i > 0 {
              assert pairs[i] == pairs[1..][i - 1];
            }
          }
        }
      }
    }
  }

  /** The lines of one more entry: name and quoted value, if it has an equals sign, and none otherwise. */
  lemma NextEntry(envars: seq<string>, name: string, value: string)
    requires '=' !in name
    ensures EntryLines(envars + [name + "=" + value])
         == EntryLines(envars) + ["- name: " + name, "  value: " + Quote(value)]
    ensures EntryLines(envars + [name]) == EntryLines(envars) && EntryLines([]) == [] && EnvText([]) == "[]"
  {
    hide Quote, Escape;
    assert (envars + [name + "=" + value])[..|envars|] == envars && (envars + [name])[..|envars|] == envars;
    EqualsAt(name, value);
    NoEquals(name);
    hide Find;
    assert EntryLines(envars) + [] == EntryLines(envars);
  }

  lemma NoEquals(name: string)
    requires '=' !in name
    ensures Find(name, 0, "=") == None
  {
    forall i | 0 <= i < |name|
      ensures !At(name, i, "=")
    {
      assert name[i..i + 1] == [name[i]];
    }
  }

  lemma EqualsAt(name: string, value: string)
    requires '=' !in name
    ensures var e := name + "=" + value;
            Find(e, 0, "=") == Some(|name|) && e[..|name|] == name && e[|name| + 1..] == value
  {
    var e := name + "=" + value;
    assert At(e, |name|, "=");
    forall i | 0 <= i < |name|
      ensures !At(e, i, "=")
    {
      assert e[i..i + 1] == [e[i]] == [name[i]];
    }
  }

  /** The block reads back as exactly the list it was built from, iff every value is printable. */
  lemma BlockRoundTrip(pairs: seq<Pair>)
    requires PlainNames(pairs)
    ensures ReadBlock(EnvText(Entries(pairs))) == if AllPrintable(pairs) then Some(pairs) else None
  {
    ReadEntryLines(pairs);
    EntryLinesShape(pairs);
    if pairs != [] {
      var lines := EntryLines(Entries(pairs));
      SplitJoin(lines, '\n');
      assert Join(lines, "\n") == lines[0] + "\n" + Join(lines[1..], "\n");
      assert Join(lines, "\n")[0] == '-';
    }
  }

  lemma {:induction false} JoinEnds(lines: seq<string>)
    requires lines != [] && lines[|lines| - 1] != ""
    ensures Join(lines, "\n") != ""
    ensures Join(lines, "\n")[|Join(lines, "\n")| - 1] == lines[|lines| - 1][|lines[|lines| - 1]| - 1]
  {
    if |lines| > 1 {
      JoinEnds(lines[1..]);
    }
  }

  // --------------------------------------------------------------- re-indentation

  /** The lines of `s`, a final newline ending the last line rather than starting another. */
  function Lines(s: string): seq<string> {
    if s == "" then []
    else
      var nl := Find(s, 0, "\n");
      if nl.None? then [s] else [s[..nl.value]] + Lines(s[nl.value + 1..])
  }

  function Reindent(block: string, indent: string): string {
    Join(Lines(block), "\n" + indent)
  }

  method AppendReindented(sb: Buffer, block: string, indent: string)
    requires sb.Valid()
    modifies sb, sb.data
    ensures sb.Valid() && (sb.data == old(sb.data) || fresh(sb.data))
    ensures old(sb.failed) ==> sb.failed
    ensures !sb.failed ==> sb.text == old(sb.text) + Reindent(block, indent)
  {
    var p, first := 0, true;
    ghost var done: seq<string> := [];
    assert block[0..] == block;
    while p < |block|
      invariant p <= |block|
      invariant sb.Valid() && (sb.data == old(sb.data) || fresh(sb.data))
      invariant old(sb.failed) ==> sb.failed
      invariant first <==> done == []
      invariant Lines(block) == done + Lines(block[p..])
      invariant !sb.failed ==> sb.text == old(sb.text) + Join(done, "\n" + indent)
    {
      var (line, next) := NextLine(block, p);
      JoinNext(old(sb.text), done, line, "\n" + indent);
      LinesStep(block, p, done);
      AppendLine(sb, first, indent, line);
      first, done, p := false, done + [line], next;
    }
    assert done == Lines(block);
  }

  /** Where the next line ends and the line after it starts. */
  function NextLine(block: string, p: nat): (r: (string, nat))
    requires p < |block|
    ensures p < r.1 <= |block|
  {
    var nl := Find(block[p..], 0, "\n");
    if nl.Some? then (block[p..][..nl.value], p + nl.value + 1) else (block[p..], |block|)
  }

  lemma LinesStep(block: string, p: nat, done: seq<string>)
    requires p < |block|
    ensures done + Lines(block[p..]) == (done + [NextLine(block, p).0]) + Lines(block[NextLine(block, p).1..])
  {
    var nl := Find(block[p..], 0, "\n");
    if nl.Some? {
      assert block[p..][nl.value + 1..] == block[p + nl.value + 1..];
    }
    assert Lines(block[p..]) == [NextLine(block, p).0] + Lines(block[NextLine(block, p).1..]);
  }

  lemma JoinNext(before: string, done: seq<string>, line: string, sep: string)
    ensures before + Join(done + [line], sep)
         == before + Join(done, sep) + (if done == [] then line else sep + line)
  {
    if done == [] {
      assert done + [line] == [line];
    } else {
      JoinSnoc(done, line, sep);
    }
  }

  method AppendLine(sb: Buffer, first: bool, indent: string, line: string)
    requires sb.Valid()
    modifies sb, sb.data
    ensures sb.Valid() && (sb.data == old(sb.data) || fresh(sb.data))
    ensures old(sb.failed) ==> sb.failed
    ensures !sb.failed ==> sb.text == old(sb.text) + (if first then line else "\n" + indent + line)
  {
    hide Join;
    if !first {
      sb.AppendN("\n");
      sb.AppendN(indent);
    }
    sb.AppendN(line);
  }

  function StripEach(lines: seq<string>, indent: string): Option<seq<string>> {
    if lines == [] then Some([])
    else
      var rest := StripEach(lines[1..], indent);
      if rest.None? || !(indent <= lines[0]) then None else Some([lines[0][|indent|..]] + rest.value)
  }

  /** Takes `indent` off every line; fails when some line does not start with it. */
  function Unindent(text: string, indent: string): Option<string> {
    var stripped := StripEach(Split(text, '\n'), indent);
    if stripped.None? then None else Some(Join(stripped.value, "\n"))
  }

  function IndentEach(lines: seq<string>, indent: string): seq<string> {
    seq(|lines|, i requires 0 <= i < |lines| => indent + lines[i])
  }

  lemma {:induction false} JoinIndented(lines: seq<string>, indent: string)
    requires lines != []
    ensures indent + Join(lines, "\n" + indent) == Join(IndentEach(lines, indent), "\n")
  {
    if |lines| > 1 {
      JoinIndented(lines[1..], indent);
      assert IndentEach(lines, indent)[1..] == IndentEach(lines[1..], indent);
      assert indent + Join(lines, "\n" + indent)
          == (indent + lines[0]) + "\n" + (indent + Join(lines[1..], "\n" + indent));
    }
  }

  lemma {:induction false} StripIndented(lines: seq<string>, indent: string)
    ensures StripEach(IndentEach(lines, indent), indent) == Some(lines)
  {
    if lines != [] {
      StripIndented(lines[1..], indent);
      assert IndentEach(lines, indent)[1..] == IndentEach(lines[1..], indent);
      assert (indent + lines[0])[|indent|..] == lines[0];
      assert lines == [lines[0]] + lines[1..];
    }
  }

  predicate EndsInNewline(s: string) {
    |s| > 0 && s[|s| - 1] == '\n'
  }

  lemma BeforeNewline(s: string, n: nat)
    requires n <= |s| && forall i :: 0 <= i < n ==> !At(s, i, "\n")
    ensures '\n' !in s[..n]
  {
    forall i | 0 <= i < n
      ensures s[i] != '\n'
    {
      assert !At(s, i, "\n");
      assert s[i..i + 1] == [s[i]];
    }
  }

  lemma {:induction false} JoinLines(s: string)
    ensures Join(Lines(s), "\n") == if EndsInNewline(s) then s[..|s| - 1] else s
    ensures s != "" ==> Lines(s) != []
    ensures forall l :: l in Lines(s) ==> '\n' !in l
  {
    if s != "" {
      var nl := Find(s, 0, "\n");
      if nl.None? {
        BeforeNewline(s, |s|);
        assert s[..|s|] == s;
      } else {
        var n := nl.value;
        BeforeNewline(s, n);
        assert s[n..n + 1] == "\n";
        JoinLines(s[n + 1..]);
        JoinFirstLine(s, n);
      }
    }
  }

  lemma JoinFirstLine(s: string, n: nat)
    requires n < |s| && s[n] == '\n'
    ensures var rest := s[n + 1..];
            (rest == "" ==> s[..n] == s[..|s| - 1])
            && (rest == "" || (EndsInNewline(s) == EndsInNewline(rest)
                  && s[..n] + "\n" + rest == s && s[..n] + "\n" + rest[..|rest| - 1] == s[..|s| - 1]))
  {
  }

  /** Every line of an indented block starts at the tag's column, and taking the column off gives the
      block back exactly when the block does not end in a newline (the last one is dropped). */
  lemma UnindentReindent(block: string, indent: string)
    requires '\n' !in indent
    ensures Unindent(indent + Reindent(block, indent), indent)
         == Some(if EndsInNewline(block) then block[..|block| - 1] else block)
  {
    JoinLines(block);
    var lines := Lines(block);
    if lines == [] {
      assert indent + Reindent(block, indent) == indent;
      SplitField(indent, '\n');
      StripIndented([""], indent);
      assert IndentEach([""], indent) == [indent];
    } else {
      JoinIndented(lines, indent);
      SplitJoin(IndentEach(lines, indent), '\n');
      StripIndented(lines, indent);
    }
  }

  lemma BlockEnd(pairs: seq<Pair>)
    requires PlainNames(pairs)
    ensures !EndsInNewline(EnvText(Entries(pairs)))
  {
    EntryLinesShape(pairs);
    if pairs != [] {
      var n := |pairs| - 1;
      var lines := EntryLines(Entries(pairs));
      EntryLinesSnoc(Entries(pairs), n);
      assert Entries(pairs)[..n + 1] == Entries(pairs);
      assert Entries(pairs)[n] == pairs[n].Entry();
      EntryParts(pairs[n]);
      assert lines[|lines| - 1] == "  value: " + Quote(pairs[n].value);
      JoinEnds(lines);
    }
  }

  /** From the list to the indented text and back: at any column the reader recovers the list, iff every
      value is printable. */
  lemma PipelineRoundTrip(pairs: seq<Pair>, indent: string)
    requires PlainNames(pairs) && '\n' !in indent
    ensures Unindent(indent + Reindent(EnvText(Entries(pairs)), indent), indent).Some?
    ensures ReadBlock(Unindent(indent + Reindent(EnvText(Entries(pairs)), indent), indent).value)
         == if AllPrintable(pairs) then Some(pairs) else None
  {
    BlockEnd(pairs);
    UnindentReindent(EnvText(Entries(pairs)), indent);
    BlockRoundTrip(pairs);
  }

  // ------------------------------------------------- a block behind other entries

  lemma {:induction false} EntryLinesConcat(a: seq<string>, b: seq<string>)
    ensures EntryLines(a + b) == EntryLines(a) + EntryLines(b)
  {
    hide LinesOf;
    if b == [] {
      assert a + b == a;
    } else {
      var n := |b| - 1;
      assert (a + b)[..|a| + n] == a + b[..n] && (a + b)[|a| + n] == b[n];
      EntryLinesConcat(a, b[..n]);
    }
  }

  lemma {:induction false} JoinConcat(a: seq<string>, b: seq<string>, sep: string)
    requires a != [] && b != []
    ensures Join(a + b, sep) == Join(a, sep) + sep + Join(b, sep)
  {
    if |a| == 1 {
      assert (a + b)[1..] == b;
    } else {
      assert (a + b)[1..] == a[1..] + b;
      JoinConcat(a[1..], b, sep);
      var (x, y) := (Join(a[1..], sep), Join(b, sep));
      assert Join(a + b, sep) == a[0] + sep + (x + sep + y);
      JoinGroup(a[0] + sep, x, sep + y, x + sep + y);
    }
  }

  lemma JoinGroup(a: string, b: string, c: string, bc: string)
    requires bc == b + c
    ensures a + bc == a + b + c
  {
  }

  lemma {:induction false} BrokenTail(pairs: seq<Pair>)
    requires PlainNames(pairs)
    ensures ReadLines(EntryLines(Entries(pairs)) + ["[]"]) == None
  {
    if pairs != [] {
      var rest := EntryLines(Entries(pairs[1..])) + ["[]"];
      EntriesCons(pairs);
      BrokenTail(pairs[1..]);
      ReadEntry(pairs[0], rest);
      hide EntryLines, Entries, ReadLines, Quote, ReadScalar;
      var head := ["- name: " + pairs[0].key, "  value: " + Quote(pairs[0].value)];
      assert head + EntryLines(Entries(pairs[1..])) + ["[]"] == head + rest;
    }
  }

  lemma NothingAppended(own: seq<Pair>)
    requires own != [] && PlainNames(own)
    ensures ReadBlock(EnvText(Entries(own)) + "\n" + EnvText(Entries([]))) == None
  {
    EntryLinesShape(own);
    var a := EntryLines(Entries(own));
    JoinSnoc(a, "[]", "\n");
    BrokenTail(own);
    NotEmptyList(own, ["[]"]);
    SplitJoin(a + ["[]"], '\n');
    assert Entries([]) == [];
    hide Join, Split, Entries, ReadLines;
  }

  lemma LinesAppended(own: seq<Pair>, pairs: seq<Pair>)
    requires own != [] && pairs != [] && PlainNames(own) && PlainNames(pairs)
    ensures var a, b := EntryLines(Entries(own)), EntryLines(Entries(pairs));
            a != [] && b != [] && EntryLines(Entries(own + pairs)) == a + b
  {
    hide *;
    EntryLinesSome(own);
    EntryLinesSome(pairs);
    EntriesConcat(own, pairs);
    EntryLinesConcat(Entries(own), Entries(pairs));
  }

  lemma EntryLinesSome(pairs: seq<Pair>)
    requires pairs != [] && PlainNames(pairs)
    ensures EntryLines(Entries(pairs)) != []
  {
    EntryLinesShape(pairs);
  }

  lemma EntriesConcat(a: seq<Pair>, b: seq<Pair>)
    ensures Entries(a + b) == Entries(a) + Entries(b)
  {
  }

  lemma TextOfLines(envars: seq<string>)
    requires EntryLines(envars) != []
    ensures EnvText(envars) == Join(EntryLines(envars), "\n")
  {
  }

  lemma TextAppended(own: seq<Pair>, pairs: seq<Pair>)
    requires own != [] && pairs != [] && PlainNames(own) && PlainNames(pairs)
    ensures EnvText(Entries(own)) + "\n" + EnvText(Entries(pairs)) == EnvText(Entries(own + pairs))
  {
    hide *;
    LinesAppended(own, pairs);
    TextOfLines(Entries(own));
    TextOfLines(Entries(pairs));
    TextOfLines(Entries(own + pairs));
    JoinConcat(EntryLines(Entries(own)), EntryLines(Entries(pairs)), "\n");
  }

  /** A template may list entries of its own and then the env tag, as the default one does. What a reader gets
      is the whole list exactly when there is something to add: the "[]" of an empty list breaks the
      sequence it lands in. */
  lemma BlockAppended(own: seq<Pair>, pairs: seq<Pair>)
    requires own != [] && PlainNames(own) && AllPrintable(own) && PlainNames(pairs)
    ensures ReadBlock(EnvText(Entries(own)) + "\n" + EnvText(Entries(pairs)))
         == if pairs != [] && AllPrintable(pairs) then Some(own + pairs) else None
  {
    hide EnvText, ReadBlock, PlainName, Printable;
    if pairs == [] {
      NothingAppended(own);
    } else {
      TextAppended(own, pairs);
      BlockRoundTrip(own + pairs);
      assert forall i :: 0 <= i < |pairs| ==> (own + pairs)[|own| + i] == pairs[i];
    }
  }

  lemma NotEmptyList(pairs: seq<Pair>, more: seq<string>)
    requires PlainNames(pairs) && pairs != [] && more != []
    ensures Join(EntryLines(Entries(pairs)) + more, "\n") != "[]"
  {
    EntryLinesShape(pairs);
    var lines := EntryLines(Entries(pairs)) + more;
    assert Join(lines, "\n") == lines[0] + "\n" + Join(lines[1..], "\n");
    assert Join(lines, "\n")[0] == '-';
  }
}
