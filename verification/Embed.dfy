/** The built-in template: the generator that prints template text as C string literals, and what a C11
    compiler reads back out of them (contrib/embed-default-template.py). */
module Embed {
  import opened Strings
  import opened EnvBlock

  const HEAD := "const char prte_plm_k8s_default_template[] ="

  // ------------------------------------------------------------------- the generator

  /** Reading a file in text mode: every line break becomes a newline. */
  function Universal(t: string): string {
    if t == "" then ""
    else if t[0] == '\r' then "\n" + Universal(if |t| > 1 && t[1] == '\n' then t[2..] else t[1..])
    else [t[0]] + Universal(t[1..])
  }

  function TemplateLines(u: string): seq<string> {
    var lines := Split(u, '\n');
    if lines[|lines| - 1] == "" then lines[..|lines| - 1] else lines
  }

  /** str.replace for a single character. */
  function Replace(s: string, c: char, text: string): string {
    if s == "" then "" else (if s[0] == c then text else [s[0]]) + Replace(s[1..], c, text)
  }

  function Escaped(line: string): string {
    Replace(Replace(line, '\\', "\\\\"), '"', "\\\"")
  }

  function Row(line: string): string {
    "    \"" + Escaped(line) + "\\n\""
  }

  /** The rows of the declaration and its end. */
  function Rows(lines: seq<string>): string {
    if lines == [] then ";\n" else "\n" + Row(lines[0]) + Rows(lines[1..])
  }

  method Generate(text: string) returns (source: string)
    ensures source == HEAD + Rows(TemplateLines(Universal(text)))
  {
    hide Row, Join, Universal;
    var lines := Split(Universal(text), '\n');
    if lines[|lines| - 1] == "" {
      lines := lines[..|lines| - 1];
    }
    assert lines == TemplateLines(Universal(text));
    hide TemplateLines, Rows, Split;
    var body := [HEAD];
    JoinOne(HEAD);
    assert lines[0..] == lines;
    for i := 0 to |lines|
      invariant |body| == i + 1
      invariant Join(body, "\n") + Rows(lines[i..]) == HEAD + Rows(lines)
    {
      JoinSnoc(body, Row(lines[i]), "\n");
      NextRow(Join(body, "\n"), lines, i);
      body := body + [Row(lines[i])];
    }
    assert lines[|lines|..] == [];
    NoRows();
    EndRow(body[..|body| - 1], body[|body| - 1]);
    assert body[..|body| - 1] + [body[|body| - 1]] == body;
    body := body[..|body| - 1] + [body[|body| - 1] + ";"];
    source := Join(body, "\n") + "\n";
  }

  lemma JoinOne(s: string)
    ensures Join([s], "\n") == s
  {
  }

  lemma NoRows()
    ensures Rows([]) == ";\n"
  {
  }

  lemma NextRow(done: string, lines: seq<string>, i: nat)
    requires i < |lines|
    ensures done + "\n" + Row(lines[i]) + Rows(lines[i + 1..]) == done + Rows(lines[i..])
  {
    hide Row;
    assert lines[i..][1..] == lines[i + 1..];
    assert done + ("\n" + Row(lines[i]) + Rows(lines[i + 1..])) == done + "\n" + Row(lines[i]) + Rows(lines[i + 1..]);
  }

  lemma EndRow(init: seq<string>, last: string)
    ensures Join(init + [last + ";"], "\n") + "\n" == Join(init + [last], "\n") + ";\n"
  {
    LastJoined(init, last);
    LastJoined(init, last + ";");
    hide Join;
    EndText(if init == [] then "" else Join(init, "\n") + "\n", last);
  }

  lemma LastJoined(init: seq<string>, last: string)
    ensures Join(init + [last], "\n") == (if init == [] then "" else Join(init, "\n") + "\n") + last
  {
    if init == [] {
      assert init + [last] == [last];
    } else {
      JoinSnoc(init, last, "\n");
    }
  }

  lemma EndText(before: string, last: string)
    ensures before + (last + ";") + "\n" == before + last + ";\n"
  {
    assert ";" + "\n" == ";\n";
  }

  // ---------------------------------------------------------- translation phases of C11

  /** Section 5.2.1.1: what "??c" stands for. */
  function Trigraph(c: char): Option<char> {
    match c
    case '=' => Some('#')
    case '/' => Some('\\')
    case '\'' => Some('^')
    case '(' => Some('[')
    case ')' => Some(']')
    case '!' => Some('|')
    case '<' => Some('{')
    case '>' => Some('}')
    case '-' => Some('~')
    case _ => None
  }

  predicate TrigraphAt(s: string) {
    |s| >= 3 && s[0] == '?' && s[1] == '?' && Trigraph(s[2]).Some?
  }

  /** Phase 1, for a compiler that honours trigraphs or (`on` false) one that does not. */
  function Phase1(s: string, on: bool): string {
    if s == "" then ""
    else if on && TrigraphAt(s) then [Trigraph(s[2]).value] + Phase1(s[3..], on)
    else [s[0]] + Phase1(s[1..], on)
  }

  /** Phase 2: a backslash at the end of a line joins it with the next. */
  function Phase2(s: string): string {
    if s == "" then ""
    else if |s| >= 2 && s[0] == '\\' && s[1] == '\n' then Phase2(s[2..])
    else [s[0]] + Phase2(s[1..])
  }

  predicate IsSpace(c: char) {
    c == ' ' || c == '\n' || c == '\t' || c == '\U{000B}' || c == '\U{000C}'
  }

  predicate IsHex(c: char) {
    IsDigit(c) || 'a' <= c <= 'f' || 'A' <= c <= 'F'
  }

  predicate IsWord(c: char) {
    IsDigit(c) || 'a' <= c <= 'z' || 'A' <= c <= 'Z'
  }

  function HexValue(c: char): nat
    requires IsHex(c)
  {
    if IsDigit(c) then c as int - '0' as int
    else if 'a' <= c <= 'f' then c as int - 'a' as int + 10 else c as int - 'A' as int + 10
  }

  /** How many digits of that base stand at the start, up to `most`. */
  function Run(s: string, octal: bool, most: nat): (n: nat)
    ensures n <= |s| && n <= most && forall i :: 0 <= i < n ==> IsHex(s[i]) && (octal ==> '0' <= s[i] <= '7')
  {
    if s != "" && most > 0 && IsHex(s[0]) && (octal ==> '0' <= s[0] <= '7') then 1 + Run(s[1..], octal, most - 1) else 0
  }

  function Number(s: string, radix: nat): nat
    requires forall i :: 0 <= i < |s| ==> IsHex(s[i])
  {
    if s == "" then 0 else Number(s[..|s| - 1], radix) * radix + HexValue(s[|s| - 1])
  }

  /** A universal character name must not name a character of the basic set, but for three, nor a surrogate. */
  function CharOf(v: nat, ucn: bool): Option<char> {
    if ucn then
      if v in {0x24, 0x40, 0x60} || 0xA0 <= v < 0xD800 || 0xE000 <= v < 0x11_0000 then Some(v as char) else None
    else if v < 256 then Some(v as char) else None
  }

  function SimpleEscape(c: char): Option<char> {
    match c
    case '\'' => Some('\'')
    case '"' => Some('"')
    case '?' => Some('?')
    case '\\' => Some('\\')
    case 'a' => Some('\U{0007}')
    case 'b' => Some('\U{0008}')
    case 'f' => Some('\U{000C}')
    case 'n' => Some('\n')
    case 'r' => Some('\r')
    case 't' => Some('\t')
    case 'v' => Some('\U{000B}')
    case _ => None
  }

  /** Octal and hexadecimal escapes, and universal character names. */
  function NumericEscape(s: string): (r: Option<(char, nat)>)
    requires s != ""
    ensures r.Some? ==> 1 <= r.value.1 <= |s| && forall i :: 0 <= i < r.value.1 ==> IsWord(s[i])
  {
    if '0' <= s[0] <= '7' then
      var n := Run(s, true, 3);
      var c := CharOf(Number(s[..n], 8), false);
      if c.None? then None else Some((c.value, n))
    else if s[0] == 'x' || s[0] == 'u' || s[0] == 'U' then
      var size := if s[0] == 'x' then |s| else if s[0] == 'u' then 4 else 8;
      var n := Run(s[1..], false, size);
      var c := if n == 0 || (s[0] != 'x' && n < size) then None
               else CharOf(Number(s[1..n + 1], 16), s[0] != 'x');
      if c.None? then None else Some((c.value, n + 1))
    else None
  }

  /** Sections 6.4.4.4 and 6.4.3: the character an escape sequence stands for, and how many characters follow
      the backslash. */
  function EscapeSequence(s: string): (r: Option<(char, nat)>)
    ensures r.Some? ==> 1 <= r.value.1 <= |s|
    ensures r.Some? && r.value.1 > 1 ==> forall i :: 0 <= i < r.value.1 ==> IsWord(s[i])
    ensures s != "" && s[0] in "#^[]|{}~\n" ==> r.None?
    ensures s != "" && (s[0] == '\\' || s[0] == '"') ==> r == Some((s[0], 1))
    ensures s != "" && s[0] == 'n' ==> r == Some(('\n', 1))
  {
    if s == "" then None
    else
      var simple := SimpleEscape(s[0]);
      if simple.Some? then Some((simple.value, 1)) else NumericEscape(s)
  }

  /** Phase 5: the characters of a string literal up to its closing quote, and what follows the quote. */
  function Body(s: string): (r: Option<(string, string)>)
    ensures r.Some? ==> |r.value.1| < |s|
    decreases |s|
  {
    if s == "" || s[0] == '\n' then None
    else if s[0] == '"' then Some(("", s[1..]))
    else
      var unit := if s[0] == '\\' then EscapeSequence(s[1..]) else Some((s[0], 0));
      if unit.None? then None
      else
        var rest := Body(s[1 + unit.value.1..]);
        if rest.None? then None else Some(([unit.value.0] + rest.value.0, rest.value.1))
  }

  /** Phase 6: adjacent literals are one; at least one, then a semicolon and nothing more. */
  function Literals(s: string, any: bool): Option<string>
    decreases |s|
  {
    if s == "" then None
    else if IsSpace(s[0]) then Literals(s[1..], any)
    else if s[0] == ';' then
      if any && forall i :: 1 <= i < |s| ==> IsSpace(s[i]) then Some("") else None
    else if s[0] == '"' then
      var first := Body(s[1..]);
      if first.None? then None
      else
        var rest := Literals(first.value.1, true);
        if rest.None? then None else Some(first.value.0 + rest.value)
    else None
  }

  /** A C string ends at its first NUL. */
  function UpToNul(s: string): string {
    if s == "" || s[0] == '\0' then "" else [s[0]] + UpToNul(s[1..])
  }

  /** What the component gets to see of the declaration. */
  function Compiled(source: string, trigraphs: bool): Option<string> {
    var s, head := Phase2(Phase1(source, trigraphs)), "const char prte_plm_k8s_default_template[] =";
    if head <= s then
      var r := Literals(s[|head|..], false);
      if r.None? then None else Some(UpToNul(r.value))
    else None
  }

  // ------------------------------------------------------------ what the phases leave

  /** A template line as it stands in the source after phases 1 and 2. */
  function Emitted(line: string, on: bool): string {
    if line == "" then ""
    else if on && TrigraphAt(line) then [Trigraph(line[2]).value] + Emitted(line[3..], on)
    else Quoted(line[0]) + Emitted(line[1..], on)
  }

  function Quoted(c: char): string {
    if c == '\\' then "\\\\" else if c == '"' then "\\\"" else [c]
  }

  function EmittedRows(lines: seq<string>, on: bool): string {
    if lines == [] then ";\n" else "\n    \"" + (Emitted(lines[0], on) + "\\n\"" + EmittedRows(lines[1..], on))
  }

  lemma {:induction false} EscapedQuoted(line: string)
    ensures Escaped(line) == Emitted(line, false)
  {
    if line != "" {
      EscapedQuoted(line[1..]);
      ReplaceConcat(if line[0] == '\\' then "\\\\" else [line[0]], Replace(line[1..], '\\', "\\\\"), '"', "\\\"");
      ReplaceHead(line[0]);
    }
  }

  lemma ReplaceHead(c: char)
    ensures Replace(if c == '\\' then "\\\\" else [c], '"', "\\\"") == Quoted(c)
  {
    if c == '\\' {
      assert "\\\\"[1..] == "\\" && "\\"[1..] == "";
      assert Replace("\\", '"', "\\\"") == "\\";
    } else {
      assert [c][1..] == "";
    }
  }

  lemma {:induction false} ReplaceConcat(a: string, b: string, c: char, text: string)
    ensures Replace(a + b, c, text) == Replace(a, c, text) + Replace(b, c, text)
  {
    if a == "" {
      assert a + b == b;
    } else {
      assert (a + b)[1..] == a[1..] + b;
      ReplaceConcat(a[1..], b, c, text);
    }
  }

  lemma EmittedHead(line: string, rest: string)
    requires rest != "" && rest[0] == '\\'
    ensures var s := Emitted(line, false) + rest;
            if line == "" then s == rest
            else s == Quoted(line[0]) + (Emitted(line[1..], false) + rest) && s[0] == Quoted(line[0])[0]
  {
  }

  /** The escapes neither hide nor make trigraphs. */
  lemma TrigraphKept(line: string, rest: string)
    requires rest != "" && rest[0] == '\\'
    ensures TrigraphAt(Emitted(line, false) + rest) <==> TrigraphAt(line)
  {
    EmittedHead(line, rest);
    hide Emitted, Trigraph;
    if line != "" && line[0] == '?' {
      EmittedHead(line[1..], rest);
      var s, t := Emitted(line, false) + rest, Emitted(line[1..], false) + rest;
      assert s == "?" + t && s[1] == t[0];
      if |line| > 1 && line[1] == '?' {
        EmittedHead(line[2..], rest);
        var u := Emitted(line[2..], false) + rest;
        assert t == "?" + u && s[2] == u[0];
        QuotedTrigraph(line);
      }
    }
  }

  lemma QuotedTrigraph(line: string)
    ensures |line| > 2 ==> (Trigraph(Quoted(line[2])[0]).Some? <==> Trigraph(line[2]).Some?)
    ensures Trigraph('\\').None?
  {
  }

  lemma Phase1Plain(c: char, rest: string, on: bool)
    requires !TrigraphAt([c] + rest)
    ensures Phase1([c] + rest, on) == [c] + Phase1(rest, on)
  {
    assert ([c] + rest)[1..] == rest;
  }

  lemma {:induction false} Phase1Line(line: string, rest: string, on: bool)
    requires rest != "" && rest[0] == '\\'
    ensures Phase1(Emitted(line, false) + rest, on) == Emitted(line, on) + Phase1(rest, on)
  {
    hide Phase1, Emitted, Quoted, Trigraph;
    EmittedHead(line, rest);
    EmittedStep(line, on);
    if line == "" {
      assert "" + Phase1(rest, on) == Phase1(rest, on);
    } else if on && TrigraphAt(line) {
      EmittedHead(line[1..], rest);
      EmittedHead(line[2..], rest);
      assert line[1..][1..] == line[2..] && line[2..][1..] == line[3..];
      TrigraphText(line, Emitted(line[3..], false) + rest, Emitted(line, false) + rest, on);
      Phase1Line(line[3..], rest, on);
      Assoc([Trigraph(line[2]).value], Emitted(line[3..], on), Phase1(rest, on));
    } else {
      TrigraphKept(line, rest);
      Phase1Line(line[1..], rest, on);
      Phase1Quoted(line[0], Emitted(line[1..], false) + rest, on);
      Assoc(Quoted(line[0]), Emitted(line[1..], on), Phase1(rest, on));
    }
  }

  lemma Assoc(a: string, b: string, c: string)
    ensures a + (b + c) == (a + b) + c
  {
  }

  lemma EmittedStep(line: string, on: bool)
    ensures Emitted(line, on)
         == if line == "" then ""
            else if on && TrigraphAt(line) then [Trigraph(line[2]).value] + Emitted(line[3..], on)
            else Quoted(line[0]) + Emitted(line[1..], on)
  {
  }

  lemma TrigraphText(line: string, tail: string, s: string, on: bool)
    requires on && TrigraphAt(line)
    requires s == Quoted(line[0]) + (Quoted(line[1]) + (Quoted(line[2]) + tail))
    ensures Phase1(s, on) == [Trigraph(line[2]).value] + Phase1(tail, on)
  {
    assert s[0] == '?' && s[1] == '?' && s[2] == line[2] && s[3..] == tail;
  }

  lemma Phase1Quoted(c: char, tail: string, on: bool)
    requires !(on && TrigraphAt(Quoted(c) + tail))
    ensures Phase1(Quoted(c) + tail, on) == Quoted(c) + Phase1(tail, on)
  {
    if Quoted(c) == [c] {
      assert ([c] + tail)[1..] == tail;
    } else {
      var d := Quoted(c)[1];
      assert Quoted(c) + tail == ['\\'] + ([d] + tail);
      Phase1Plain('\\', [d] + tail, on);
      Phase1Plain(d, tail, on);
    }
  }

  lemma {:induction false} Phase1Text(a: string, rest: string, on: bool)
    requires '?' !in a
    ensures Phase1(a + rest, on) == a + Phase1(rest, on)
  {
    if a == "" {
      assert a + rest == rest;
    } else {
      assert (a + rest)[1..] == a[1..] + rest;
      Phase1Text(a[1..], rest, on);
      assert a == [a[0]] + a[1..];
    }
  }

  lemma {:induction false} Phase1Rows(lines: seq<string>, on: bool)
    ensures Phase1(Rows(lines), on) == EmittedRows(lines, on)
  {
    if lines == [] {
      Phase1Text(";\n", "", on);
      assert ";\n" + "" == ";\n";
    } else {
      var line, rest := lines[0], Rows(lines[1..]);
      Phase1Rows(lines[1..], on);
      hide Phase1, Emitted, Escaped;
      EscapedQuoted(line);
      Phase1Text("\n    \"", Emitted(line, false) + ("\\n\"" + rest), on);
      Phase1Line(line, "\\n\"" + rest, on);
      Phase1Text("\\n\"", rest, on);
      RowText(Emitted(line, false), rest);
      Assoc(Emitted(line, on), "\\n\"", EmittedRows(lines[1..], on));
    }
  }

  lemma RowText(e: string, rest: string)
    ensures "\n" + ("    \"" + e + "\\n\"") + rest == "\n    \"" + (e + ("\\n\"" + rest))
  {
    assert "\n" + "    \"" == "\n    \"";
    assert "\n" + ("    \"" + e + "\\n\"") + rest == ("\n" + "    \"") + (e + ("\\n\"" + rest));
  }

  lemma {:induction false} Phase2Text(a: string, rest: string)
    requires '\n' !in a && (a == "" || a[|a| - 1] != '\\')
    ensures Phase2(a + rest) == a + Phase2(rest)
  {
    if a == "" {
      assert a + rest == rest;
    } else {
      assert (a + rest)[1..] == a[1..] + rest;
      assert |a| > 1 ==> (a + rest)[1] == a[1];
      Phase2Text(a[1..], rest);
      assert a == [a[0]] + a[1..];
    }
  }

  lemma {:induction false} EmittedOneLine(line: string, on: bool)
    requires '\n' !in line
    ensures '\n' !in Emitted(line, on)
  {
    if line != "" {
      if on && TrigraphAt(line) {
        EmittedOneLine(line[3..], on);
      } else {
        EmittedOneLine(line[1..], on);
      }
    }
  }

  ghost predicate OneLiners(lines: seq<string>) {
    forall i :: 0 <= i < |lines| ==> '\n' !in lines[i]
  }

  lemma {:induction false} Phase2Rows(lines: seq<string>, on: bool)
    requires OneLiners(lines)
    ensures Phase2(EmittedRows(lines, on)) == EmittedRows(lines, on)
  {
    if lines == [] {
      Phase2Text(";", "\n");
      assert Phase2("\n") == "\n";
      assert ";" + "\n" == ";\n";
    } else {
      var e, rest := Emitted(lines[0], on), EmittedRows(lines[1..], on);
      EmittedOneLine(lines[0], on);
      Phase2Rows(lines[1..], on);
      hide Emitted, EmittedRows;
      Phase2Break(e, rest);
      EmittedRowsStep(lines, on);
    }
  }

  lemma EmittedRowsStep(lines: seq<string>, on: bool)
    requires lines != []
    ensures EmittedRows(lines, on) == "\n    \"" + (Emitted(lines[0], on) + "\\n\"" + EmittedRows(lines[1..], on))
  {
  }

  lemma Phase2Break(e: string, rest: string)
    requires '\n' !in e && Phase2(rest) == rest
    ensures Phase2("\n    \"" + (e + "\\n\"" + rest)) == "\n    \"" + (e + "\\n\"" + rest)
  {
    var a := "    \"" + e + "\\n\"";
    Phase2Text(a, rest);
    assert "\n    \"" + (e + "\\n\"" + rest) == ['\n'] + (a + rest);
    var s := ['\n'] + (a + rest);
    assert s[1..] == a + rest;
  }

  // ------------------------------------------------------------------- reading a line

  predicate HasTrigraph(s: string) {
    s != "" && (TrigraphAt(s) || HasTrigraph(s[1..]))
  }

  /** What is left of a literal when the rest `line` of its template line is still to be read. */
  function Stream(line: string, tail: string, on: bool): string {
    Emitted(line, on) + ("\\n\"" + tail)
  }

  lemma StreamStep(line: string, tail: string, on: bool)
    ensures Stream(line, tail, on)
         == if line == "" then "\\n\"" + tail
            else if on && TrigraphAt(line) then [Trigraph(line[2]).value] + Stream(line[3..], tail, on)
            else Quoted(line[0]) + Stream(line[1..], tail, on)
  {
    EmittedStep(line, on);
    hide Emitted;
    if line != "" && !(on && TrigraphAt(line)) {
      Assoc(Quoted(line[0]), Emitted(line[1..], on), "\\n\"" + tail);
    } else if line != "" {
      Assoc([Trigraph(line[2]).value], Emitted(line[3..], on), "\\n\"" + tail);
    }
  }

  /** Reading one more character of a literal. */
  lemma BodyPlain(c: char, s: string)
    requires c != '\n' && c != '"' && c != '\\'
    ensures Body([c] + s) == var rest := Body(s);
              if rest.None? then None else Some(([c] + rest.value.0, rest.value.1))
  {
    assert ([c] + s)[1..] == s;
  }

  lemma BodyEscape(s: string)
    ensures Body("\\" + s) == var unit := EscapeSequence(s);
              if unit.None? then None
              else var rest := Body(s[unit.value.1..]);
                   if rest.None? then None else Some(([unit.value.0] + rest.value.0, rest.value.1))
  {
    hide EscapeSequence;
    assert ("\\" + s)[1..] == s;
  }

  lemma BodyPair(c: char, s: string)
    requires c == '\\' || c == '"' || c == 'n'
    ensures Body(['\\', c] + s) == var rest := Body(s);
              if rest.None? then None else Some(([if c == 'n' then '\n' else c] + rest.value.0, rest.value.1))
  {
    assert ['\\', c] + s == "\\" + ([c] + s);
    BodyEscape([c] + s);
    assert ([c] + s)[1..] == s;
  }

  lemma BodyEnd(tail: string)
    ensures Body("\\n\"" + tail) == Some(("\n", tail))
  {
    assert "\\n\"" + tail == ['\\', 'n'] + ("\"" + tail);
    BodyPair('n', "\"" + tail);
    assert ("\"" + tail)[1..] == tail;
    assert ['\n'] + "" == "\n";
  }

  lemma BodyQuoted(c: char, s: string)
    requires c != '\n'
    ensures Body(Quoted(c) + s) == var rest := Body(s);
              if rest.None? then None else Some(([c] + rest.value.0, rest.value.1))
  {
    if Quoted(c) == [c] {
      BodyPlain(c, s);
    } else {
      assert Quoted(c) == ['\\', c];
      BodyPair(c, s);
    }
  }

  /** A line without trigraphs is read back as itself, with its line break. */
  lemma {:induction false} BodyGood(line: string, tail: string, on: bool)
    requires '\n' !in line && !(on && HasTrigraph(line))
    ensures Body(Stream(line, tail, on)) == Some((line + "\n", tail))
  {
    StreamStep(line, tail, on);
    hide Body, Stream, Quoted;
    if line == "" {
      BodyEnd(tail);
      assert "" + "\n" == "\n";
    } else {
      BodyGood(line[1..], tail, on);
      BodyQuoted(line[0], Stream(line[1..], tail, on));
      assert [line[0]] + (line[1..] + "\n") == line + "\n";
    }
  }

  /** The closing quote came too early: part of the line is left outside the literal. */
  ghost predicate Stray(rest: string, tail: string, on: bool) {
    exists line :: rest == Stream(line, tail, on)
  }

  /** What a trigraph can turn into. */
  lemma TrigraphChar(c: char)
    requires Trigraph(c).Some?
    ensures Trigraph(c).value in "#\\^[]|{}~"
  {
    var r := Trigraph(c).value;
    var t := "#\\^[]|{}~";
    assert t[0] == '#' && t[1] == '\\' && t[2] == '^' && t[3] == '[' && t[4] == ']';
    assert t[5] == '|' && t[6] == '{' && t[7] == '}' && t[8] == '~';
  }

  /** Such a rest does not compile. */
  lemma {:induction false} StrayFails(line: string, tail: string, on: bool, any: bool)
    ensures Literals(Stream(line, tail, on), any) == None
  {
    StreamStep(line, tail, on);
    hide Stream, Body;
    if line == "" {
    } else if on && TrigraphAt(line) {
      TrigraphChar(line[2]);
    } else {
      var rest := Stream(line[1..], tail, on);
      StrayFails(line[1..], tail, on, any);
      assert (Quoted(line[0]) + rest)[1..] == rest || Quoted(line[0])[0] == '\\';
      if line[0] == ';' {
        StreamBackslash(line[1..], tail, on);
      }
    }
  }

  lemma StreamBackslash(line: string, tail: string, on: bool)
    ensures '\\' in Stream(line, tail, on)
  {
    assert Stream(line, tail, on)[|Emitted(line, on)|] == '\\';
  }

  /** A numeric escape takes whole characters of the line with it. */
  lemma {:induction false} WordsOfLine(line: string, tail: string, on: bool, n: nat)
    requires n <= |Stream(line, tail, on)| && forall i :: 0 <= i < n ==> IsWord(Stream(line, tail, on)[i])
    ensures n <= |line| && Stream(line, tail, on)[n..] == Stream(line[n..], tail, on)
  {
    if n > 0 {
      StreamStep(line, tail, on);
      hide Stream, Emitted;
      assert IsWord(Stream(line, tail, on)[0]);
      if line != "" && on && TrigraphAt(line) {
        TrigraphChar(line[2]);
      } else if line != "" {
        var s, rest := Stream(line, tail, on), Stream(line[1..], tail, on);
        assert s == [line[0]] + rest;
        WordsTail(s, rest, n);
        WordsOfLine(line[1..], tail, on, n - 1);
        assert line[1..][n - 1..] == line[n..];
      }
    }
  }

  lemma WordsTail(s: string, rest: string, n: nat)
    requires 0 < n <= |s| && s[1..] == rest && forall i :: 0 <= i < n ==> IsWord(s[i])
    ensures s[n..] == rest[n - 1..] && forall i :: 0 <= i < n - 1 ==> IsWord(rest[i])
  {
    assert forall i :: 0 <= i < n - 1 ==> rest[i] == s[i + 1];
  }

  /** How much longer than the line its reading can be. */
  function Slack(line: string, on: bool): int {
    if on && HasTrigraph(line) then -1 else 1
  }

  lemma SlackStep(line: string, on: bool)
    requires line != ""
    ensures Slack(line, on) == if on && TrigraphAt(line) then -1 else Slack(line[1..], on)
    ensures forall k :: 0 <= k <= |line| ==> Slack(line[k..], on) <= 1
  {
  }

  /** What a reading of one line may yield: no more than the line and its break, and two characters less for a
      trigraph - or a rest that does not compile. */
  ghost predicate Bounded(s: string, most: int, tail: string, on: bool) {
    var b := Body(s);
    b.Some? ==> Stray(b.value.1, tail, on) || (b.value.1 == tail && |b.value.0| <= most)
  }

  /** One character read before a rest that is bounded. */
  lemma BoundedOne(s: string, rest: string, c: char, most: int, more: int, tail: string, on: bool)
    requires Bounded(rest, most, tail, on) && most + 1 <= more
    requires Body(s) == var b := Body(rest); if b.None? then None else Some(([c] + b.value.0, b.value.1))
    ensures Bounded(s, more, tail, on)
  {
  }

  lemma BoundedEscape(s: string, most: int, tail: string, on: bool)
    requires var unit := EscapeSequence(s); unit.Some? ==> Bounded(s[unit.value.1..], most - 1, tail, on)
    ensures Bounded("\\" + s, most, tail, on)
  {
    hide EscapeSequence;
    BodyEscape(s);
    var unit := EscapeSequence(s);
    if unit.Some? {
      BoundedOne("\\" + s, s[unit.value.1..], unit.value.0, most - 1, most, tail, on);
    }
  }

  /** A trigraph backslash in front of the line's end spoils the line break. */
  lemma BoundedEnd(tail: string, on: bool)
    ensures Bounded("n\"" + tail, 1, tail, on)
  {
    assert "n\"" + tail == ['n'] + ("\"" + tail);
    BodyPlain('n', "\"" + tail);
    assert ("\"" + tail)[1..] == tail;
  }

  lemma BoundedQuote(line: string, most: int, tail: string, on: bool)
    ensures Bounded("\"" + Stream(line, tail, on), most, tail, on)
  {
    assert ("\"" + Stream(line, tail, on))[1..] == Stream(line, tail, on);
  }

  lemma {:induction false} PendingBound(line: string, tail: string, on: bool)
    requires '\n' !in line
    ensures Bounded("\\" + Stream(line, tail, on), |line| + 2, tail, on)
    decreases |line|
  {
    var s := Stream(line, tail, on);
    StreamStep(line, tail, on);
    hide Stream, Bounded, Emitted, Body;
    if line == "" {
      assert s[1..] == "n\"" + tail;
      BoundedEnd(tail, on);
    } else if on && TrigraphAt(line) {
      TrigraphChar(line[2]);
      assert s[1..] == Stream(line[3..], tail, on);
      if s[0] == '\\' {
        BodyBound(line[3..], tail, on);
        BoundedMore(s[1..], |line| - 3 + Slack(line[3..], on), |line| + 1, tail, on);
      }
    } else if line[0] == '\\' {
      assert s[1..] == "\\" + Stream(line[1..], tail, on);
      PendingBound(line[1..], tail, on);
    } else if line[0] == '"' {
      assert s[1..] == "\"" + Stream(line[1..], tail, on);
      BoundedQuote(line[1..], |line| + 1, tail, on);
    } else {
      OrdinaryEscape(line, tail, on);
    }
    BoundedEscape(s, |line| + 2, tail, on);
  }

  lemma BoundedMore(s: string, most: int, more: int, tail: string, on: bool)
    requires Bounded(s, most, tail, on) && most <= more
    ensures Bounded(s, more, tail, on)
  {
  }

  lemma OrdinaryEscape(line: string, tail: string, on: bool)
    requires '\n' !in line && line != "" && !(on && TrigraphAt(line)) && Quoted(line[0]) == [line[0]]
    ensures var s := Stream(line, tail, on); var unit := EscapeSequence(s);
            unit.Some? ==> Bounded(s[unit.value.1..], |line| + 1, tail, on)
    decreases |line|, 0
  {
    var s := Stream(line, tail, on);
    StreamStep(line, tail, on);
    hide Stream, Bounded, EscapeSequence;
    var unit := EscapeSequence(s);
    if unit.Some? {
      var n := unit.value.1;
      if n == 1 {
        assert s[1..] == Stream(line[1..], tail, on);
      } else {
        WordsOfLine(line, tail, on, n);
      }
      BodyBound(line[n..], tail, on);
      BoundedMore(s[n..], |line| - n + Slack(line[n..], on), |line| + 1, tail, on);
    }
  }

  lemma {:induction false} BodyBound(line: string, tail: string, on: bool)
    requires '\n' !in line
    ensures Bounded(Stream(line, tail, on), |line| + Slack(line, on), tail, on)
    decreases |line|
  {
    var s := Stream(line, tail, on);
    StreamStep(line, tail, on);
    if line == "" {
      BodyEnd(tail);
    } else {
      SlackStep(line, on);
      hide Stream, Bounded, Body, Emitted, Slack, HasTrigraph;
      if on && TrigraphAt(line) {
        var rest := Stream(line[3..], tail, on);
        if Trigraph(line[2]).value == '\\' {
          PendingBound(line[3..], tail, on);
        } else {
          TrigraphChar(line[2]);
          BodyBound(line[3..], tail, on);
          BodyPlain(Trigraph(line[2]).value, rest);
          BoundedOne(s, rest, Trigraph(line[2]).value, |line| - 3 + Slack(line[3..], on), |line| - 1, tail, on);
        }
      } else {
        var rest := Stream(line[1..], tail, on);
        BodyBound(line[1..], tail, on);
        BodyQuoted(line[0], rest);
        BoundedOne(s, rest, line[0], |line| - 1 + Slack(line[1..], on),
                   |line| + Slack(line, on), tail, on);
      }
    }
  }

  // ----------------------------------------------------------------- the whole template

  /** The lines, each with its line break. */
  function Flat(lines: seq<string>): string {
    if lines == [] then "" else lines[0] + "\n" + Flat(lines[1..])
  }

  predicate AnyTrigraph(lines: seq<string>) {
    lines != [] && (HasTrigraph(lines[0]) || AnyTrigraph(lines[1..]))
  }

  lemma LiteralsRow(s: string, any: bool)
    ensures Literals("\n    \"" + s, any) == var first := Body(s);
              if first.None? then None
              else var rest := Literals(first.value.1, true);
                   if rest.None? then None else Some(first.value.0 + rest.value)
  {
    hide Body;
    var t := "\"" + s;
    assert t[1..] == s;
    LiteralsSpace(' ', t, any);
    LiteralsSpace(' ', " " + t, any);
    LiteralsSpace(' ', " " + (" " + t), any);
    LiteralsSpace(' ', " " + (" " + (" " + t)), any);
    LiteralsSpace('\n', " " + (" " + (" " + (" " + t))), any);
    assert "\n    \"" + s == "\n" + (" " + (" " + (" " + (" " + t))));
  }

  lemma LiteralsSpace(c: char, s: string, any: bool)
    requires c == ' ' || c == '\n'
    ensures Literals([c] + s, any) == Literals(s, any)
  {
    assert ([c] + s)[1..] == s;
  }

  lemma LiteralsEnd(any: bool)
    ensures Literals(";\n", any) == if any then Some("") else None
  {
  }

  lemma {:induction false} LiteralsGood(lines: seq<string>, on: bool, any: bool)
    requires OneLiners(lines) && !(on && AnyTrigraph(lines))
    ensures Literals(EmittedRows(lines, on), any) == if lines == [] && !any then None else Some(Flat(lines))
  {
    if lines == [] {
      LiteralsEnd(any);
    } else {
      var tail := EmittedRows(lines[1..], on);
      LiteralsGood(lines[1..], on, true);
      BodyGood(lines[0], tail, on);
      hide Body, Literals, Emitted, HasTrigraph;
      EmittedRowsStep(lines, on);
      Assoc(Emitted(lines[0], on), "\\n\"", tail);
      LiteralsRow(Stream(lines[0], tail, on), any);
    }
  }

  lemma {:induction false} LiteralsBound(lines: seq<string>, on: bool, any: bool)
    requires OneLiners(lines)
    ensures var r := Literals(EmittedRows(lines, on), any);
            r.Some? ==> |r.value| <= |Flat(lines)| - if on && AnyTrigraph(lines) then 2 else 0
  {
    if lines == [] {
      LiteralsEnd(any);
    } else {
      var tail := EmittedRows(lines[1..], on);
      LiteralsBound(lines[1..], on, true);
      BodyBound(lines[0], tail, on);
      hide Body, Literals, Emitted, HasTrigraph, Stream;
      EmittedRowsStep(lines, on);
      Assoc(Emitted(lines[0], on), "\\n\"", tail);
      StreamIs(lines[0], tail, on);
      LiteralsRow(Stream(lines[0], tail, on), any);
      var b := Body(Stream(lines[0], tail, on));
      if b.Some? && Stray(b.value.1, tail, on) {
        var line :| b.value.1 == Stream(line, tail, on);
        StrayFails(line, tail, on, true);
      }
    }
  }

  lemma StreamIs(line: string, tail: string, on: bool)
    ensures Stream(line, tail, on) == Emitted(line, on) + ("\\n\"" + tail)
  {
  }

  /** The text with a line break at its end. */
  function WithNewline(t: string): string {
    if EndsInNewline(t) then t else t + "\n"
  }

  lemma {:induction false} FlatJoin(lines: seq<string>)
    requires lines != []
    ensures Flat(lines) == Join(lines, "\n") + "\n"
  {
    if |lines| > 1 {
      FlatJoin(lines[1..]);
    } else {
      assert Flat(lines) == lines[0] + "\n" + "";
    }
  }

  lemma {:induction false} TrigraphBreak(line: string, rest: string)
    requires '\n' !in line
    ensures HasTrigraph(line + "\n" + rest) <==> HasTrigraph(line) || HasTrigraph(rest)
  {
    var s := line + "\n" + rest;
    if line == "" {
      assert s[1..] == rest;
    } else {
      assert s[1..] == line[1..] + "\n" + rest;
      TrigraphBreak(line[1..], rest);
      assert s[0] == line[0] && s[1] == if |line| > 1 then line[1] else '\n';
      assert |line| > 1 ==> s[2] == if |line| > 2 then line[2] else '\n';
      assert TrigraphAt(s) <==> TrigraphAt(line);
    }
  }

  lemma {:induction false} TrigraphsJoin(lines: seq<string>)
    requires lines != [] && OneLiners(lines)
    ensures HasTrigraph(Join(lines, "\n")) <==> AnyTrigraph(lines)
  {
    if |lines| > 1 {
      TrigraphsJoin(lines[1..]);
      TrigraphBreak(lines[0], Join(lines[1..], "\n"));
    }
  }

  /** The lines of a text hold all of it, and every trigraph. */
  lemma LinesOfText(u: string)
    ensures OneLiners(TemplateLines(u)) && (TemplateLines(u) == [] <==> u == "")
    ensures u != "" ==> Flat(TemplateLines(u)) == WithNewline(u) && (AnyTrigraph(TemplateLines(u)) <==> HasTrigraph(u))
  {
    var parts := Split(u, '\n');
    var n := |parts| - 1;
    JoinSplit(u, '\n');
    hide Split, HasTrigraph, AnyTrigraph;
    if parts[n] != "" {
      JoinEnds(parts);
      FlatJoin(parts);
      TrigraphsJoin(parts);
    } else if n > 0 {
      JoinSnoc(parts[..n], parts[n], "\n");
      assert parts[..n] + [parts[n]] == parts;
      FlatJoin(parts[..n]);
      TrigraphsJoin(parts[..n]);
      TrigraphsJoin(parts);
      LastEmpty(parts);
    } else {
      assert parts == [""];
    }
  }

  lemma {:induction false} LastEmpty(parts: seq<string>)
    requires |parts| > 1 && parts[|parts| - 1] == ""
    ensures AnyTrigraph(parts) <==> AnyTrigraph(parts[..|parts| - 1])
  {
    var n := |parts| - 1;
    if n > 1 {
      LastEmpty(parts[1..]);
      assert parts[1..][..n - 1] == parts[..n][1..];
    } else {
      assert parts[1..][1..] == [] && parts[..1][1..] == [];
      assert !HasTrigraph("");
    }
  }

  lemma CompiledRows(lines: seq<string>, on: bool)
    requires OneLiners(lines)
    ensures Compiled(HEAD + Rows(lines), on)
         == var r := Literals(EmittedRows(lines, on), false); if r.None? then None else Some(UpToNul(r.value))
  {
    assert '?' !in HEAD && '\n' !in HEAD && HEAD[|HEAD| - 1] == '=';
    hide Phase1, Phase2, Literals, EmittedRows, Rows, UpToNul;
    Phase1Text(HEAD, Rows(lines), on);
    Phase1Rows(lines, on);
    Phase2Text(HEAD, EmittedRows(lines, on));
    Phase2Rows(lines, on);
    HeadOff(EmittedRows(lines, on));
  }

  lemma HeadOff(rest: string)
    ensures HEAD <= HEAD + rest && (HEAD + rest)[|HEAD|..] == rest
  {
  }

  /** What reading a file in text mode leaves of the text. */
  lemma {:induction false} UniversalFacts(t: string)
    ensures '\r' !in Universal(t) && |Universal(t)| <= |t| && (Universal(t) == "" <==> t == "")
    ensures '\r' !in t ==> Universal(t) == t
  {
    if t != "" {
      var rest := AfterBreak(t);
      UniversalFacts(rest);
      UniversalStep(t);
      if '\r' !in t {
        assert t == [t[0]] + rest && '\r' !in rest;
      }
    }
  }

  /** What follows the first character, or the first line break. */
  function AfterBreak(t: string): (r: string)
    requires t != ""
    ensures |r| < |t|
  {
    if t[0] == '\r' && |t| > 1 && t[1] == '\n' then t[2..] else t[1..]
  }

  lemma UniversalStep(t: string)
    requires t != ""
    ensures Universal(t) == [if t[0] == '\r' then '\n' else t[0]] + Universal(AfterBreak(t))
  {
  }

  lemma {:induction false} UniversalEnd(t: string)
    ensures EndsInNewline(t) ==> EndsInNewline(Universal(t))
  {
    if |t| > 1 {
      var rest := AfterBreak(t);
      UniversalEnd(rest);
      UniversalStep(t);
      UniversalFacts(rest);
      hide Universal;
      if rest == "" {
        assert t == "\r\n" && Universal(t) == "\n";
      }
    }
  }

  lemma {:induction false} UpToNulFacts(s: string)
    ensures |UpToNul(s)| <= |s| && '\0' !in UpToNul(s) && ('\0' !in s ==> UpToNul(s) == s)
    ensures forall c :: c in UpToNul(s) ==> c in s
  {
    if s != "" && s[0] != '\0' {
      UpToNulFacts(s[1..]);
      assert s == [s[0]] + s[1..];
    }
  }

  /** The component's built-in template is the file's text, up to a final line break, exactly when the text is
      not empty, holds neither carriage returns nor NULs and, for a compiler that honours them, no trigraph. */
  lemma EmbedRoundTrip(text: string, trigraphs: bool)
    ensures Compiled(HEAD + Rows(TemplateLines(Universal(text))), trigraphs) == Some(WithNewline(text))
        <==> text != "" && '\r' !in text && '\0' !in text && !(trigraphs && HasTrigraph(text))
  {
    var u := Universal(text);
    var lines := TemplateLines(u);
    UniversalFacts(text);
    UniversalEnd(text);
    LinesOfText(u);
    CompiledRows(lines, trigraphs);
    var r := Literals(EmittedRows(lines, trigraphs), false);
    LiteralsBound(lines, trigraphs, false);
    if !(trigraphs && AnyTrigraph(lines)) {
      LiteralsGood(lines, trigraphs, false);
    }
    if r.Some? {
      UpToNulFacts(r.value);
    }
    hide Literals, EmittedRows, Universal, TemplateLines, AnyTrigraph, HasTrigraph, UpToNul, Compiled, Rows;
    Endings(text, u);
  }

  lemma Endings(text: string, u: string)
    ensures |u| <= |text| && (EndsInNewline(text) ==> EndsInNewline(u)) ==> |WithNewline(u)| <= |WithNewline(text)|
    ensures forall c :: c in text ==> c in WithNewline(text)
    ensures forall c :: c in WithNewline(u) ==> c in u || c == '\n'
  {
  }
}
