/** Shutdown deletes by label: the selector built from the launch's base name, against the labels the default
    template stamps on every object (plm_k8s_module.c:84-85, 213-219, 804-818;
    templates/single-job.yaml.tmpl:46-47, 58-59). */
module Cleanup {
  import opened Strings
  import opened EnvBlock
  import opened Tags
  import opened Spans
  import opened Sections
  import opened Launch
  import opened Identity
  import Sanitize

  const MANAGED_BY := "prrte.kubepmix.dev/managed-by"
  const DVM := "prrte.kubepmix.dev/dvm"
  const MANAGER := "plm-k8s"

  function Selector(name: string): string {
    (MANAGED_BY + "=" + MANAGER) + "," + (DVM + "=" + name)
  }

  /** An equality-based requirement of a label selector. */
  function Requirement(text: string): Pair {
    var eq := Find(text, 0, "=");
    if eq.None? then Pair(text, "") else Pair(text[..eq.value], text[eq.value + 1..])
  }

  /** Every requirement of the selector holds of the labels. */
  ghost predicate Selects(selector: string, labels: map<string, string>) {
    forall part :: part in Split(selector, ',') ==>
      Requirement(part).key in labels && labels[Requirement(part).key] == Requirement(part).value
  }

  lemma RequirementOf(key: string, value: string)
    requires '=' !in key
    ensures Requirement(key + "=" + value) == Pair(key, value)
  {
    var s := key + "=" + value;
    assert At(s, |key|, "=");
    forall i | 0 <= i < |key|
      ensures !At(s, i, "=")
    {
      assert s[i..i + 1][0] == key[i];
    }
    assert s[..|key|] == key && s[|key| + 1..] == value;
  }

  lemma PartsOf(name: string)
    requires ',' !in name
    ensures Split(Selector(name), ',') == [MANAGED_BY + "=" + MANAGER, DVM + "=" + name]
  {
    var first, second := MANAGED_BY + "=" + MANAGER, DVM + "=" + name;
    assert ',' !in first && ',' !in second;
    hide Split;
    SplitFirst(first, ',', second);
    SplitField(second, ',');
  }

  lemma NameChars(raw: string)
    ensures var name := Sanitize.Sanitized(raw, 50);
            ',' !in name && PlainText(name)
  {
    Sanitize.SanitizedLabel(raw, 50);
    var name := Sanitize.Sanitized(raw, 50);
    forall i | 0 <= i < |name|
      ensures name[i] == '-' || 'a' <= name[i] <= 'z' || IsDigit(name[i])
    {
      assert Sanitize.IsAlnum(name[i]) || name[i] == '-';
    }
  }

  /** The cleanup finds an object exactly if its labels say that this component manages it, for a DVM of this base
      name. */
  lemma SelectsOwn(prefix: Option<string>, nspace: string, labels: map<string, string>)
    ensures Selects(Selector(BaseName(prefix, nspace)), labels) <==>
      && "prrte.kubepmix.dev/managed-by" in labels && labels["prrte.kubepmix.dev/managed-by"] == "plm-k8s"
      && "prrte.kubepmix.dev/dvm" in labels && labels["prrte.kubepmix.dev/dvm"] == BaseName(prefix, nspace)
  {
    var name := BaseName(prefix, nspace);
    NameChars(RawName(prefix, nspace));
    PartsOf(name);
    assert '=' !in MANAGED_BY && '=' !in DVM;
    RequirementOf(MANAGED_BY, MANAGER);
    RequirementOf(DVM, name);
    hide Requirement, Split, Selector, BaseName;
    TwoParts(Selector(name), MANAGED_BY + "=" + MANAGER, DVM + "=" + name, labels);
  }

  lemma TwoParts(selector: string, a: string, b: string, labels: map<string, string>)
    requires Split(selector, ',') == [a, b]
    ensures Selects(selector, labels) <==>
      && Requirement(a).key in labels && labels[Requirement(a).key] == Requirement(a).value
      && Requirement(b).key in labels && labels[Requirement(b).key] == Requirement(b).value
  {
    hide Requirement, Split;
    assert [a, b][0] in [a, b] && [a, b][1] in [a, b];
  }

  /** The cleanup of one DVM finds the objects of another exactly if their names, cut to 50 characters, have the
      same words. */
  lemma SelectsOther(prefix: Option<string>, nspace: string, otherPrefix: Option<string>, otherNspace: string,
                     labels: map<string, string>)
    requires MANAGED_BY in labels && labels[MANAGED_BY] == MANAGER
    requires DVM in labels && labels[DVM] == BaseName(otherPrefix, otherNspace)
    ensures Selects(Selector(BaseName(prefix, nspace)), labels)
        <==> Sanitize.NameWords(RawName(prefix, nspace), 50)
               == Sanitize.NameWords(RawName(otherPrefix, otherNspace), 50)
  {
    SelectsOwn(prefix, nspace, labels);
    Sanitize.SameName(RawName(prefix, nspace), RawName(otherPrefix, otherNspace), 50);
    hide Selects, Selector, Sanitize.Sanitized, Sanitize.NameWords;
  }

  /** Job names that differ only in a character that is no letter and no digit, like "a.1" and "a-1", share their
      objects. */
  lemma SharedName(a: string, c: char, d: char, b: string)
    requires !Sanitize.IsAlnum(Sanitize.Lower(c)) && !Sanitize.IsAlnum(Sanitize.Lower(d))
    ensures BaseName(None, a + ([c] + b)) == BaseName(None, a + ([d] + b))
  {
    Sanitize.SamePunctuation(a, c, d, b);
    Sanitize.SanitizedWords(a + ([c] + b), 50);
    Sanitize.SanitizedWords(a + ([d] + b), 50);
    hide Sanitize.Sanitized, Sanitize.Words;
  }

  const MANAGED_LINE := "    " + MANAGED_BY + ": " + MANAGER + "\n"
  const LABEL_HEAD := "    " + DVM + ": \""

  /** The template's label lines render to exactly the labels that the selector asks for. */
  lemma LabelLines(ctx: Tctx, prefix: Option<string>, nspace: string)
    requires ctx.name == BaseName(prefix, nspace)
    ensures SpanMeaning(MANAGED_LINE, GlobalScope(ctx)) == MANAGED_LINE
    ensures SpanMeaning(LABEL_HEAD + (Spelling(Tag.Name, Tight).Text() + "\"\n"), GlobalScope(ctx))
         == "    " + DVM + ": " + Quote(ctx.name) + "\n"
    ensures ReadScalar(Quote(ctx.name)) == Some(ctx.name)
  {
    hide *;
    NamePlain(prefix, nspace);
    LabelText(ctx.name);
    NoBraces();
    NoTagLine(MANAGED_LINE, GlobalScope(ctx));
    TagInText(LABEL_HEAD, Spelling(Tag.Name, Tight), "\"\n", GlobalScope(ctx));
    NameValue(ctx);
  }

  lemma NamePlain(prefix: Option<string>, nspace: string)
    ensures Escape(BaseName(prefix, nspace)) == BaseName(prefix, nspace)
    ensures ReadScalar(Quote(BaseName(prefix, nspace))) == Some(BaseName(prefix, nspace))
  {
    NameChars(RawName(prefix, nspace));
    hide Sanitize.Sanitized;
    EscapePlain(BaseName(prefix, nspace));
    ScalarRoundTrip(BaseName(prefix, nspace));
  }

  lemma NoBraces()
    ensures '{' !in MANAGED_LINE && '{' !in LABEL_HEAD && '{' !in "\"\n"
  {
  }

  lemma NameValue(ctx: Tctx)
    ensures Value(Tag.Name, GlobalScope(ctx), "") == ctx.name
  {
  }

  lemma LabelText(name: string)
    requires Escape(name) == name
    ensures LABEL_HEAD + (name + "\"\n") == "    " + DVM + ": " + Quote(name) + "\n"
  {
    var d := DVM;
    assert ": \"" == ": " + "\"" && "\"\n" == "\"" + "\n";
  }

  lemma NoTagLine(line: string, scope: Scope)
    requires scope.Valid() && '{' !in line
    ensures SpanMeaning(line, scope) == line
  {
    forall i | 0 <= i <= |line|
      ensures !TagAt(line, i)
    {
      if i < |line| {
        NoBrace(line, i);
      } else {
        NoTagAtEnd(line);
      }
    }
    SpanIdentity(line, Some(""), scope);
  }

  lemma NoTagAtEnd(line: string)
    ensures !TagAt(line, |line|)
  {
    forall sp: Spelling
      ensures !At(line, |line|, sp.Text())
    {
      SpellingShape(sp);
    }
  }
}
