# Model of the Kubernetes launcher and the rsync pre-positioner

Three cooperating parts of the repository, and the places where they meet.

**The manifest renderer** (`plm_k8s/plm_k8s_template.c`) is a small compiler from template text to a manifest.
`Sections` and `Spans` give template text a meaning (parse into text and sections; evaluate character by character,
tag by tag) and prove that the index-based loops compute it. `Tags` holds the tag spellings and the scanner,
`TagValues` what each tag, as it is written, stands for, `Standalone` what the standalone-tag rule is for, `Columns`
the way of an env tag from its line of the template into the manifest, `LineStarts` where rendered text starts a line,
`Verbatim` when text comes out as it is, `EnvBlock` the YAML quoting, layout and re-indentation with the reader that
gets the list back, `Envars` the way from a daemon command line to environment assignments and `Arguments` that way
word by word, `Sanitize` the object names, `StrBuf` the doubling byte buffer everything is appended to.

**Daemon identity** (`plm_k8s/plm_k8s_module.c`, `templates/single-job.yaml.tmpl`). `Launch` is the node loop that
rewrites one argv in place; `Identity` the printed node-to-vpid map, the YAML scalar that carries it and the shell
loop that reads it; `PodSpec` the rendered env list and its reader; `Scheduler` every run of a scheduler that obeys
the template's affinity rules; `Cleanup` the label selector of the shutdown against the labels the template stamps;
`Ownership` the caddy, the job reference and the manifest file through every outcome of a launch; `Rollout` goes from
the manifest text to the running daemons; `Embed` the generator of the built-in template and the C11 translation
phases that read its output.

**The pre-position protocol** (`filem_rsync/filem_rsync_module.c`). `Preposition` is a daemon's side, `Hnp` the
launcher's side, `Exported` the URLs and the one rsync daemon that serves every job's tree, `Network` the messages
between launcher and daemons, and `Protocol` the whole as a state machine in which any number of jobs are in flight,
daemons act independently and messages may get lost.

`Differences` has inputs for which the code does not do what its documentation says. `Strings` and `Finite` hold what
all modules need.

## How the model is built

Code that updates state is imperative here too: classes with fields (`StrBuf.Buffer`, `Preposition.Daemon`,
`Hnp.Tracker`, `Hnp.Launcher`, `Ownership.Launches`), arrays written in place (`Launch.FillNodes`,
`Sanitize.Copy`, `Hnp.CollectSources`) and loops with invariants, each proved against a specification function
whose own properties are the lemmas. The protocol's steps are those same specification functions, so what is
proved of runs is about what the methods do.

What the outside world decides is a parameter: the allocator's answers (`grants`), the exit status of every rsync and
kubectl, files, directories, the URI, the environment, the scheduler's choices. Exit status 0 of a pull means that the
tree which its URL names, if any, has arrived (`Exported.PullArrives`): which tree that is follows from the URL, the
announced port and module, and what is exported. On machines other than the launcher's nothing answers on the loopback
address (`Exported.SilentElsewhere`). `convert` is the runtime's rank printer; `Identity.LaunchRanks` asks it to be
decimal. `SlotFrom` states the contract of the runtime's command-line builder: the slot is the value of an
`ess_base_vpid` triple. The lines of the default template that a result is about are constants of the model
(`PodSpec.Template`, `Rollout.COUNTS`, `Cleanup.LABEL_HEAD`, `Identity.MAP_LINE_HEAD`).

## Where code and documentation differ

The model follows the code. Each entry names the lemma that says for all inputs when the documented behaviour
holds, and the lemma with an input for which it does not.

- An unterminated section is not passed through verbatim: everything from the last section on is rendered in global
  scope, and only the opening tag stays as it is (`plm_k8s/plm_k8s_template.c:780-784`). With no opening brace among
  the values, it comes out as it is exactly if it holds no tag: `Verbatim.LastVerbatim`,
  `Verbatim.UnterminatedVerbatim`; not so `Differences.UnterminatedRendered`. The same goes for an opening tag inside
  a body (805-816), where `Verbatim.SpanVerbatim` applies.
- A section in either spelling repeats its body, but not behind an opening tag of the other form that is never closed
  (773-784). Wherever the parse has got to, a section is split off exactly if the first opening tag left is closed by
  its own form: `Sections.SectionSplit`. So what it leaves holds a closed section exactly if the first opening tag is
  never closed and the section is of the other form, behind it: `Sections.HiddenExactly`, `Sections.LeftUnexpanded`;
  `Differences.OtherFormHidden`.
- An env value is re-indented to the column its tag sat at, but that column is looked up in the span, not in the
  template's line (658), and is a column of the manifest only where a line of it starts there. With only blanks before
  the tag on its line, the blanks are always found, and every further line of the value stands behind them. In plain
  text they start a line of the manifest whenever there are nodes (a launch renders for nothing else,
  `Launch.PlanLaunch`). In the copies of a body they do so exactly if this is the first copy, or the tag's line is not
  the body's first, or the body ends its last line; otherwise they stand behind the last line of the copy before:
  `Columns.EnvTagRendered`; `Differences.CopiesGlued`. ("Exactly" where names and ranks are neither empty nor end in a
  line break.)
- With other text before the tag on its line, the span's column and the line's agree exactly unless the span starts in
  mid-line with only blanks between its start and the tag: `Sections.ColumnOfSpan`; `Differences.ColumnOfSpanOnly`.
- The sanitizer's fallback has four characters whatever the limit. The result keeps to the limit exactly if that is at
  least 4, or not 0 and the text has a letter or digit: `Sanitize.SanitizedFits`. It is stable under a second pass
  exactly if the limit is 0 or at least 4, or the text has a letter or digit: `Sanitize.SanitizedIdempotent`;
  `Differences.FallbackTooLong`.
- The buffer's growth loop ends exactly for requests of at most 2^63 bytes: `StrBuf.GrowthEnds`;
  `Differences.GrowthStuck`.
- An empty env list renders as `[]`; behind entries that the template lists itself, as in the default template, that
  is no YAML sequence any more: `EnvBlock.BlockAppended`, `PodSpec.PodEnvRendered`; `Differences.EmptyAppended`.
- The shutdown deletes what belongs to "this DVM" by a label that another DVM can share. It does exactly if the words
  of their names, as many as fit into 50 characters, are the same: `Cleanup.SelectsOther`; `Cleanup.SharedName`.
- "Every daemon acks" (`filem_rsync/filem_rsync_module.c:39-46`) has an exception: a message is answered exactly if
  its job name can be unpacked: `Preposition.HandledOnce`; `Differences.Unanswered`.
- Answers are counted, not senders, and only the first tracker of a job name counts them: a job is told exactly if its
  tracker is the first of its name, has a callback, and enough answers arrive: `Hnp.OnlyFirstCounts`,
  `Hnp.ToldExactly`; `Differences.SecondNeverCounts`. In the runs of `Protocol` a job whose request went through
  therefore does not ask again.
- A configured port is exported as given but announced modulo 65536 (734). The two are the same exactly below 65536:
  `Hnp.AnnouncedPort`, and then the exported tree is reached (`Exported.ReachesTree`) and otherwise at no address
  (`Exported.MissesTree`); `Differences.OtherPort`.
- The generated C text is not the template for every text: empty text does not compile, text-mode reading turns
  carriage returns into newlines, a NUL ends the C string early, and a compiler that honours trigraphs (section
  5.2.1.1 of ISO C11) replaces them. `Embed.EmbedRoundTrip` is the exact condition; `Differences.NotEmbedded`.

## Model

| member | source | states |
|---|---|---|
| StrBuf.Buffer.Reserve | plm_k8s/plm_k8s_template.c:44-70 | After a successful reserve the bytes are unchanged, there is room for the extra ones and the terminator, the capacity is 256 times a power of two and below twice the need unless it is 256, and all reallocations together moved fewer bytes than the capacity; the buffer has failed exactly if one of its requests was refused, and is then empty. |
| StrBuf.Buffer.AppendN | plm_k8s/plm_k8s_template.c:72-84 | The buffer then holds the old text and the new, terminated in bounds, unless it has failed; failure never goes away. |
| StrBuf.Buffer.Release | plm_k8s/plm_k8s_template.c:99-114 | Everything appended, or nothing exactly when some request of this buffer was refused; what is left is an empty buffer. |
| StrBuf.GrownValue | plm_k8s/plm_k8s_template.c:55-58 | On a 64-bit size_t, doubling gives the powers of two up to 2^63 and then 0 for ever. |
| StrBuf.GrowthEnds | plm_k8s/plm_k8s_template.c:55-58 | The growth loop ends iff at most 2^63 bytes are needed. |
| StrBuf.GrowthAgrees | plm_k8s/plm_k8s_template.c:55-58 | As long as at most 2^63 bytes are needed, the 64-bit loop goes through the same capacities as unbounded doubling, and no capacity wraps. |
| StrBuf.RoomExact | plm_k8s/plm_k8s_template.c:52-54 | The test for room is right on 64 bits iff length, request and terminator together fit into a word. |
| Differences.GrowthStuck | plm_k8s/plm_k8s_template.c:55-58 | One byte more is never reached from the first 256. |
| Tags.TableComplete | plm_k8s/plm_k8s_template.c:386-418 | The flat table lists all four spellings of all ten tags. |
| Tags.MatchUnique | plm_k8s/plm_k8s_template.c:407-417 | Spellings are prefix-free: at most one starts at any place of any text. |
| Tags.NoOverlap | plm_k8s/plm_k8s_template.c:407-417 | No spelling starts strictly inside an occurrence of another. |
| Tags.NextTagUnique | plm_k8s/plm_k8s_template.c:426-440 | Which tag comes next is a property of the text, not of the order in which a table lists the spellings. |
| Tags.FindNextPlaceholder | plm_k8s/plm_k8s_template.c:426-440 | Over any complete table in any order: the result is the leftmost tag, and none means there is none. |
| Spans.EveryOccurrenceRead | plm_k8s/plm_k8s_template.c:589-664 | Every occurrence of every spelling, anywhere in the span, is read as exactly one tag at its place. |
| Spans.SourceTokens | plm_k8s/plm_k8s_template.c:589-664 | Reading a span into characters and tags loses and invents nothing. |
| Spans.SpanIdentity | plm_k8s/plm_k8s_template.c:600-603 | Text without a spelling renders as itself, whatever the context. |
| Verbatim.SpanVerbatim | plm_k8s/plm_k8s_template.c:589-664 | A span - or a body - without a tag renders to itself in every scope, section tags or not; and where no value holds an opening brace, no other span does. |
| Verbatim.LastVerbatim | plm_k8s/plm_k8s_template.c:773-784 | What stands behind the last section of a template, with or without an opening tag in it, comes out as it is if it holds no tag, and only then if no name, rank or common setting holds an opening brace. |
| Verbatim.UnterminatedVerbatim | plm_k8s/plm_k8s_template.c:780-784 | The same of a whole template whose first opening tag is not closed. |
| Differences.UnterminatedRendered | plm_k8s/plm_k8s_template.c:780-784 | An unclosed opening tag stays, and the name tag behind it is replaced by the name. |
| Spans.SpanByLines | plm_k8s/plm_k8s_template.c:589-664 | Rendering goes line by line: no tag and no column reaches across a line break. |
| Spans.EnvAtColumn | plm_k8s/plm_k8s_template.c:445-483 | In a span, behind only blanks, every line of the env block stands at the tag's column, and taking the column off gives the block back. |
| Spans.LineIndent | plm_k8s/plm_k8s_template.c:445-461 | The backward and forward scans find the blanks between the line's start and the tag, and nothing if anything else stands there. |
| Spans.AppendValue | plm_k8s/plm_k8s_template.c:606-661 | Each tag appends its value in the scope; node tags vanish in global scope; the env block is shadowed inside a section and laid out at the tag's column. |
| TagValues.NumNodesRenders | plm_k8s/plm_k8s_template.c:610-613 | Wherever one of the four spellings of `{{numnodes}}` stands, inside a section or outside, a number is rendered that reads back as how many nodes there are; the text on either side is rendered as it would be. |
| TagValues.VpidStartRenders | plm_k8s/plm_k8s_template.c:614-617 | Likewise `{{vpid_start}}` reads back as the first vpid of the launch. |
| TagValues.NameRenders | plm_k8s/plm_k8s_template.c:607-609 | Likewise `{{name}}` is the name of the launch. |
| TagValues.NodesCsvRenders | plm_k8s/plm_k8s_template.c:618-620 | Likewise `{{nodes_csv}}`, split at commas, is the names of the nodes in order. |
| TagValues.NodeVpidsRenders | plm_k8s/plm_k8s_template.c:621-623 | Likewise `{{node_vpids}}`, split at commas, is each node with a colon and its rank, in order. |
| TagValues.NodeTagsRender | plm_k8s/plm_k8s_template.c:624-645 | In the body for a node, `{{node}}` and `{{rank}}` are that node's name and rank, and `{{slots}}` and `{{index}}` read back as its slots and its place among the nodes, in each of their spellings. |
| TagValues.NodeTagsVanish | plm_k8s/plm_k8s_template.c:624-645 | Outside the sections these four leave nothing. |
| TagValues.DecReads | plm_k8s/plm_k8s_template.c:610-617 | The printed form of a number, negative or not, reads back as that number. |
| Spans.RenderSpan | plm_k8s/plm_k8s_template.c:589-664 | One pass appends exactly the meaning of the span; substituted values are not read again. |
| EnvBlock.YamlDquote | plm_k8s/plm_k8s_template.c:485-513 | The quoted form is the character-wise escape between quotes. |
| EnvBlock.ScalarRoundTrip | plm_k8s/plm_k8s_template.c:485-513 | A YAML reader gets the value back iff it consists of printable characters, newlines and tabs, and otherwise rejects it. |
| EnvBlock.BuildEnvBlock | plm_k8s/plm_k8s_template.c:522-572 | Two lines per well-formed entry, in order; entries without `=` disappear; `[]` if none is left. |
| EnvBlock.NextEntry | plm_k8s/plm_k8s_template.c:522-572 | `name=value` adds the lines `- name: name` and `value:` with the quoted value; an entry without `=` adds none; and no lines at all are written `[]`. |
| EnvBlock.BlockRoundTrip | plm_k8s/plm_k8s_template.c:522-572 | A reader of the block recovers exactly the list of names and values, iff every value is readable. |
| EnvBlock.AppendReindented | plm_k8s/plm_k8s_template.c:463-483 | Every line but the first gets the indent; one final line break is dropped. |
| EnvBlock.UnindentReindent | plm_k8s/plm_k8s_template.c:463-483 | Taking the indent off again gives the block back, without a final line break, at any indentation. |
| EnvBlock.PipelineRoundTrip | plm_k8s/plm_k8s_template.c:463-572 | List to block to indented text and back recovers the list, at any column, iff every value is readable. |
| EnvBlock.BlockAppended | templates/single-job.yaml.tmpl:107-118 | Behind entries of the template's own, the whole list reads back iff the appended list is not empty and its values are readable. |
| Differences.EmptyAppended | templates/single-job.yaml.tmpl:107-118 | Behind one entry of the template's own, an empty list leaves text that the reader rejects. |
| Envars.AppendUniqueEnvar | plm_k8s/plm_k8s_template.c:276-292 | An assignment is added iff no entry starts with the same key and `=`. |
| Envars.ArgvToEnvars | plm_k8s/plm_k8s_template.c:337-378 | The array is what appending the surviving triples one by one, in scan order, leaves. |
| Envars.AppendAllFirst | plm_k8s/plm_k8s_template.c:276-292 | For names without `=`, that is exactly the first surviving triple of every parameter, in order. |
| Envars.FirstExactly | plm_k8s/plm_k8s_template.c:267-292 | A triple is kept iff it is the first one for its kind and name. |
| Envars.SettingsFiltered | plm_k8s/plm_k8s_template.c:294-378 | Keys are pairwise distinct, and every setting passed all filters: none is `plm`, `plm_k8s_*`, the skipped one or, unless asked for, one copied from the environment. |
| Envars.SkippedKeyAbsent | plm_k8s/plm_k8s_template.c:360-361 | The key of a skipped parameter is set under neither prefix. |
| Arguments.NextPrte | plm_k8s/plm_k8s_template.c:276-378 | `--prtemca name value` behind a command line appends `PRTE_MCA_name=value`, unless that key is set already, the name is `plm`, starts with `plm_k8s_` or is the skipped one, or - where the environment is not passed on - the environment holds exactly that value under that key; then it appends nothing. |
| Arguments.NextPmix | plm_k8s/plm_k8s_template.c:276-378 | `--pmixmca name value` likewise appends `PMIX_MCA_name=value`. |
| Arguments.NextWord | plm_k8s/plm_k8s_template.c:346-376 | A word that is neither flag adds nothing. |
| Arguments.CutTriple | plm_k8s/plm_k8s_template.c:349-353 | A flag at the end, alone or with only a name, adds nothing. |
| Arguments.CompleteBut | plm_k8s/plm_k8s_template.c:346-376 | Every command line consists of such words and triples, but for a triple that is cut off at its end. |
| Arguments.NoLauncherParameter | plm_k8s/plm_k8s_template.c:294-314 | No assignment sets `plm` or a parameter that starts with `plm_k8s_`, under either prefix. |
| Envars.ArgvRoundTrip | plm_k8s/plm_k8s_template.c:337-572 | Command line to indented manifest text and back: a reader recovers exactly the filtered, de-duplicated settings, at any column. |
| Envars.ScanAligned | plm_k8s/plm_k8s_template.c:346-376 | Two scans of command lines that differ in the vpid slot stay aligned and read the same other triples. |
| Envars.FirstWithout | plm_k8s/plm_k8s_template.c:276-292 | De-duplication commutes with dropping one parameter. |
| Envars.CommonIsNodeWithout | plm_k8s/plm_k8s_module.c:364-408 | The common settings, built while the argv still holds the last node's vpid, are each node's own settings minus the vpid, in content and order. |
| Envars.OwnRank | plm_k8s/plm_k8s_module.c:364-382 | A node's settings carry its own rank iff the rank is forwarded and no earlier forwarded triple sets the parameter to something else; and every parameter is set once. |
| Sanitize.SanitizeName | plm_k8s/plm_k8s_template.c:221-261 | The in-place buffer loops compute: lower-case, collapse, cut to the limit, trim, or the fallback. |
| Sanitize.Copy | plm_k8s/plm_k8s_template.c:221-250 | The filling loop stays within a buffer of min(length, limit) + 1 characters and leaves the cut, collapsed text. |
| Sanitize.SanitizedWords | plm_k8s/plm_k8s_template.c:221-261 | The name is the text's lower-cased runs of letters and digits joined by single dashes, cut to the limit and trimmed, or the fallback. |
| Sanitize.SanitizedLabel | plm_k8s/plm_k8s_template.c:217-261 | The result is always a DNS label (`a` to `z`, `0` to `9` and dashes, alphanumeric at both ends, no double dash), of at most max(limit, 4) characters. |
| Sanitize.WordKept | plm_k8s/plm_k8s_template.c:233-261 | A text of ASCII letters and digits is its own name up to the limit: as long, with digits and small letters kept and each capital letter as its small one. |
| Sanitize.SanitizedIdempotent | plm_k8s/plm_k8s_template.c:255-258 | Sanitizing twice is sanitizing once, iff the limit is 0 or at least 4, or the text has a letter or digit. |
| Sanitize.FallbackTaken | plm_k8s/plm_k8s_template.c:251-258 | The fallback is taken, and is `prte`, iff the limit is 0 or the text has no letter and no digit. |
| Sanitize.SanitizedFits | plm_k8s/plm_k8s_template.c:217-261 | The result is no longer than the limit iff that is at least 4, or not 0 and the text has a letter or digit. |
| Sanitize.SameName | plm_k8s/plm_k8s_template.c:217-261 | Two texts get the same name iff the words that fit into the limit, the last one cut, are the same. |
| Differences.FallbackTooLong | plm_k8s/plm_k8s_template.c:254-258 | For limits 0 and 3 a text without words gets a name of four characters, which for 3 does not survive a second pass. |
| Sections.FindSectionStart | plm_k8s/plm_k8s_template.c:703-716 | The leftmost opening tag of either spelling. |
| Sections.WidenStandalone | plm_k8s/plm_k8s_template.c:677-699 | A tag alone on its line takes the blanks and one line break; any other tag takes nothing. |
| Sections.WidenedAlone | plm_k8s/plm_k8s_template.c:677-699 | Line by line: where a line, up to its break or the end of the text, holds nothing but spaces and tabs beside the tag, the tag takes that line with its break; otherwise it takes nothing. |
| Sections.ParsePartition | plm_k8s/plm_k8s_template.c:767-822 | Spans, bodies and tag regions put together are the template, for every template. |
| Sections.ParseProper | plm_k8s/plm_k8s_template.c:767-822 | No span before a section holds an opening tag; every body ends at its first closing tag; what is dropped is the tags, each with its whole line exactly if it stands alone on it; and in what comes last the first opening tag, if there is one, is never closed by its own form. |
| Sections.SectionSplit | plm_k8s/plm_k8s_template.c:767-784 | Of what is left of a template a section is split off iff its first opening tag is closed by its own form. |
| Sections.HiddenExactly | plm_k8s/plm_k8s_template.c:773-784 | A text holds a closed section but none is split off iff its first opening tag is never closed and a closed section of the other form opens behind it. |
| Sections.LeftUnexpanded | plm_k8s/plm_k8s_template.c:773-784 | What the parse of any template leaves as its last text holds a closed section iff its first opening tag is never closed and the section is of the other form, behind it. |
| Differences.OtherFormHidden | plm_k8s/plm_k8s_template.c:773-784 | A closed section of the second form behind an unclosed opening tag of the first is left as plain text. |
| Sections.SectionOrder | plm_k8s/plm_k8s_template.c:788-801 | In every round cursor <= open <= open_end <= close <= close_end after widening, so no length underflows; and the next round starts where no run of blanks can be widened across. |
| Sections.SectionCuts | plm_k8s/plm_k8s_template.c:767-801 | Widening by index, with the whole template as context, cuts the same pieces as cutting the rest of the template by meaning. |
| Sections.RenderBody | plm_k8s/plm_k8s_template.c:799-819 | The body is appended once per node, in node order, each time with that node's values and env. |
| Sections.RenderRound | plm_k8s/plm_k8s_template.c:767-822 | One round appends what the parsed template means up to where the next round starts, or all of the rest. |
| Sections.Render | plm_k8s/plm_k8s_template.c:718-836 | For every template and context the result is the meaning of the parsed template; it is missing exactly for missing arguments or when one of the requests made for the output buffer was refused. |
| Sections.ColumnKept | plm_k8s/plm_k8s_template.c:657-661 | From any place where a span can begin: if only blanks precede a tag on its line, that line begins in the span and the renderer sees the tag's true column. |
| Sections.ColumnOfSpan | plm_k8s/plm_k8s_template.c:657-661 | The column within the span is the column within the template line, iff the span starts a line, or starts at the tag, or has a non-blank before the tag. |
| Differences.ColumnOfSpanOnly | plm_k8s/plm_k8s_template.c:657-661 | A tag behind a section in mid-line: the parse, and the two columns that differ. |
| Columns.Apart | plm_k8s/plm_k8s_template.c:386-405 | No occurrence of a tag overlaps one of a section tag. |
| Columns.Beside | plm_k8s/plm_k8s_template.c:677-699 | What a standalone section tag takes with it never holds a part of another tag. |
| LineStarts.ShownFresh | plm_k8s/plm_k8s_template.c:677-699 | Where a span starts a line of the template, the template text rendered before it - section tags and their lines left out - is empty or ends a line. |
| LineStarts.ShownEnds | plm_k8s/plm_k8s_template.c:767-822 | Where that text ends a line, so does the manifest. |
| LineStarts.BodySolid | plm_k8s/plm_k8s_template.c:799-819 | A body that does not end a line is rendered, for every node, to something that is not empty and does not end a line, if names and ranks are like that. |
| Columns.EnvTagRendered | plm_k8s/plm_k8s_template.c:445-822 | For every template and every env tag with only blanks before it on its line, wherever the sections are: one span holds that line up to the tag, and in the manifest - once, or for each node with that node's settings - these blanks and the block follow, every further line of it behind the same blanks, and taking them off gives the block back. In plain text the blanks start a line of the manifest, if there are nodes; in the copy of a body for a node they do iff it is the first copy, or the tag's line is not the body's first, or the body ends its last line, where names and ranks are neither empty nor end a line. |
| Differences.CopiesGlued | plm_k8s/plm_k8s_template.c:799-819 | A body of one env line whose closing tag stands behind the tag: for two nodes the second block is glued to the last line of the first. |
| Standalone.OwnLinesParse | plm_k8s/plm_k8s_template.c:666-699 | A section whose tags stand on lines of their own, at any indentation and in either spelling, loses exactly those two lines; its body, empty or not, and the text before and behind are left whole. |
| Standalone.OwnLinesMeaning | plm_k8s/plm_k8s_template.c:666-822 | Such a template renders to the text before, the body once per node and the rest, with no stray indentation or line. |
| Standalone.SectionMeaning | plm_k8s/plm_k8s_template.c:666-822 | The same for `{{#nodes}}` ... `{{/nodes}}` and for `{% for node in nodes %}` ... `{% endfor %}` as they are written. |
| Standalone.AffinityValues | templates/single-job.yaml.tmpl:64-74 | The affinity list renders to one quoted item per allocated node, in order, and each reads back as that node's name. |
| Launch.WantedExactly | plm_k8s/plm_k8s_module.c:339-354 | The nodes launched are exactly the map's entries with a daemon that is not launched yet, in map order. |
| Launch.FillNodes | plm_k8s/plm_k8s_module.c:339-389 | The array holds the map's nodes that have a daemon not launched yet, in order, each with its own rank and env; it fails iff there are more of them than announced or a rank cannot be printed, and never writes past the end. |
| Launch.PlanLaunch | plm_k8s/plm_k8s_module.c:279-415 | From the map to one manifest whose text is the template's meaning for exactly these nodes, under the sanitized prefix or, without one, the launcher's own sanitized name; nothing is launched iff no node wants a daemon; and it fails iff there are more such nodes than announced, a rank cannot be printed, or a request for the output buffer was refused. |
| Launch.LaunchFields | plm_k8s/plm_k8s_module.c:364-410 | What the template then sees: the name, the map's first vpid and, of every wanted node in order, its raw name if it has one, its daemon's printed rank and its slots. |
| Launch.GetBaseName | plm_k8s/plm_k8s_module.c:208-220 | A configured prefix alone decides the base name, if there is one; otherwise the launcher's own name does; each is sanitized to at most 50 characters. |
| Launch.BaseNameFrom | plm_k8s/plm_k8s_module.c:208-220 | Two DVMs with the same prefix have the same base name, whatever their own names are, and a DVM without one whose own name is that text has it too. |
| Launch.CommonEnvOfLaunch | plm_k8s/plm_k8s_module.c:379-408 | In every launch, every node's env list without the vpid is the common env list, and every node's rank is its own daemon's. |
| Identity.Entrypoint | templates/single-job.yaml.tmpl:87-106 | The script's loop over the split map decides the vpid, the last matching pair winning, and refuses to start without one. |
| Identity.ScriptDecides | templates/single-job.yaml.tmpl:87-106 | In any environment: the last field of `PRTE_K8S_NODE_VPIDS` that starts with the node's name and a colon decides, and the vpid is what follows that colon; without such a field it is what `PRTE_MCA_ess_base_vpid` is set to; and with an empty one no daemon is started. |
| Identity.LastEntry | templates/single-job.yaml.tmpl:107-118 | Of several entries of a name a container gets the last; a name without an entry is unset. |
| Identity.FieldsOfMap | plm_k8s/plm_k8s_template.c:739-749 | Splitting the printed map at commas gives back exactly the printed pairs. |
| Identity.LookupLast | templates/single-job.yaml.tmpl:93-97 | The loop finds the rank of the last node of that name, and leaves the variable alone if there is none. |
| Identity.PodEnvValues | templates/single-job.yaml.tmpl:107-118 | In a pod's environment the node name and the map are what the manifest says and the vpid is unset, whatever the common settings are, if they leave it out; `PodSpec.PodEnvRendered` reads that environment from the manifest. |
| Identity.PodIdentity | templates/single-job.yaml.tmpl:87-118 | For distinct names, a pod takes exactly the rank of the node it is on, and refuses to start iff that node is not in the map. |
| Identity.MapLine | templates/single-job.yaml.tmpl:112-113 | The line that carries the map renders to a quoted scalar that reads back as the map, although the renderer does not quote it. |
| PodSpec.PodEnvRendered | templates/single-job.yaml.tmpl:107-118 | The rendered env list, read back on a node, is the pod's environment - the node, the map, the constants and the common settings - iff there are common settings and all their values are readable; otherwise it cannot be read. |
| PodSpec.TemplateLines | templates/single-job.yaml.tmpl:107-118 | The lines of the env list that the template has itself, as they are written. |
| PodSpec.ManifestIdentity | templates/single-job.yaml.tmpl:87-118 | In every launch, on whatever node a pod reads its rendered env list, the script starts the daemon that the launch mapped there under its own rank, and none on a node without one. |
| Identity.LaunchRanks | plm_k8s/plm_k8s_module.c:364-379 | Different daemons get different ranks in the map, and ranks survive it. |
| Identity.LaunchLeavesVpidUnset | plm_k8s/plm_k8s_module.c:398-408 | The common settings of a launch never set the variable the script looks up. |
| Scheduler.RunKeeps | templates/single-job.yaml.tmpl:16-28 | Over every run of binds, starts and exits that the affinity rules allow: placed pods have different hostnames, running pods are the daemon mapped to their machine, refused ones are on machines without a daemon. |
| Scheduler.RunningDistinct | templates/single-job.yaml.tmpl:64-106 | At any moment of any run, no two running pods have the same vpid. |
| Scheduler.StartedLaunched | templates/single-job.yaml.tmpl:50-106 | The running vpids are among the launched ones, and once all pods run they are exactly the launched ones. |
| Scheduler.StartOutcome | templates/single-job.yaml.tmpl:99-104 | A placed pod refuses to start iff its machine has no daemon in the map. |
| Scheduler.LaunchSound | plm_k8s/plm_k8s_module.c:339-410 | Every launch over distinct, well-formed node names and distinct daemons meets the assumptions of these results in every cluster. |
| Rollout.ItemsRoundTrip | templates/single-job.yaml.tmpl:64-70 | The rendered affinity list reads back as the names it was rendered for, in order. |
| Rollout.CountsRender | templates/single-job.yaml.tmpl:51-52 | The rendered `completions` and `parallelism` lines read back as the number of nodes. |
| Rollout.ManifestSays | templates/single-job.yaml.tmpl:50-118 | A rendered manifest of such a template has the counts, the affinity list and the env list, and each reads back as what the launch says. |
| Rollout.ManifestText | templates/single-job.yaml.tmpl:64-118 | A template that lists nodes and env as the default one does, with any text before and between, renders to that text, the affinity list, the text between and the env list. |
| Rollout.ReadsRunIs | templates/single-job.yaml.tmpl:50-118 | A cluster that takes the number of pods from the count lines, where they may go from the affinity list and who they are from the env list does exactly what the launch allows. |
| Rollout.ManifestRuns | plm_k8s/plm_k8s_module.c:279-415 | In every run of a cluster that reads these three from the rendered text of a launch, there are as many pods as nodes; running pods have different vpids, each the one launched for its node; and all launched ones, once all pods run. |
| Cleanup.SelectsOwn | plm_k8s/plm_k8s_module.c:84-85 | The selector of the shutdown matches an object iff its labels `prrte.kubepmix.dev/managed-by` and `prrte.kubepmix.dev/dvm` are `plm-k8s` and this base name. |
| Cleanup.SelectsOther | plm_k8s/plm_k8s_module.c:208-220 | The shutdown of one DVM selects what another one applied iff the words of their names that fit into 50 characters are the same. |
| Cleanup.SharedName | plm_k8s/plm_k8s_module.c:208-220 | Job names that differ in one character that is neither letter nor digit share their objects. |
| Cleanup.LabelLines | templates/single-job.yaml.tmpl:45-47 | The template's label lines render to scalars that read back as what the selector asks for. |
| Ownership.Launches.Cleanup | plm_k8s/plm_k8s_module.c:461-467 | A failing launch removes its manifest if there is one, releases its caddy once, gives its job reference back and fails the job. |
| Ownership.Launches.Launch | plm_k8s/plm_k8s_module.c:417-469 | A caddy stays live, with its manifest on disk, iff the manifest was written and kubectl forked; otherwise it is released, the job is let go and no file is left. |
| Ownership.Launches.WaitApply | plm_k8s/plm_k8s_module.c:688-747 | The callback releases the caddy once; it removes the manifest iff kubectl succeeded outside a teardown, and fails the job iff kubectl failed outside one. |
| Ownership.OneLaunch | plm_k8s/plm_k8s_module.c:417-747 | From end to end the caddy is released exactly once, every job is retained as before, and the manifest is left iff kubectl failed or a teardown came first. |
| Embed.Generate | contrib/embed-default-template.py:40-51 | The list of rows, its last one amended, joins to the declaration of one escaped literal per template line. |
| Embed.EscapedQuoted | contrib/embed-default-template.py:47 | The two replacements, one after the other, escape every backslash and quote exactly once. |
| Embed.Phase1Line | contrib/embed-default-template.py:47-48 | The escapes neither hide a trigraph of the template nor make a new one. |
| Embed.BodyGood | contrib/embed-default-template.py:47-48 | A compiler reads the literal of a line without trigraphs as that line and its line break. |
| Embed.BodyBound | contrib/embed-default-template.py:47-48 | The literal of any line is read as at most that line, and as less if it holds a trigraph - or the text does not compile. |
| Embed.EmbedRoundTrip | contrib/embed-default-template.py:40-51 | The compiled string is the template text up to one added final line break, iff the text is not empty and has no carriage return, no NUL and, where they count, no trigraph. |
| Differences.NotEmbedded | contrib/embed-default-template.py:40-51 | The empty text, a carriage return, a NUL and, for a compiler that honours it, a trigraph do not come back. |
| Preposition.AddressesRoundTrip | filem_rsync/filem_rsync_module.c:373-393 | Whatever the URI looks like, the daemons split the announced list into exactly the launcher's addresses. |
| Preposition.AddressesOfUri | filem_rsync/filem_rsync_module.c:365-393 | A URI with a tcp clause yields its hosts in order, then 127.0.0.1. |
| Preposition.AddressesAlone | filem_rsync/filem_rsync_module.c:373-393 | Without a URI, a tcp clause in it or a colon behind that, 127.0.0.1 is the only address. |
| Preposition.Daemon.RecvPreposition | filem_rsync/filem_rsync_module.c:871-975 | The handler records and does exactly what its specification lists, in that order, for every message, well-formed or not. |
| Preposition.Daemon.PullFromFirst | filem_rsync/filem_rsync_module.c:912-952 | The addresses are pulled from in order until one works. |
| Preposition.HandledOnce | filem_rsync/filem_rsync_module.c:871-975 | Every message that names a job is answered exactly once, last of all; with success iff it is well-formed, the directory could be made and some address worked; a stash is recorded, before the answer, iff it is success; the addresses tried are the shortest prefix ending in one that works. |
| Preposition.FirstPull | filem_rsync/filem_rsync_module.c:895-943 | Of a whole message the first pull is from `rsync://`, the first address, the port, the module and the job's name, into the job's directory under `filem-rsync`. |
| Preposition.NotWhole | filem_rsync/filem_rsync_module.c:879-901 | A message that names a job but is too short, or has a datum of the wrong kind or a port of more than 16 bits, is answered with an error, and nothing is pulled. |
| Preposition.StashesApart | filem_rsync/filem_rsync_module.c:684-903 | No job's stash directory is, contains or lies in any job's staging directory, even under the same session directory. |
| Differences.Unanswered | filem_rsync/filem_rsync_module.c:879-890 | A message whose job name is not a string is dropped without an answer. |
| Exported.UrlNames | filem_rsync/filem_rsync_module.c:931-933 | The URL that a daemon builds names the job's directory, in the announced module, at the announced port of the address tried. |
| Exported.ReachesTree | filem_rsync/filem_rsync_module.c:699-703 | At every address the launcher announces, that URL reaches the very tree exported for the job, if the port is below 65536 and the address is not another machine's loopback. |
| Exported.MissesTree | filem_rsync/filem_rsync_module.c:730-734 | With a port above that, it reaches the tree at none of the addresses. |
| Exported.HandledPull | filem_rsync/filem_rsync_module.c:912-969 | A daemon that records a stash has pulled the tree staged for that job, whichever address worked. |
| Exported.HandledDir | filem_rsync/filem_rsync_module.c:895-969 | Pulls go into the job's own stash directory and nowhere else, and that directory is what is recorded. |
| Preposition.Daemon.FindStash | filem_rsync/filem_rsync_module.c:981-994 | The first stash recorded for the job, or none. |
| Preposition.StashedFirst | filem_rsync/filem_rsync_module.c:981-994 | For every list of stashes: the directory of the first one of that job, and none iff no stash is that job's. |
| Preposition.Daemon.LinkLocalFiles | filem_rsync/filem_rsync_module.c:1040-1078 | An app that asked neither for its binary nor, with the option set, for files is left alone, and so is every app without a stash of its job; otherwise its directory and PWD become that of the first such stash if chdir works, and if it fails the app is left alone and that is the error. |
| Hnp.CollectSources | filem_rsync/filem_rsync_module.c:627-671 | The sources of all apps in order, absolute; and exactly the apps with a preloaded binary are renamed, `app` and `argv[0]` alike to `./` and its base name, in place. |
| Hnp.NextApp | filem_rsync/filem_rsync_module.c:594-670 | The next app adds its binary, if that is preloaded, and then every field of its comma-separated list, in order; each as it is if it starts with a slash, and behind the working directory and a slash if not. |
| Hnp.NoApp | filem_rsync/filem_rsync_module.c:627-631 | A missing app adds nothing, and without apps there are no sources. |
| Hnp.StageSources | filem_rsync/filem_rsync_module.c:408-469 | Staging succeeds iff the directory can be made and every source exists and links; then what the directory held is overlaid with the merge of all sources; the error is "not found" iff the first source that does not link is missing, and "cannot open" iff the directory cannot be made. |
| Hnp.MergedPaths | filem_rsync/filem_rsync_module.c:395-407 | The merge of the sources holds every path of every source and no other. |
| Hnp.OffersMerged | filem_rsync/filem_rsync_module.c:395-440 | Every path of a source directory is merged at the root, and every source file under its base name; with its content where no other source has that path. |
| Hnp.StagedPaths | filem_rsync/filem_rsync_module.c:408-469 | The staged tree holds every path of every source and what the job's directory held before, and no other path. |
| Hnp.MergedContent | filem_rsync/filem_rsync_module.c:395-407 | A path of only one source is merged with that source's content. |
| Hnp.BinaryStaged | filem_rsync/filem_rsync_module.c:632-651 | A preloaded binary is in the tree under the very name its app is rewritten to. |
| Hnp.Launcher.StartRsyncd | filem_rsync/filem_rsync_module.c:695-714 | The exporting daemon is started at most once, on the configured port if that is positive and on a free one otherwise; the error codes say why it was not. |
| Hnp.Launcher.Export | filem_rsync/filem_rsync_module.c:688-714 | Staging and exporting succeed iff everything links and the daemon runs or can be started; the job's directory is what it was overlaid with the merge of the sources, and no other job's changes. |
| Hnp.Launcher.PrepositionFiles | filem_rsync/filem_rsync_module.c:609-783 | Without sources the callback fires at once with success. Otherwise success iff everything staged, exported and sent: then the sources are merged into the job's directory, one fresh tracker is there, and the order names the job, all addresses, the module `preload` and, as 16 bits, the port: the configured one if that is positive, where the daemon was started for this; on any failure no tracker and no callback is left; and no other job's directory changes. |
| Hnp.OrderSays | filem_rsync/filem_rsync_module.c:716-760 | Every order names the job, the one module `preload` and addresses that split into exactly the launcher's. |
| Hnp.Launcher.Announce | filem_rsync/filem_rsync_module.c:716-774 | The tracker is there before the order goes out; if it does not go out, no tracker is left. |
| Hnp.AnnouncedPort | filem_rsync/filem_rsync_module.c:730-734 | The port in the order is the exported one iff it is below 65536; then daemons unpack the very order that was packed. |
| Differences.OtherPort | filem_rsync/filem_rsync_module.c:734 | Port 70000 is announced as 4464. |
| Hnp.AckRoundTrip | filem_rsync/filem_rsync_module.c:789-869 | A packed answer is unpacked as the job and status that were packed. |
| Hnp.Tracker.Count | filem_rsync/filem_rsync_module.c:824-838 | The first failure sticks, and the callback is due exactly when the last awaited answer arrives, once. |
| Hnp.Launcher.RecvAck | filem_rsync/filem_rsync_module.c:789-842 | A buffer changes what its unpacked answer says: the first tracker of its job and no other; a malformed or unknown one changes nothing. |
| Hnp.AnsweredExactly | filem_rsync/filem_rsync_module.c:789-842 | Datum by datum: without a job name and a number, or with a name that has no tracker, nothing changes; otherwise the first tracker of the name has one answer more, keeps the first failure it has seen and, with as many answers as it waits for, fires its callback, once. |
| Hnp.OnlyFirstCounts | filem_rsync/filem_rsync_module.c:818-840 | After any sequence of answers, the first tracker of a job name has seen all of that name and every later one none. |
| Differences.SecondNeverCounts | filem_rsync/filem_rsync_module.c:818-840 | Of two trackers of one name the second never changes, whatever arrives. |
| Hnp.ToldExactly | filem_rsync/filem_rsync_module.c:818-840 | A job is told once, iff its first tracker has a callback and as many answers as there are daemons arrived, and told whether the first that many were all success. |
| Hnp.ToldSuccess | filem_rsync/filem_rsync_module.c:818-840 | It is told success iff the first that many answers of its name were each success. |
| Network.RepliedKept | filem_rsync/filem_rsync_module.c:848-869 | After a daemon's answer, every daemon and job still has exactly one of: order on its way, answer on its way, answer counted, message lost. |
| Network.DeliveredKept | filem_rsync/filem_rsync_module.c:789-842 | The same after the launcher has counted an answer. |
| Protocol.RunInv | filem_rsync/filem_rsync_module.c:8-46 | Over every run with any jobs, losses, pulls and interleaving, messages, trackers, callbacks and stashes agree. |
| Protocol.AnswerAwaited | filem_rsync/filem_rsync_module.c:724-730 | Every answer on its way will find a tracker that still waits for it: the tracker exists before the order. |
| Protocol.CallbackOnce | filem_rsync/filem_rsync_module.c:828-838 | In every run each job's callback fires at most once. |
| Protocol.CallbackMeaning | filem_rsync/filem_rsync_module.c:824-838 | It never fires before every daemon's answer has arrived, and reports success iff all those answers were success. |
| Protocol.NothingAsked | filem_rsync/filem_rsync_module.c:673-681 | A callback for a job without sources reports success. |
| Protocol.AllCountedFires | filem_rsync/filem_rsync_module.c:724-730 | No answer is lost on the launcher: once every daemon's answer has been delivered, the callback has fired. |
| Protocol.QuietFires | filem_rsync/filem_rsync_module.c:39-46 | A job with no message on its way and none lost has had its callback. |
| Protocol.OutcomeAnswer | filem_rsync/filem_rsync_module.c:954-969 | The answer that travels is the status the handler sends last, for the job it was asked about, and is success iff a stash was recorded. |
| Protocol.CollectReceives | filem_rsync/filem_rsync_module.c:789-869 | What the launcher unpacks from the travelling buffer is the answer that the daemon gave. |
| Protocol.OutcomeDisk | filem_rsync/filem_rsync_module.c:895-969 | Handling an order changes only the job's own directory on that daemon, and records it as a stash only with the tree in it that was staged for the job, if the exported port is below 65536. |
| Protocol.SuccessReachesAll | filem_rsync/filem_rsync_module.c:933-1078 | After a success callback, on every daemon every app that asked for its binary, or for files with the option set, is run in a stash; and it holds the tree that was staged and exported for that job, if the exported port is below 65536. |
| Protocol.AskedTree | filem_rsync/filem_rsync_module.c:627-714 | In every run, what a job asked for is in the tree that stays exported for it, with its content. |
| Protocol.StagedKeeps | filem_rsync/filem_rsync_module.c:408-469 | What a failed request staged stays, except where the next one has something at the same path. |
| Protocol.BinaryReachesAll | filem_rsync/filem_rsync_module.c:632-1078 | After a success callback, on every daemon an app with a preloaded binary is run in a directory that holds that binary under the very name the app was rewritten to, with the merged content, if the exported port is below 65536. |
| Protocol.FilesReachAll | filem_rsync/filem_rsync_module.c:652-1078 | After a success callback, on every daemon the job's stash holds what is in every file and directory that an app lists - a directory's contents at the root, a file under its base name - with that content where no other source has that path; and that app is run in it, if its binary is preloaded too or the option is set; all this if the exported port is below 65536. |
| Protocol.StashIffSuccess | filem_rsync/filem_rsync_module.c:954-994 | In every run a daemon finds a stash for a job iff it has answered that job with success. |

## Left out

- EnvBlock.BlockRoundTrip: names are letters, digits, `_`, `-` and `.`, start with a letter and are not YAML 1.1's words for booleans and null, as all keys with an MCA prefix are; other names may not read as that text, and the reader rejects them.
- Identity.PodIdentity: names and ranks are of the same characters; pathname expansion of the unquoted map and `$(VAR)` expansion by Kubernetes do not arise for them and are not modelled.
- Columns.EnvTagRendered: without any node, plain text behind a section can lose the line break that only the body had; the theorem covers that case where the plain text before it ends a line.
- Rollout.ManifestRuns: a Job whose `completions` and `parallelism` differ is not modelled; the default template prints the same number for both, and both are read back.
- Scheduler.RunKeeps: a pod that ended no longer counts for the anti-affinity rule, so vpids are compared among pods that run at the same time.
- Hnp.MergedContent: what happens when several sources have the same path is rsync's decision (its quick check), so nothing is claimed about such a path's content.
- Protocol.SuccessReachesAll: a name in the launcher's URI stands for the launcher's machine; what answers there at another port than the announced one is not modelled.
- Verbatim.SpanVerbatim: that only text without a tag comes out as it is, is claimed where no value holds an opening brace; with one, a value can spell the very tag it replaces.
- Protocol.RunInv: the number of daemons is fixed and at least one, a job whose request went through does not ask again, job names are no directory prefixes of each other, and `nrecvd` does not wrap around.
- StrBuf.Buffer.Reserve: sizes are unbounded here; `StrBuf.RoomExact`, `StrBuf.GrowthEnds` and `StrBuf.GrowthAgrees` say when that is what 64 bits compute: where length, request and terminator together are at most 2^63.
- Sections.Render: a refused allocation outside the output buffer is not modelled; there the code returns nothing or skips an env entry.
- Template loading, `~` expansion, writing the manifest to a temporary file, fork, exec, wait, alarms and sockets: foreign calls, present only as outcomes.
- rsync's transfer semantics, its option list and its configuration file.
- MCA registration, help texts, verbose output and the wording of diagnostics.
- PRRTE and PMIx internals: message transport, state machine, base command line, attribute storage.
- The kubectl command line around the selector, and the order of parameter deregistration that makes the component snapshot it.
- The Volcano, list-of-jobs and per-node templates, images, build files and shell tests: configuration, or easier cases of the identity results.
- The licence comment and includes that the generator writes before the declaration, and the decoding of the file's bytes into characters.
