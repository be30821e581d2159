# stlog, modelled in Dafny

A model of the core of `stlog`, a Python library that adds structured
key/value context to the standard `logging` module. The model covers:

- the execution log context: a per-execution-unit mapping changed copy on
  write by `add`, `remove`, `reset_context` and `bind`;
- the older `standard_structlog` execution context, whose `remove` changes
  the shared mapping in place;
- the logger adapter that merges logger-level extras, the explicit `extra=`
  dict, the context and the call-site keyword arguments into the record's
  `extra`, and marks the result with the set of keys it brought;
- the filter and the two handler wrappers that reinject the context into
  records logged through plain `logging`;
- the logfmt encoding, the JSON-type check of logger-level extras and the
  context seeded from environment variables;
- the key/value formatters (empty, template, logfmt) with value truncation;
- the human formatter's `extras` rendering (`add_extras`, `remove_extras`,
  `format`), the include/exclude glob filtering of keys, and the value
  serialisation;
- the JSON formatter's `merge_record_extra`, its renaming of fields, and its
  parsing of `%(name)s` placeholders;
- the log-file path resolution of the file output, and the `apilink` macro
  of the documentation site.

Python values are the datatype `PyValue.Value`. Record attributes are a
`map<string, Value>` field of the class `Records.LogRecord`. Dicts that the
source shares and mutates are the class `Records.Dict`. Every method that
mutates state in the source is a Dafny `method` with a `modifies` clause. It
is proved against a specification function of the old state, and the
properties the library promises are lemmas about those functions.

The adapter's precedence follows the code in `stlog/adapter.py:24-61`. The
call-site keyword arguments win over the context. The context wins over the
explicit `extra=` dict, which wins over the logger-level extras. The
library's own description puts the explicit `extra=` dict above the context;
the code merges the context into the keyword arguments first, so a context
key overrides `extra=`.

## Model

| member | source | states |
|---|---|---|
| Base.CheckJsonTypes | stlog/base.py:55-70 | passes exactly on values made of None, bool, int, float and str through lists and str-keyed dicts (the reference predicate `IsJson`); every failure is `StLogError` |
| Base.CheckItems | stlog/base.py:63-65 | the items of a list from index i on pass exactly when each is JSON-like |
| Base.CheckEntries | stlog/base.py:66-70 | the entries of a dict from index i on pass exactly when each key is a str and each value JSON-like |
| Base.NestedOffenderRejected | stlog/base.py:55-70 | a set, or a dict with a non-str key, anywhere in a list makes the whole check fail with `StLogError` |
| Base.Escape | stlog/base.py:78-81 | escaped text never holds a raw newline and is empty only for empty input |
| Base.ReplaceTwiceIsEscape | stlog/base.py:78-81 | the two successive `replace` calls equal one-pass escaping of `"` and newline |
| Base.LogfmtFormatString | stlog/base.py:74-84 | the empty string becomes `""`; text with a space or `=` is escaped and quoted; other text is escaped only; the output never holds a newline |
| Base.EscapeRoundTrip | stlog/base.py:78-81 | unescaping recovers any backslash-free text from its escaped form |
| Base.LogfmtStringRoundTrip | stlog/base.py:74-84 | reading back the logfmt form of a backslash-free string gives the string |
| Base.NewlineAndBackslashNCollide | stlog/base.py:74-84 | a newline and the two characters `\n` are written identically (backslashes are not escaped), so the encoding is not injective |
| Base.LogfmtFormatValue | stlog/base.py:88-95 | None is empty, booleans are `true`/`false` (checked before numbers), ints are their decimal text, floats their `str()`, strings go through `logfmt_format_string` |
| Base.Kept | stlog/base.py:99-106 | keeps, in order, exactly the pairs whose value is not a dict, list or set instance when compound types are ignored |
| Base.LogfmtPieces | stlog/base.py:100-105 | when they exist, there is one piece per kept pair |
| Base.PiecesPointwise | stlog/base.py:100-105 | piece `i` is `key=value` for kept pair `i`; the pieces are absent exactly when some value's `str()` raises |
| Base.LogfmtFormat | stlog/base.py:99-106 | defined exactly when the `str()` of every kept value succeeds |
| Base.KeptAppend | stlog/base.py:99-106 | the pairs kept from `a + b` are those kept from `a`, then those kept from `b` |
| Base.PiecesAppendDefined | stlog/base.py:100-105 | the pieces of `a + b` exist exactly when those of `a` and of `b` do |
| Base.PiecesAppend | stlog/base.py:100-105 | the pieces of `a + b` are the pieces of `a`, then those of `b` |
| Base.LogfmtFormatAppend | stlog/base.py:99-106 | the text of `a + b` is the texts of `a` and `b` joined by one space, a part that keeps nothing adding nothing; defined exactly when both are |
| Base.LogfmtFormatPair | stlog/base.py:99-106 | a single pair gives `key=value`, or the empty text when it is a dropped compound value |
| Base.LogfmtFormatEmpty | stlog/base.py:99-106 | the logfmt text is empty exactly when no pair is kept |
| Base.EnvGet | stlog/base.py:112 | finds a variable exactly when the environment defines it, with a value it holds |
| Base.GetEnvPrefixContext | stlog/base.py:123-133 | the loop builds the prefix context: later variables win on the same lower-cased key |
| Base.PrefixContextKeys | stlog/base.py:123-133 | a key is present exactly when some variable is the prefix followed by a non-empty name that lower-cases to it, and every value is a str |
| Base.BarePrefixDropped | stlog/base.py:129-131 | a variable named exactly `STLOG_ENV_CONTEXT_` adds nothing |
| Base.EnvJsonContext | stlog/base.py:109-120 | an unset or unparsable JSON variable gives `{}`; otherwise the parsed value as is |
| Base.MergedEnvContext | stlog/base.py:143 | every JSON pair is kept, and a prefix pair survives exactly when JSON lacks its key |
| Base.StrKeyed | stlog/base.py:143-153 | the str-keyed view of the merged context holds exactly its str keys with their values |
| Base.GetEnvContext | stlog/base.py:136-153 | equals the specification: the ignore switch gives `{}`, a non-dict JSON value is a `TypeError`, a reserved, non-str or non-identifier key is `StLogError`, otherwise the merged context |
| Base.CheckEnvKeys | stlog/base.py:144-152 | the key loop answers true exactly when every key is a non-reserved str identifier |
| Base.EnvJsonOverridesPrefix | stlog/base.py:143 | on a key in both sources the JSON value wins |
| Base.EnvInvalidJsonIgnored | stlog/base.py:113-120 | an unset or unparsable JSON variable leaves exactly the prefix context |
| Base.EnvIgnoredIsEmpty | stlog/base.py:137-142 | the switch set to `1`, `true` or `yes` in any letter case with any white space around it yields an empty context whatever else is set |
| Base.IgnoreSwitch | stlog/base.py:137 | a switch word padded with white space, lower-cased and stripped, is the lower-cased word |
| Text.StripPadded | stlog/base.py:137 | `strip()` removes any white-space padding, and nothing else, around a text that neither starts nor ends with white space |
| Base.EnvBadKeyRaises | stlog/base.py:144-152 | a reserved or non-identifier key from either source makes the result `StLogError` |
| Context.Overlay | stlog/context.py:21-25 | `{**prev, **kv}`: new pairs win, other keys keep their value |
| Context.RemoveKeys | stlog/context.py:35-41 | exactly the named keys are gone (absent ones ignored), the rest unchanged |
| Context.RunSpecRaises | stlog/context.py:51-63 | a block raises exactly when some step raises or some nested `bind` block raises, run from the state its prefix produced |
| Context.ExecutionLogContext.Instantiate | stlog/context.py:13-14 | records the source's refusal: instantiating the class always fails with `TypeError` (a fact of the source, not a derived property) |
| Context.ExecutionLogContext.ResetContext | stlog/context.py:16-19 | installs a fresh empty mapping |
| Context.ExecutionLogContext.AddWithToken | stlog/context.py:21-25 | installs a fresh mapping equal to the old one overlaid with the pairs; the token keeps the old mapping object |
| Context.ExecutionLogContext.Add | stlog/context.py:27-33 | installs a fresh mapping equal to the old one overlaid with the pairs |
| Context.ExecutionLogContext.Remove | stlog/context.py:35-41 | installs a fresh mapping without the named keys; the old mapping object is untouched |
| Context.ExecutionLogContext.Get | stlog/context.py:43-49 | returns the current mapping object |
| Context.ExecutionLogContext.ResetToken | stlog/context.py:59-63 | restores the mapping object the token saved |
| Context.ExecutionLogContext.Bind | stlog/context.py:51-63 | after the block, whether it raised or not, the very mapping object from before is current again with the same contents; reports whether the block raised |
| Context.ExecutionLogContext.Run | stlog/context.py:16-63 | running a block of context operations ends in the state and the raise flag of the specification |
| Context.SnapshotIsStable | stlog/context.py:35-49 | a mapping obtained from `_get` keeps its contents across a later add, remove and reset |
| LegacyContext.ExecutionContext.ResetContext | standard_structlog/context.py:11-13 | installs a fresh empty mapping |
| LegacyContext.ExecutionContext.AddWithToken | standard_structlog/context.py:15-18 | installs a fresh overlaid mapping; the token keeps the old one |
| LegacyContext.ExecutionContext.Add | standard_structlog/context.py:20-22 | installs a fresh overlaid mapping |
| LegacyContext.ExecutionContext.Remove | standard_structlog/context.py:24-32 | pops the named keys from the current mapping in place; the object stays the same |
| LegacyContext.ExecutionContext.Get | standard_structlog/context.py:34-36 | returns the current mapping object |
| LegacyContext.ExecutionContext.ResetToken | standard_structlog/context.py:41-45 | restores the saved mapping object |
| LegacyContext.ExecutionContext.Bind | standard_structlog/context.py:38-45 | the mapping object from before is current again after the block, with its contents, since every removal inside the block acts on a mapping created inside it; reports whether it raised |
| LegacyContext.ExecutionContext.Run | standard_structlog/context.py:11-45 | a block of operations ends in the specification's state and raise flag |
| LegacyContext.SnapshotSeesRemoval | standard_structlog/context.py:24-36 | a mapping obtained from `get` sees a later `remove`: it is the same object, now without the keys |
| Adapter.ExplicitPairs | stlog/adapter.py:33-35 | no pairs unless a truthy `extra=` argument is given |
| Adapter.KeyedPair | stlog/adapter.py:35 | an element's pair is stored exactly when its key is hashable; otherwise `TypeError` |
| Adapter.ElementPair | stlog/adapter.py:35 | an element of a pair iterable yields at most one pair |
| Adapter.SeqPairs | stlog/adapter.py:35 | a pair iterable that is read through stores one pair per element |
| Adapter.FirstBadElement | stlog/adapter.py:35 | `dict.update` on a pair iterable ends with the outcome of the first element that is not a pair |
| Adapter.AllElementsPairs | stlog/adapter.py:35 | when every element is a pair, `dict.update` stores exactly those pairs, in order |
| Adapter.PairListAgreesWithDict | stlog/adapter.py:35 | a list of `(str, value)` tuples stores the same pairs as the dict with those entries |
| Adapter.UpdateExamples | stlog/adapter.py:35 | `{1: "x"}` stores an int key, `[("a", 1)]` and `["ab"]` store `a`, a nested list key raises `TypeError`, `5` raises `TypeError`, `"ab"` raises `ValueError` |
| Adapter.ExplicitPairListExample | stlog/adapter.py:33-35 | `extra=[("a", 1)]` contributes `a` with the value 1 |
| Adapter.WithoutExplicitExtra | stlog/adapter.py:33-35 | after the pop, no truthy `extra` argument remains |
| Adapter.Restrict | stlog/adapter.py:36-41 | exactly the reserved keyword arguments, with their values |
| Adapter.Drop | stlog/adapter.py:36-41 | exactly the non-reserved keyword arguments, with their values |
| Adapter.MergeExtra | stlog/adapter.py:33-41 | keys from the logger, the explicit dict and moved keyword arguments; moved arguments win over the explicit dict, which wins over the logger |
| Adapter.MergedKwargs | stlog/adapter.py:57-60 | a logger that ignores the context passes the keyword arguments alone |
| Adapter.CheckLoggerExtra | stlog/adapter.py:29-32 | passes exactly when every logger-level value is JSON-like; failures are `StLogError` |
| Adapter.MoveKeywords | stlog/adapter.py:36-41 | non-reserved keyword arguments move into `extra` (over same-named keys), reserved ones stay |
| Adapter.MovedMaps | stlog/adapter.py:36-41 | the loop's pointwise result is `extra + Drop(kwargs)` and `Restrict(kwargs)` |
| Adapter.ExtraArgNotReserved | stlog/base.py:29-52 | neither `extra` nor the marker key is a reserved record attribute |
| Adapter.StLogLoggerAdapter.GetLogger | stlog/adapter.py:70-80 | a new adapter whose extras are the keyword arguments and which reads the context |
| Adapter.StLogLoggerAdapter.KeywordProcess | stlog/adapter.py:24-44 | equals the specification of `_KeywordArgumentAdapter.process`, errors included, with `extra=` read as `dict.update` reads it |
| Adapter.StLogLoggerAdapter.Process | stlog/adapter.py:54-61 | equals the specification with the current context merged under the call-site arguments, unless ignored |
| Adapter.ProcessErrors | stlog/adapter.py:24-44 | fails exactly when the logger has no extras (`UnboundLocalError`), a logger value is not JSON-like (`StLogError`), or a truthy `extra=` is one `dict.update` raises on (with that exception) or one the model does not follow (`Unmodelled`) |
| Adapter.ProcessPrecedence | stlog/adapter.py:24-61 | a non-reserved key is present iff a source has it; its value comes from the call site, else the context, else `extra=`, else the logger |
| Adapter.ProcessExtra | stlog/adapter.py:33-42 | on success `extra` is the merged dict with the marker of its own keys added |
| Adapter.MergeExtraAt | stlog/adapter.py:33-41 | a non-reserved key is in the merged dict iff a keyword argument, the explicit dict or the logger has it, taking its value in that order |
| Adapter.ProcessShape | stlog/adapter.py:24-44 | the message is unchanged, only reserved arguments stay in `kwargs`, `extra` holds exactly the source keys plus the marker, and the marker lists those keys |
| Adapter.IgnoredContextAbsent | stlog/adapter.py:57-58 | a logger ignoring the context gets no key that only the context has |
| Adapter.PrecedenceExample | stlog/adapter.py:54-61 | logger `{a:1}`, context `{a:2}`, `extra={"a":4}` and call-site `a=3` give `a == 3` |
| Adapter.ExampleSucceeds | stlog/adapter.py:29-35 | JSON-like logger extras and a str-keyed `extra=` dict make processing succeed |
| Reinject.SetAttrs | stlog/filter.py:31-33 | the record's attributes become the old ones overlaid with the pairs; the names set are the pairs' keys |
| Reinject.InjectedShape | stlog/handler.py:17-29 | injection sets every context pair and `managed = True`, keeps other attributes, and the key set grows by exactly those names |
| Reinject.InjectedIsManaged | stlog/handler.py:19-28 | an injected record counts as managed and its key set is a set |
| Reinject.Inject | stlog/handler.py:23-28 | the record's attributes become the injected ones |
| Filter.FilterEnriches | stlog/filter.py:24-41 | a record with the marker is unchanged; any other gets every context pair, keeps its other attributes, and gains the marker |
| Filter.FilterMarker | stlog/filter.py:29-40 | the marker names the context keys, plus every non-reserved attribute name when `read_extra_kwargs` is on |
| Filter.FilterIdempotent | stlog/filter.py:25 | filtering a record again changes nothing, whatever the context became |
| Filter.ContextReinjectFilter.Filter | stlog/filter.py:24-41 | always keeps the record and leaves it as the filter specification says |
| Filter.AddNonReserved | stlog/filter.py:34-39 | adds exactly the non-reserved attribute names |
| Handler.HandleEffect | stlog/handler.py:17-29 | with reinjection off or on a managed record nothing changes; otherwise the context pairs and `managed` are set and the key set grows by exactly their names |
| Handler.HandleTwice | stlog/handler.py:17-29 | handling a record twice injects the context at most once |
| Handler.ContextReinjectHandlerWrapper.Handle | stlog/handler.py:17-29 | the record is changed as specified and passed to the wrapped handler exactly once; the key-set attribute must hold a set only when the context is injected |
| Handler.HandleTwiceScenario | stlog/handler.py:17-29 | two `handle` calls on one record leave it as after one and pass it on twice |
| LegacyHandler.LegacyHandleEffect | standard_structlog/handler.py:13-26 | a managed record is unchanged; any other gets the context pairs and `managed`, and `_daiquiri_extra_keys` grows by exactly their names |
| LegacyHandler.LegacyHandleTwice | standard_structlog/handler.py:13-26 | handling a record twice injects the context at most once |
| LegacyHandler.ContextReinjectHandlerWrapper.Handle | standard_structlog/handler.py:13-26 | the record is changed as specified and passed on exactly once; `_daiquiri_extra_keys` must hold a set only when the context is injected |
| KvFormatter.TruncateStrAsWritten | stlog/kvformatter.py:14-19 | no limit or a short enough string is unchanged; otherwise Python's slice to `limit - 3` (negative bounds counted from the end) then `...` |
| KvFormatter.TruncateAsWrittenGrows | stlog/kvformatter.py:14-19 | `("abcdef", 2)` gives `"abcde..."`, longer than the input |
| KvFormatter.TruncateAsWrittenNotIdempotent | stlog/kvformatter.py:14-19 | truncating that result again changes it |
| KvFormatter.TruncateStr | stlog/kvformatter.py:14-19 | a string over a positive limit becomes its prefix plus `...`, of length `max(limit, 3)`; anything else is unchanged |
| KvFormatter.TruncateIdempotent | stlog/kvformatter.py:14-19 | truncating twice is truncating once |
| KvFormatter.TruncateAgrees | stlog/kvformatter.py:14-19 | for limits outside 1..2 the corrected truncation is the code's |
| KvFormatter.TruncateExample | stlog/kvformatter.py:14-19 | `"abcdefghijk"` at 5 is `"ab..."`; `"abc"` is kept |
| KvFormatter.TruncateSerialize | stlog/kvformatter.py:22-27 | a str is truncated as is, a failing `str()` gives the truncated `[can't serialize]`, and a limit of at least 3 bounds the length; the truncation is the corrected one of the Findings |
| KvFormatter.Insert | stlog/kvformatter.py:82 | inserting into a key-sorted sequence keeps it sorted and adds exactly the pair |
| KvFormatter.SortByKey | stlog/kvformatter.py:82 | `sorted(..., key=x[0])`: sorted by key and a permutation of the pairs |
| KvFormatter.Render | stlog/kvformatter.py:86 | a rendered template is at least as long as its literal text |
| KvFormatter.RenderAppend | stlog/kvformatter.py:86 | a template made of two parts renders as the first part's text followed by the second's |
| KvFormatter.RenderField | stlog/kvformatter.py:86 | literal text is copied, `{0}` becomes the key and `{1}` the value |
| KvFormatter.DefaultTemplateRender | stlog/kvformatter.py:73 | the default template `[{0}: {1}]` renders as `[key: value]` |
| KvFormatter.TemplatePieces | stlog/kvformatter.py:82-86 | one rendered piece per pair, holding its value truncated by the corrected rule |
| KvFormatter.TemplateFormat | stlog/kvformatter.py:79-90 | the loop yields the specification: sorted pieces joined, wrapped in prefix and suffix when non-empty |
| KvFormatter.TemplateFormatEmpty | stlog/kvformatter.py:79-90 | with a template holding literal text, the output is empty exactly when there are no pairs |
| KvFormatter.LogFmtFormat | stlog/kvformatter.py:105-109 | defined exactly when every sorted kept value's `str()` succeeds |
| KvFormatter.LogFmtFormatEmpty | stlog/kvformatter.py:100-109 | the output is empty exactly when every value is dropped as compound; otherwise prefix, logfmt of the sorted pairs, suffix |
| KvFormatter.Format | stlog/kvformatter.py:43-109 | dispatches each formatter variant to its own specification |
| Formatter.StarMatchesAll | stlog/formatter.py:69 | the default include glob `*` matches every key |
| Formatter.UnderscoreStarMatches | stlog/formatter.py:70 | the default exclude glob `_*` matches exactly the keys starting with `_` |
| Formatter.KeyUse | stlog/formatter.py:99-111 | a used key is a str; errors are `TypeError` |
| Formatter.UseExtraKey | stlog/formatter.py:99-111 | the two pattern loops give the specification: the marker key and unmatched keys are skipped, excluded keys are skipped |
| Formatter.DefaultKeyUse | stlog/formatter.py:62-111 | with the defaults a key is used exactly when it does not start with `_` |
| Formatter.SerializeExtraValue | stlog/formatter.py:120-133 | skipped exactly when non-None and not of a serialised type; a failing `str()` gives `[can't serialize]` untruncated; otherwise the truncated text |
| Formatter.Iterate | stlog/formatter.py:140 | sets follow the given order, lists and tuples their items, and scalars are not iterable (`TypeError`) |
| Formatter.Prepend | stlog/formatter.py:146-148 | prepending nothing or onto an error changes nothing |
| Formatter.PrependTwice | stlog/formatter.py:146-148 | prepending twice is prepending the concatenation |
| Formatter.ExtrasPiecesOk | stlog/formatter.py:140-148 | the pieces exist exactly when every key's use check succeeds and every used key is an attribute |
| Formatter.AddExtras | stlog/formatter.py:135-153 | on success the record is as specified (only `extras` without the marker; `extras` and `slevel_name` with it); on an error it is unchanged |
| Formatter.RemoveExtras | stlog/formatter.py:155-157 | removes `extras` then `slevel_name`, failing with `AttributeError` on the first one missing |
| Formatter.AddRemoveRoundTrip | stlog/formatter.py:135-157 | with the marker, removing after adding restores the record minus the two attributes |
| Formatter.FormatWithoutMarkerFails | stlog/formatter.py:135-157 | without the marker, `format` removes `extras` then fails on the missing `slevel_name` |
| Formatter.FormatLeavesBaseAttrs | stlog/formatter.py:159-164 | with the marker, the record ends as it was given minus `extras` and `slevel_name`, plus what the standard formatting wrote (`message` ...) |
| Formatter.Format | stlog/formatter.py:159-164 | add, standard formatting, remove: the result and the record's final attributes, including those the standard formatting writes, for each error path |
| Formatter.MergeRecordExtra | stlog/formatter.py:209-231 | returns the target itself, updated as the specification says |
| Formatter.MergeKeys | stlog/formatter.py:225-230 | the merged keys are the target's plus the renamed non-reserved, non-underscore attribute names |
| Formatter.MergeUntouched | stlog/formatter.py:225-230 | a target key no attribute is copied onto keeps its value |
| Formatter.MergeValue | stlog/formatter.py:225-230 | a copied attribute's value is at its renamed key unless a later copy lands there |
| Formatter.DestinationsMembers | stlog/formatter.py:225-230 | a name no copied attribute is renamed to is not a destination |
| Formatter.PerformRenameLogFields | stlog/formatter.py:382-385 | renames the fields in order as specified, failing with `KeyError` on a missing one |
| Formatter.RenameMoves | stlog/formatter.py:382-385 | a rename moves the value to the new key and keeps every other field |
| Formatter.RenameToItselfDeletes | stlog/formatter.py:382-385 | renaming a field to itself deletes it |
| Formatter.RenameMissing | stlog/formatter.py:382-385 | renaming a missing field raises `KeyError` and leaves the record unchanged |
| Formatter.CloseParen | stlog/formatter.py:346 | a found close is a `)` at or after the start |
| Formatter.Placeholders | stlog/formatter.py:346-351 | every name found is non-empty |
| Formatter.Parse | stlog/formatter.py:345-353 | over the effective `self._fmt`: an empty format gives no fields (a branch `logging.Formatter`'s `%(message)s` default leaves unreachable); every field name is non-empty |
| Formatter.SkipPlain | stlog/formatter.py:351 | text without `%` contributes no placeholder |
| Formatter.TakePlaceholder | stlog/formatter.py:346-351 | `%(name)` with a name free of `)` and newline yields exactly that name first |
| Formatter.ParseRoundTrip | stlog/formatter.py:345-351 | parsing a format built from plain text and `%(name)x` placeholders returns exactly their names in order |
| Output.PathJoin | stlog/output.py:32-36 | `os.path.join`: an absolute second part replaces the first; otherwise the result starts with the first part and ends with the second |
| Output.GetLogFilePath | stlog/output.py:20-41 | `ValueError` exactly when neither a log file nor a log directory is given; otherwise the file alone, the directory joined with the file, or the directory joined with the program name plus suffix, never empty |
| Docs.ApiUrl | main.py:17-24 | an empty object gives the base URL; one with exactly one dot links its module page; any other the index anchor |
| Docs.ApiTitle | main.py:25-29 | the given title, else the object in back-quotes, else `API reference` |
| Docs.ApiLinkParts | main.py:16-30 | the link is `[title](url)` with title and URL recoverable when the title holds no `]` |

## Left out

- Concurrency: one execution unit is modelled. The per-thread and per-task
  copies of the context variable are not.
- `str()` of floats and arbitrary objects is the parameter `render`, which
  answers `Nothing` when `str()` raises. `json.loads` is the parameter
  `parse`. The environment is a parameter too. `get_program_name` (which
  inspects the call stack) is the parameter `detectedProgramName`.
- The standard `logging.Formatter.format` that `StLogFormatter.format`
  calls is the parameter `base`, which answers the attributes it writes to
  the record (`message`, `asctime`, `exc_text`) and the text. Handlers' actual output (streams, files,
  rich) is left out; a wrapped handler records what it was given.
- The iteration order of a set is a parameter (`setOrder`, `order`),
  required to enumerate the set.
- Formatter.GlobMatch: `fnmatch` character classes `[...]` are not
  modelled; only `*` and `?`.
- KvFormatter.Render: a template is a list of literal and `{0}`/`{1}`
  pieces; the rest of the `str.format` mini-language is not modelled.
- Formatter.Parse: only the `%`-style pattern of `parse` is modelled; the
  `${...}` and `{...}` styles and the `ValueError` for other styles are
  not.
- The rest of `JsonFormatter` (`add_fields`, `jsonify_log_record`, the
  encoder, the date handling) and `DatadogFormatter` are not part of this
  model, nor are `setup`, the output classes' handler wiring, and the
  other `standard_structlog` modules.
- `StLogFormatter.keywords` is stored but never read by the source; the
  model has no such field.
- Three more names imported from `stlog/base.py` are defined nowhere in it:
  `check_env_true` (imported at `stlog/kvformatter.py:7`, called at
  `stlog/kvformatter.py:9-11`), `RICH_INSTALLED` (imported at
  `stlog/output.py:11`) and `ExtrasLogRecord` (imported at
  `stlog/formatter.py:16`, used only in annotations and a cast). As written,
  importing `stlog.kvformatter` or `stlog.output` raises `ImportError`, so
  the default of `LogFmtKVFormatter.ignore_compound_types` is never computed.
  The model treats all three modules as importable: that default becomes a
  constructor argument of the logfmt formatter, `GetLogFilePath` follows the
  text of `get_log_file_path`, and the rich-output choice of `Stream` is not
  part of this model.
- PyValue.PyStr: `str()` of an `Int` always succeeds in the model. CPython
  3.11 and later raise `ValueError` for an integer of more than 4300 digits
  (the default `sys.set_int_max_str_digits` limit); there
  `_serialize_extra_value` would answer `[can't serialize]` and
  `logfmt_format_value` would raise. That limit is a setting of the
  interpreter, not of the source, and is not modelled.
- Handler.ContextReinjectHandlerWrapper.Handle: when it injects the
  context, requires the key-set attribute, when present, to hold a set. On
  another value the source sets one attribute, then raises
  `AttributeError` from `add`; that raise path is not modelled.
- Handler.HandleTwiceScenario: the same requirement on a record that is
  not managed, for the same reason.
- LegacyHandler.ContextReinjectHandlerWrapper.Handle: the same
  requirement on `_daiquiri_extra_keys` of a record that is not managed;
  the source's raise path there is not modelled either.
- Adapter.StLogLoggerAdapter.KeywordProcess: a truthy `extra=` from which
  `dict.update` stores a key that is not a str (`extra={1: "x"}`) gives
  `Unmodelled`. The source succeeds and puts that key in `extra` and in
  the marker; the model keeps record extras str-keyed. A non-empty set or
  an arbitrary object passed as `extra=`, or found as an element of a
  pair list, gives `Unmodelled` as well: the outcome depends on the set's
  iteration order or on the object's methods.
- Adapter.StLogLoggerAdapter.Process: inherits the `Unmodelled` cases of
  KeywordProcess, on which the source succeeds.
- Adapter.ProcessErrors: its `Unmodelled` case is one where the source
  succeeds, not an error of the source.
- Adapter.StLogLoggerAdapter.Process: `stlog/adapter.py:12` imports
  `LogContext` from `stlog/context.py`, which defines only
  `ExecutionLogContext` (`stlog/context.py:10`). The model reads the
  context through `ExecutionLogContext._get`.
- Filter.ContextReinjectFilter.Filter: `stlog/filter.py:6` imports the same
  undefined `LogContext`; the model reads `ExecutionLogContext._get` too.
- Text.Lower: follows Python's `str.lower()` for ASCII letters only; other
  upper-case letters (`É`, `Σ` ...) are kept as they are.
- Text.IsIdentifier: follows Python's `str.isidentifier()` for ASCII only;
  a key with other letters (`café`) is not an identifier in the model.
- Base.GetEnvContext: through Text.Lower and Text.IsIdentifier, a variable
  such as `STLOG_ENV_CONTEXT_CAFÉ` gives `StLogError` in the model, where
  the source accepts the key `café`. Base.PrefixContextKeys,
  Base.CheckEnvKeys and Base.EnvBadKeyRaises share that limit.
- Base.EnvIgnoredIsEmpty: the switch is compared after the ASCII-only
  Text.Lower; white space follows Python's full set.
- Formatter.AddExtras: the marker set is read through the ordering
  parameter; aliasing of that set object with other records is not
  modelled.
- Formatter.Iterate: object values are treated as not iterable.
- Record attributes are the instance dict only; class attributes of
  `LogRecord` are not modelled.
- `STLOG_EXTRA_KEYS_KEY` and `STLOG_MANAGED_KEY` are imported from
  `stlog/base.py`, which defines neither: it defines only `STLOG_EXTRA_KEY`
  (`stlog/base.py:10`). The model uses the distinct strings
  `_stlog_extra_keys` and `_stlog_managed`.
  The older handler's managed flag comes from a module that is not part of
  this model, and it is given its own distinct name.
- LegacyHandler.ContextReinjectHandlerWrapper.Handle: the source calls
  `ExecutionLogContext._get()`, but its context module defines the class
  `ExecutionContext`, whose reader is `get`
  (`standard_structlog/context.py:35`). The model calls
  `ExecutionContext.Get`.
- Output.PathJoin: POSIX `os.path.join` only; Windows drives and
  back-slash separators are not modelled.
- KvFormatter.TruncateSerialize: uses the corrected truncation of the
  Findings, so at limits 1 and 2 it differs from `stlog/kvformatter.py:22-27`
  (`"abcdef"` at limit 2 gives `...`, where the source gives `abcde...`).
- KvFormatter.TemplatePieces: each piece holds the value under the
  corrected truncation (`[k: ...]` where the source writes
  `[k: abcde...]` at limit 2).
- KvFormatter.TemplateFormat: its text is built from those pieces, so it
  differs from the source at limits 1 and 2 likewise.
- KvFormatter.Format: the template variant inherits that difference.
- Formatter.SerializeExtraValue: the value limit uses the corrected
  truncation (`stlog/formatter.py:129-133`), which differs at limits 1
  and 2.
- Formatter.AddExtras: the key limit (`_limit_extra_key`,
  `stlog/formatter.py:113-118`) and the value limit use the corrected
  truncation, so `extras` differs from the source at limits 1 and 2.
- Formatter.Format: inherits that difference through AddExtras.

## Findings

| source | as written | input that shows it | evidently intended | confidence | as-written member | corrected member |
|---|---|---|---|---|---|---|
| stlog/kvformatter.py:14-19 | `str_value[0:(limit - 3)] + "..."` for any positive limit below the length; the same rule is at stlog/formatter.py:113-118 and 129-133 | `_truncate_str("abcdef", 2)` slices `[0:-1]`, giving `"abcde..."`, longer than the input and changed again by a second truncation | the slice bound clamped at 0, so the result never exceeds `max(limit, 3)` and truncation is idempotent | not executed | KvFormatter.TruncateAsWrittenGrows | KvFormatter.TruncateIdempotent |
