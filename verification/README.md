# m17n-lib font resolution, fontsets, object core and language tables in Dafny

This project models the part of m17n-lib that decides which font draws a
run of characters:

- the font property model of `font.c`:
  - interning of symbolic properties into per-axis tables;
  - spec construction from symbol lists and faces;
  - matching;
  - the priority-driven score with its shift-bit layout;
  - the selection-priority API;
  - the encoding and resize tables;
  - `mfont__encode_char` / `mfont__encodable_p`;
  - `mfont_set_encoding`;
  - the frame cache and driver pick of `mfont__select` and `mfont__open`.
- the fontset machinery of `fontset.c`:
  - loading a fontset definition into per-script / per-language,
    per-charset and fallback font groups;
  - the same loading as written on plists, where a repeated key appends
    into the enclosing list (module `FontsetPlists`);
  - `mfontset_modify_entry`;
  - the named-fontset registry of `mfontset` / `mfontset_copy`;
  - realizing a fontset for a face;
  - realizing a font group into a score-sorted font list;
  - the two-pass font search of `mfont__lookup_fontset`.
- the managed-object core of `m17n-core.c`:
  - reference counts, including the 16-bit overflow into "extended" word
    vectors;
  - the nesting counter of `m17n_init_core` / `m17n_fini_core`;
  - the debug object registry.
- the language and script tables of `language.c`:
  - filtering of loaded records;
  - language lookup by name, two-letter code or native text;
  - `mlanguage_code`;
  - script records and their positional accessors;
  - the one-entry OpenType-tag cache;
  - the language and script lists.

## Modelling choices

- **Symbols.** A symbol is modelled by its name (`Plist.Symbol = string`).
  Interning makes pointer equality and name equality the same thing.
  `Mnil` is `"nil"` and `Mt` is `"t"`. `Mnil` is taken to be the null
  symbol pointer, as the database reader's `nil` is. A test such as
  `registry ? … : …` is therefore false exactly for `Mnil`.
- **Database and drivers.**
  - Database contents are an `Elem` tree of symbols, integers, text and
    lists.
  - Every `mdatabase_load`, the font drivers, the charsets and the flt
    layouter are parameters, so their answers are inputs.
- **Global state.** Each piece of global state of the C code is a value
  that is threaded through the functions and returned updated:
  - the property tables;
  - the encoding and resize tables;
  - the fontset registry;
  - the init counter;
  - the language and script tables;
  - the otf-tag cache.
- **MFont.** A font is a sequence of 10 integers indexed by axis:
  - foundry 0, family 1, weight 2, style 3, stretch 4, adstyle 5;
  - registry 6, size 7, resolution 8, type 9.

  The symbolic axes 0..6 hold indexes into `PropTables`, where slot 0 of
  every table is `nil`.
- **Bitwise operations.** The score's `|` and `<<` are modelled on
  naturals (`Bits.BitOr`, `Bits.Shl`). The proofs show that the fields
  never overlap, so `|` is `+` for the default priority.
- **Integer arithmetic.** C's truncating division is written out as
  `FontTables.TruncDiv`. Reference counts are 16-bit words, with the
  explicit limit `0x10000`.

## Model

| member | source | states |
|---|---|---|
| Core.NewObject | src/m17n-core.c:662-670 | a new managed object is live, has one reference, is not extended and keeps the given freer |
| Core.ExtendedInc | src/m17n-core.c:721-726 | incrementing the extended word vector adds exactly one to the represented count, growing the vector when every word is saturated |
| Core.ObjectRef | src/m17n-core.c:700-728 | a reference adds one to the total count and returns it while it fits 16 bits, -1 once the object is extended |
| Core.ObjectUnrefAsWritten | src/m17n-core.c:761-795 | the code as written: in plain mode one reference is dropped, the count returned and the freer called exactly at zero; in extended mode -1 is returned |
| Core.UnrefAsWrittenLosesHighWords | src/m17n-core.c:781-794 | an extended object whose counter words are [1, 1], 2^32 + 0x10000 references, drops to 0xFFFF references after one unref as written |
| Core.ObjectUnref | src/m17n-core.c:761-795 | unref drops exactly one reference whatever the mode, frees exactly when the total reaches zero, and returns the count in plain mode and -1 in extended mode |
| Core.RefThenUnref | src/m17n-core.c:700-795 | a ref followed by an unref restores the total count and never frees |
| Core.InitCore | src/m17n-core.c:475-480 | init increments the nesting counter and does the set-up only on the first call |
| Core.FiniCore | src/m17n-core.c:523-531 | fini tears down only when the counter is at most 1 and otherwise just decrements it |
| Core.InitTimesCount | src/m17n-core.c:475-480 | k inits from count n leave n + k and set up once exactly when starting from zero |
| Core.FiniTimesCount | src/m17n-core.c:523-531 | k finis from count n >= k leave n - k and tear down once exactly when k == n |
| Core.BalancedInitFini | src/m17n-core.c:475-531 | k nested inits set up once, k - 1 finis do not tear down, and the k-th fini does |
| Core.RegisterObject | src/m17n-core.c:442-448 | registering appends the object and raises the count by one, keeping the registry consistent |
| Core.UnregisterObject | src/m17n-core.c:451-466 | unregistering lowers the count, clears the first slot holding the object, and reports an error exactly when the object is absent or the count goes negative |
| Core.RegisterThenUnregister | src/m17n-core.c:442-466 | unregistering an object just registered succeeds and restores the count |
| Bits.BitOrDisjoint | src/font.c:826-830 | or-ing a value shifted above every set bit of the accumulator is addition |
| Bits.FieldBound | src/font.c:826-830 | a field of width w placed at shift s above a smaller accumulator stays below 2^(s+w) |
| FontProps.SetProperty | src/font.c:1107-1124 | nil gets id 0, a known symbol keeps its id, a new one is appended and gets the old table length (at least 1), and only that axis of the font and that table change |
| FontProps.SpecFromSymbols | src/font.c:866-885 | the leading symbols fill foundry upwards, the last one is the registry, every other axis is 0 |
| FontProps.SpecFromPlist | src/font.c:866-885 | a list that is not all symbols yields the empty spec; otherwise the spec names each symbol on its axis and the last as registry |
| FontProps.DenotesUnique | src/font.c:866-885 | over well-formed tables a symbol list denotes exactly one spec, so a spec described by its list is pinned down |
| FontProps.SetSpecFromFace | src/font.c:851-862 | the spec carries the face's symbolic axes up to adstyle, the face size, registry slot 1 and no resolution or type |
| FontProps.MatchP | src/font.c:840-847 | match holds iff no axis up to prop has both values set and different |
| FontProps.InitPropertyTables | src/font.c:681-703 | each axis table is nil followed by the common names, and set-up fails exactly when a common name is nil |
| FontProps.DefaultTables | src/font.c:412-440 | the built-in common names produce well-formed tables in which registry id 1 is iso8859-1 and weight id 7 is medium |
| FontScore.ShiftBitsStart | src/font.c:707-718 | the axis at each priority position starts at bit 1 plus the widths of every lower-priority axis |
| FontScore.ShiftsOrdered | src/font.c:707-718 | a higher-priority axis sits entirely above every lower-priority field, and no field touches bit 0 |
| FontScore.DefaultShifts | src/font.c:341-349 | the default priority gives foundry 1, stretch 3, style 5, weight 7, family 9, adstyle 11, size 13 |
| FontScore.InitScoreConfig | src/font.c:707-718 | start-up uses the default priority with the shifts derived from it |
| FontScore.Score | src/font.c:801-834 | the score is -1 exactly when some scored axis has a request and a spec and font that are set and differ; otherwise it is non-negative |
| FontScore.DefaultScoreIsSum | src/font.c:801-834 | with the default priority and a size difference below 512, the score is the sum of independent per-axis terms, each being min(delta, 3) at its shift, with bit 0 for scalable fonts and 0x400000 for a limited bitmap size |
| FontScore.DefaultScoreMonotone | src/font.c:801-834 | under the default priority, moving one axis of a non-conflicting font closer to the request never raises its score |
| FontScore.SelectionPriority | src/font.c:1642-1668 | the priority reads back as one key per position, naming that position's axis |
| FontScore.ParseKeys | src/font.c:1704-1729 | parsing succeeds exactly when every key names a scored axis and no axis repeats, and then yields those axes in order |
| FontScore.ParsedIsPriority | src/font.c:1704-1729 | a valid key list parses to a permutation of the scored axes |
| FontScore.SetSelectionPriorityAsWritten | src/font.c:1699-1734 | the code as written: a bad key list returns -1 and changes nothing; a good one is read back unchanged, but the shift table is not recomputed |
| FontScore.PriorityIgnoredAsWritten | src/font.c:1699-1734 | after putting foundry first as written, a family mismatch still outweighs a foundry mismatch |
| FontScore.SetSelectionPriority | src/font.c:1699-1734 | the same error behaviour and read-back, with shifts recomputed from the new priority |
| FontScore.PriorityHonoured | src/font.c:1699-1734 | after putting foundry first, a foundry mismatch outweighs a family mismatch |
| FontTables.LoadEncodingTable | src/font.c:490-538 | a missing database gives an empty table; otherwise one entry per well-formed record, each under a non-nil registry with a spec valid in the grown tables, and malformed records are skipped |
| FontTables.LoadEncodingTableContents | src/font.c:490-538 | entry i of the loaded table comes from the i-th well-formed record: it is filed under the registry the spec list names (nil as t), holds the spec that list denotes, the encoding symbol, and the repertory symbol or else the encoding symbol again |
| FontTables.EncodingsOfUnique | src/font.c:490-538 | the records determine the table completely: two tables that both hold exactly the entries of the well-formed records are equal |
| FontTables.LoadResizeTable | src/font.c:555-597 | the same for resize records: one entry per well-formed record, each under a non-nil registry |
| FontTables.LoadResizeTableContents | src/font.c:555-597 | entry i of the loaded table comes from the i-th well-formed record: filed under the registry its spec list names (nil as t), with the spec that list denotes and the record's percentage |
| FontTables.ResizesOfUnique | src/font.c:555-597 | the records determine the resize table completely |
| FontTables.FindEncoding | src/font.c:602-650 | the answer is the first entry filed under the font's registry (any entry for a nil registry), then under t, whose spec matches and whose charsets exist, else the default encoding; the table left behind is the loaded one with the broken entries met before the answer removed; the property tables are those the table load leaves and the resize table is untouched |
| FontTables.ScanTwice | src/font.c:602-650 | scanning the pruned table again finds the same entry and prunes nothing more |
| FontTables.DropBrokenIdem | src/font.c:620-639 | pruning broken entries twice is the same as pruning once |
| FontTables.TruncDiv | src/font.c:1032-1033 | the quotient rounds toward zero, as C division does |
| FontTables.Resize | src/font.c:1014-1042 | the resize table is loaded on first use and is the only change to the state; only the size of the request changes: it becomes size * factor / 100 for the first entry under the registry, else under t, that matches up to adstyle, and stays as it is when none matches |
| FontTables.EncodeChar | src/font.c:1064-1084 | a layouter font asks the layouter; otherwise the code is invalid when there is no encoding charset, or the charset or repertory rejects c; when both accept c the code is the encoding charset's; the driver is asked only when there is no repertory |
| FontTables.EncodableP | src/font.c:1048-1061 | the answer is -1, 0 or 1; under a layouter nothing changes; otherwise a cached encoding is used as it is, with state and font unchanged, and an uncached one is the encoding (and state) that the encoding search gives for the font's spec, and the answer reflects its charsets |
| FontTables.EncodeCharCached | src/font.c:1064-1084 | encoding a character twice gives the same code and the second call changes no state |
| FontTables.SetEncoding | src/font.c:1814-1853 | unknown charsets give -1 and no change; otherwise 0, with the new entry at the front under the registry (t for nil), replacing the first other entry with the same spec |
| FontTables.SetThenFind | src/font.c:1814-1853 | after setting an encoding for a font, finding its encoding returns exactly what was set, whatever the registry; a nil registry is the null symbol, so the search walks every entry and meets the one filed under t |
| FontSelect.BestIndex | src/font.c:926-937 | the driver answer kept is the one with the highest score, the first among equal highest, and none exactly when no driver answers |
| FontSelect.Select | src/font.c:888-972 | a cached font for the registry, spec and request is reused, copied for a different layouter, else the best driver answer gets the layouter and is appended to the frame |
| FontSelect.SelectThenCached | src/font.c:888-972 | selecting again right after a driver pick returns the same font and leaves the frame alone |
| FontSelect.SelectCopiesEachTime | src/font.c:901-921 | a cached font realized for another layouter is copied and appended on every request |
| FontSelect.Open | src/font.c:979-1003 | a font already opened or refused under the same registry lends its object and status; otherwise the driver opens it |
| FontSelect.OpenNilRegistryUnshared | src/font.c:979-1003 | a nil-registry font never shares another's opened object, because frames file fonts under t |
| Fontsets.InternSpec | src/fontset.c:147-160 | a spec is added to the spec list only if absent, so the list stays duplicate-free |
| Fontsets.ItemLayouter | src/fontset.c:161-166 | a group item's layouter is its second symbol when present and not nil, and t otherwise |
| Fontsets.LoadFontGroup | src/fontset.c:132-175 | one entry per well-formed item is appended to the group, and specs are shared through the duplicate-free spec list |
| Fontsets.LoadFontGroupContents | src/fontset.c:132-175 | the appended entries are, in order, one per well-formed item: its layouter (second symbol, nil or absent as t) and the spec its spec list denotes |
| Fontsets.GroupOfUnique | src/fontset.c:132-175 | the items determine the appended entries completely |
| Fontsets.LoadFontGroupAppends | src/fontset.c:132-175 | loading into a group appends to it exactly what loading into an empty group yields |
| Fontsets.LoadLanguages | src/fontset.c:230-251 | language items load into groups keyed by language, nil stored as t, and the first malformed item stops the script entry; the groups stay well formed over the spec list |
| Fontsets.LoadLanguagesGroups | src/fontset.c:230-251 | for every language: when no loaded item names it its group is unchanged; otherwise its group keeps what it held and gains, in order, the entries of every loaded item naming it (repeated languages merged) |
| Fontsets.LoadEntry | src/fontset.c:192-252 | script nil appends its fonts to the fallback; a nested list appends them to the charset's group; anything else loads the script's language groups; every other key is unchanged and a malformed entry changes nothing (repeated keys merged) |
| Fontsets.LoadCharsetEntry | src/fontset.c:210-219 | the charset's group keeps what it held and gains the entries of the items, and no other charset, script or the fallback changes |
| Fontsets.LoadScriptEntry | src/fontset.c:220-251 | each language of the script gains the entries of the items naming it, and no other script, charset or the fallback changes |
| FontsetPlists.LoadEntryAsWritten | src/fontset.c:192-252 | the code as written on plists: the list node found for a known charset or script is used as the group, so new pairs are appended to the enclosing list; the lists only grow and a malformed entry changes nothing |
| FontsetPlists.LanguagesAsWritten | src/fontset.c:230-251 | the language items as written: a language found after the script's node gets its pairs appended to the enclosing list, a new one is added with its group; the list only grows |
| FontsetPlists.RepeatedCharsetAsWritten | src/fontset.c:212-218 | a second entry for a known charset leaves that charset's group as it was and puts bare specs at the end of the per-charset list |
| FontsetPlists.RepeatedLanguageAsWritten | src/fontset.c:241-249 | two items for one language in a new script: the second item's fonts become bare specs in the script's list of languages instead of joining the language's group |
| FontsetPlists.RepeatedScriptAsWritten | src/fontset.c:222-246 | a second entry for a known script adds a new language to the per-script list as if it were a script, and the script's own languages stay as they were |
| FontsetPlists.FreshCharsetAgrees | src/fontset.c:212-219 | for a charset met for the first time the code as written files exactly the group the merging loader builds |
| FontsetPlists.FreshLanguagesAgree | src/fontset.c:220-251 | for a script met for the first time whose items name each language once, the code as written builds exactly the merging loader's list of languages |
| Fontsets.KeyedUpdate | src/fontset.c:212-228 | the keyed slot lookup of the merging loader touches only the slot for its key and creates it at the end when missing |
| Fontsets.LoadFontsetContentsAsWritten | src/fontset.c:179-262 | the code as written: a failed load leaves empty contents but keeps the database, while a successful one loads every entry and forgets it |
| Fontsets.FailedLoadForgetsEdits | src/fontset.c:179-262 | with a database that fails to load, a fallback added after the first load is wiped by the next one |
| Fontsets.LoadFontsetContents | src/fontset.c:179-262 | loading always leaves contents and forgets the database, so a fontset is loaded at most once |
| Fontsets.LoadOnce | src/fontset.c:179-262 | a loaded fontset is not loaded again |
| Fontsets.EnsureLoaded | src/fontset.c:381-382 | an unloaded fontset gets loaded and a loaded one is returned unchanged |
| Fontsets.Apply | src/fontset.c:904-912 | how -1 prepends, how 1 appends, any other value leaves the group holding just the new entry |
| Fontsets.EditScript | src/fontset.c:876-887 | the edit changes the group for that script and language only, creating it when missing |
| Fontsets.EditCharset | src/fontset.c:888-894 | the edit changes the group for that charset only, creating it when missing |
| Fontsets.ModifyEntry | src/fontset.c:845-914 | the fontset is loaded first; the script, charset or, when both are nil, the fallback group is edited, the spec is interned, and 0 is returned without changing the tick |
| Fontsets.ModifyKeepsShape | src/fontset.c:845-914 | editing keeps every group well formed over the spec list |
| Fontsets.NewFontset | src/fontset.c:656-671 | a new fontset has two references, tick 0, and the database found for its name, with empty contents when there is none |
| Fontsets.GetFontset | src/fontset.c:648-675 | a known name returns the registered fontset with one more reference; an unknown one is created and registered |
| Fontsets.GetFontsetTwice | src/fontset.c:648-675 | asking twice for the same name gives the same fontset and registers it once |
| Fontsets.CopyFontsetAsWritten | src/fontset.c:711-750 | the code as written: a used name gives no copy; otherwise the copy holds the source's current lists, or none when it is not loaded |
| Fontsets.CopyOfUnloadedIsEmpty | src/fontset.c:711-750 | copying a fontset whose definition is still in the database yields a copy without any font groups |
| Fontsets.CopyFontset | src/fontset.c:711-750 | a used name gives no copy; otherwise the source is loaded first and the copy, registered under the new name, carries its contents |
| Fontsets.CopyKeepsContents | src/fontset.c:711-750 | the copy has the same font groups as the loaded source |
| Fontsets.FontsetInit | src/fontset.c:341-361 | the registry holds only the default fontset; without a database, its fallback is iso8859-1 then iso10646-1 |
| Fontsets.DefaultFallbackFonts | src/fontset.c:349-357 | the two default fallback specs name only the registries iso8859-1 and iso10646-1 |
| FontsetRealize.FaceRequest | src/fontset.c:384-389 | the request carries the face's properties and the face size, or 120 when that is not positive |
| FontsetRealize.RealizeFontset | src/fontset.c:374-430 | the fontset is loaded, a realized fontset for the same name and request on the frame is reused, and otherwise a copy with every group pending is added to the frame |
| FontsetRealize.RealizeFontsetCached | src/fontset.c:374-430 | realizing the same fontset for the same face twice returns the same realized fontset without growing the frame again |
| FontsetRealize.InsertByScore | src/fontset.c:325-330 | a font goes just before the first font with a strictly greater score |
| FontsetRealize.InsertKeepsOrder | src/fontset.c:325-330 | inserting into a list sorted by score keeps it sorted |
| FontsetRealize.InsertIsPermutation | src/fontset.c:325-330 | inserting adds the font and loses none |
| FontsetRealize.RealizeFontGroup | src/fontset.c:310-332 | the realized group is sorted by score, each font on the frame, and the state and frame are those the entries' selections leave |
| FontsetRealize.RealizeFontGroupSelects | src/fontset.c:310-332 | the realized group holds exactly the fonts the entries select (as a multiset), and the fonts of each score appear in the order of their entries |
| FontsetRealize.RealizeLoopIsRealizeFontGroup | src/fontset.c:315-332 | the loop as written, inserting each font as soon as it is selected, yields the same state, frame and fonts as selecting every entry first and sorting after |
| FontsetRealize.SelectedFonts | src/fontset.c:315-327 | the fonts found for the entries, in entry order, at most one per entry, all filed on a frame that only grows |
| FontsetRealize.SortByScore | src/fontset.c:325-330 | repeated insertion gives a list sorted by score with the same fonts, and the fonts of each score in their original order |
| FontsetRealize.InsertIsStable | src/fontset.c:325-330 | inserting into a sorted list puts the new font after every font of its own score |
| FontsetLookup.ScriptGroups | src/fontset.c:499-525 | every group listed is a language group of the script; the exact-language group comes first, and, without one, the t group for a specific language |
| FontsetLookup.OtherLanguagesInOrder | src/fontset.c:522-525 | the other languages' groups follow the order of the script's language list |
| FontsetLookup.ScriptGroupsOrder | src/fontset.c:499-525 | for a specific language: the exact group, then the t group, then exactly the other languages' groups in list order; for t: the t group, the others, and the others again; without a t group, just the others |
| FontsetLookup.ScriptGroupsCover | src/fontset.c:499-525 | every language group of the script is a candidate |
| FontsetLookup.GenericLanguageListsTwice | src/fontset.c:508-523 | for the generic language, a script with a t group lists another language's group twice |
| FontsetLookup.CandidatesOrder | src/fontset.c:492-538 | the charset group, when found, is at position 0; the script's groups follow exactly; the fallback comes right after them; when it is the only group found, every script and charset group follows it, and otherwise nothing does |
| FontsetLookup.CandidatesOk | src/fontset.c:492-538 | every candidate names an existing group, and the fallback is always among them |
| FontsetLookup.RealizeAt | src/fontset.c:544-545 | a group already realized is left as it is, a pending group is realized in place, and every other group is unchanged |
| FontsetLookup.RealizeAtRealizes | src/fontset.c:544-545 | a pending group is replaced by the realization of its own entries for the fontset's request |
| FontsetLookup.RealizeGroup | src/fontset.c:544-545 | the state, frame and fontset after reaching a group are exactly those `RealizeAt` gives |
| FontsetLookup.RealizeThrough | src/fontset.c:540-545 | realizing the first n candidates in order keeps the state well formed and only extends its tables and frame, and leaves each of those candidates realized |
| FontsetLookup.LookupAll | src/fontset.c:540-572 | the state, frame and fontset are those of realizing exactly the groups reached, in order; the pass stops at the first group holding a font that encodes every glyph and opens, so no earlier group holds one, and that font is the one found; with none found, every candidate was reached |
| FontsetLookup.ThroughStable | src/fontset.c:540-545 | realizing later candidates leaves the groups already realized as they were |
| FontsetLookup.NothingBeforeStop | src/fontset.c:559-568 | no candidate group before the point where the first pass stops holds a font displaying every glyph |
| FontsetLookup.StopUnique | src/fontset.c:559-568 | the first pass has exactly one stopping point, so the groups it realizes and the state it leaves are determined by its inputs |
| FontsetLookup.ScanEnd | src/fontset.c:540-572 | the font where the first pass stops is the first of all the candidates' fonts |
| FontsetLookup.LookupFirst | src/fontset.c:576-594 | the second pass returns the first font that encodes the first glyph and opens |
| FontsetLookup.LookupCandidates | src/fontset.c:540-594 | over any candidate list: the first full-coverage font, else the first first-glyph font, else no font; the state is the realization of the groups up to the first one with a full-coverage font, all of them when the first pass fails |
| FontsetLookup.Lookup | src/fontset.c:480-594 | the lookup answers the first full-coverage font, else the first first-glyph font, and no font exactly when both passes fail; the codes come from that font; the fontsets and frame are the realization of the candidate groups up to the first one with a full-coverage font, in order |
| Languages.FilterRecords | src/language.c:51-63 | exactly the elements that are lists headed by a symbol are kept, in order |
| Languages.FilterKeepsGood | src/language.c:51-63 | a table of well-formed records passes through unchanged |
| Languages.LoadTable | src/language.c:42-63 | a missing database gives no table; otherwise its filtered records |
| Languages.EnsureLanguages | src/language.c:68-79 | the language table is loaded once; after a failed load it is empty and later calls succeed |
| Languages.EnsureScripts | src/language.c:82-93 | the script table is loaded once in the same way |
| Languages.LanguageInfo | src/language.c:156-190 | the answer is the first record whose name or two-letter code is the language, or whose third item is a text spelling the language, and none exactly when no record matches |
| Languages.ListedLanguageFound | src/language.c:156-190 | every listed language is found by its own name |
| Languages.NilFindsLanguageWithoutShortCode | src/language.c:164-189 | looking up nil finds a language whose two-letter code is nil |
| Languages.LanguageCode | src/language.c:377-393 | unknown gives nil; length 3 gives the 3-letter code; other lengths give the non-nil 2-letter code, else the 3-letter code for length 0 and nil otherwise |
| Languages.CodeLengths | src/language.c:377-393 | every length other than 0 and 3 behaves like 2, and 0 differs from 2 only by falling back to the 3-letter code |
| Languages.CodeOfListedLanguage | src/language.c:377-393 | the 3-letter code of a listed language is its own name |
| Languages.ScriptInfo | src/language.c:193-207 | the answer is a record headed by the script, and none exactly when no record is |
| Languages.ScriptLanguageList | src/language.c:621-630 | the languages are the script record's second element, present exactly when it is a list |
| Languages.CharList | src/language.c:211-222 | the characters are the script record's third element, present exactly when it is a list |
| Languages.OtfTag | src/language.c:225-238 | the tag is the script record's fourth element, present exactly when it is a symbol |
| Languages.ScriptOfTag | src/language.c:257-274 | the script is the first one whose fourth element is the tag, else nil |
| Languages.FromOtfTag | src/language.c:241-276 | a tag equal to the cached one answers the cached script; otherwise the table is scanned and the cache updated |
| Languages.FromOtfTagIsScan | src/language.c:241-276 | for a non-nil tag the cache never changes the answer of the scan |
| Languages.FromOtfTagTwice | src/language.c:241-276 | asking twice for the same tag gives the same script, and the second call leaves a cached state alone |
| Languages.TagRoundTrip | src/language.c:225-276 | when no earlier script record has the same name as the one found, the script found for a tag has that tag |
| Languages.LanguageList | src/language.c:316-330 | the list names each language record by its first symbol, in order, and is absent exactly when the table cannot be loaded |
| Languages.ScriptList | src/language.c:566-580 | the same for scripts |
| Languages.FailedLoadListsNothing | src/language.c:316-330 | after a failed load the first list is absent and the second is empty |

## Left out

- Font drivers, charsets and the database are parameters; their code is
  not part of this model:
  - driver `select`, `open`, `encode_char` and `find_metric`;
  - `mfont__get_metric`;
  - `ENCODE_CHAR`;
  - `mdatabase_find` and `mdatabase_load`.
- Window-system frames, faces as C objects, and the environment-based
  FreeType set-up in `mfont__init` are left out.
- Debug, timing and dump functions are left out, as is the memory release of
  `free_fontset`, `mfont__free_realized_fontset` and `mfont__fini`.
- `mlanguage_name_list`, `mlanguage_text` and `mlanguage_name` are left out.
  They deal with locales and M-text properties.
- The header that fixes the axis order is not part of this model. The order
  foundry, family, weight, style, stretch, adstyle, registry, size,
  resolution, type is inferred from `font_common_names` and
  `mfont__set_spec_from_face`.
- The invalid character code is taken to be 0xFFFFFFFF.
- `plist.c` is not part of this model. Its key search is taken to be "first
  entry whose key is equal".
- C `int` overflow of the score is not modelled. With the default priority
  the score stays below 2^23.
- The realized fontset's 256-group limit is not modelled.
- Pending and realized groups are values. In the C code a pending group
  shares its list with the fontset, so an edit after realization is seen
  by the realized fontset until that group is realized. The model takes a
  snapshot.
- A copy shares the spec list with its source, so in the C code later
  interning into one is seen by the other. The model copies the list.
- FontTables.FindEncoding: for a nil registry the code walks every node,
  up to and including the list's end marker. That marker's value is NULL,
  so `&encoding->spec` at src/font.c:618 is a null dereference when no
  entry matches. The model stops at the last entry.
- FontTables.Resize: the same walk for a nil registry ends in the null
  dereference `&resize->spec` at src/font.c:1029. The model stops at the
  last entry.
- FontProps.SpecFromPlist: an empty symbol list makes the code read
  `spec_list[-1]`, and more than seven symbols overrun `spec_list`. Both
  are undefined behaviour. The model returns the unspecified font and nil
  for them.
- LoadEntry: a repeated charset or script key merges into the existing
  group. The code as written appends into the enclosing list instead.
  This is the correction in Findings; FontsetPlists.LoadEntryAsWritten
  models the code as written.
- LoadLanguages: a repeated language key merges into the language's
  group. The code as written appends into the per-script list (see
  Findings and FontsetPlists.LanguagesAsWritten).
- KeyedUpdate: states the merging loader's slot update. The code as
  written hands the found node itself to `load_font_group`.
- EnsureLoaded: uses the corrected loader (Fontsets.LoadFontsetContents),
  which forgets the database after a failed load. The code at
  src/fontset.c:380-381 calls the loader as written, which keeps it.
- ModifyEntry: loads through the corrected loader too. Its promise that
  the database is forgotten (`mdb` cleared) does not hold for the code
  at src/fontset.c:847-848 after a failed load.
- CopyFontset: loads the source through the corrected loader (see
  Findings for the copy of an unloaded fontset).
- RealizeFontset: loads through EnsureLoaded, so it inherits the
  corrected loader.
- FontsetLookup.Lookup: `mfont__open`'s update of a font's status on the
  frame is not modelled. Open success and encoding come from deterministic
  parameters (`Coder`, `Opener`), so a repeated attempt gets the same
  answer as the first. Every encode in the lookup goes through
  `mfont__encode_char` (src/font.c:1071-1072), which calls `find_encoding`.
  That call loads the encoding table on first use (src/font.c:608-609),
  pops broken entries (src/font.c:625, src/font.c:636) and caches
  `rfont->encoding`. None of this is reflected in the state or frame the
  lookup returns. `FontTables.EncodeChar` models these effects for a
  single encode.
- FontsetLookup.LookupAll: the same holds for its state. It is the
  realization of the groups reached, without the encoding-table effects.
- FontsetLookup.LookupCandidates: likewise.
- FontsetLookup.ScriptGroupsCover: requires the script's language keys to be
  distinct. The loaders and `mfontset_modify_entry` only create distinct
  keys.
- FontScore.DefaultScoreIsSum: holds only for size differences below 512. Larger ones push the size field into the limited-size bit 0x400000, and the bitwise or no longer equals the sum.
- FontScore.DefaultScoreMonotone: requires the size difference to be below 512, the bound under which the score is the sum of its fields.
- Languages.FromOtfTagTwice: says the state is left unchanged only when the
  first call cached that tag. After a failed table load the first call
  caches nothing.
- Languages.FromOtfTagIsScan: covers only tags other than nil. The cache
  starts at nil and answers nil without a scan, which can differ from a
  scan that would find a script tagged nil.

## Where the code and its documentation disagree

The model follows the code in each of these cases, except the last:

- `mfont__select` keeps the driver candidate with the larger score.
- `realize_font_group` sorts ascending by score, and the lookup tries the
  fonts in that order.
- `mfontset_modify_entry`'s `how` prepends on -1, appends on 1, and
  otherwise replaces the group. The tick is never incremented.
- For the generic language, the candidate list of `mfont__lookup_fontset`
  holds the non-generic groups of a script twice when that script has a `t`
  group.
- `mfont__encode_char` asks the driver only when there is no repertory
  charset.
- `mfont_set_selection_priority` reads seven keys.
- `mlanguage__info (Mnil)` matches a language whose two-letter code is nil.
- `mlanguage_info` is documented to find a language by its English name,
  the record's third item, which the record format describes as a symbol.
  The code compares that item only when it is an M-text, so a symbol
  English name never matches.
- `m17n_object_unref` on an extended object goes back to a 16-bit count
  as soon as the lowest word reaches 0, and the -1 is applied to that
  word as well.
- `mscript__otf_tag` returns NULL for a script without a tag, and NULL
  is also how a tag spelled nil reads. The model separates the two: an
  absent tag is `None`, a tag spelled nil is `Some(Nil)`. Here the model
  keeps apart two cases the code conflates.

## Findings

| source | as written | input that shows it | evidently intended | confidence | as-written member | corrected member |
|---|---|---|---|---|---|---|
| src/font.c:1699-1734 | the new priority is stored but `font_score_shift_bits` is recomputed only in `mfont__init` | put foundry first, then score a font that differs only in foundry against one that differs only in family | the new priority takes effect on the score | not executed | FontScore.PriorityIgnoredAsWritten | FontScore.PriorityHonoured |
| src/m17n-core.c:781-794 | an extended object reverts to a 16-bit count as soon as `counts[0]` reaches 0, discarding the higher words | an extended object whose counter words are [1, 1] (2^32 + 0x10000 references) is unreffed once | the count goes down by exactly one | not executed | Core.UnrefAsWrittenLosesHighWords | Core.ObjectUnref |
| src/fontset.c:711-750 | `mfontset_copy` copies the lists without loading the source first | copy a fontset whose definition is still in the database | the copy has the source's font groups | not executed | Fontsets.CopyOfUnloadedIsEmpty | Fontsets.CopyKeepsContents |
| src/fontset.c:212-218 | a charset entry for a charset already present hands the found list node to `load_font_group`, so the new fonts are appended to the per-charset list itself | `((iso8859-1 ((misc fixed iso8859-1))) (iso8859-1 ((adobe courier iso8859-1))))` | the second entry's fonts join the iso8859-1 group | not executed | FontsetPlists.RepeatedCharsetAsWritten | Fontsets.LoadCharsetEntry |
| src/fontset.c:241-249 | a language already present in the script's list yields its list node, and the new fonts are appended to the script's list of languages | a script entry naming the same language twice, as in `(latin (eng ((a b iso8859-1))) (eng ((c d iso10646-1))))` | the second item's fonts join the eng group | not executed | FontsetPlists.RepeatedLanguageAsWritten | Fontsets.LoadLanguagesGroups |
| src/fontset.c:222-246 | a script already present yields its list node, so a new language of a second entry for it is appended to the per-script list as if it were a script | two entries for the script latin, the second naming a language the first did not | the language joins latin's list of languages | not executed | FontsetPlists.RepeatedScriptAsWritten | Fontsets.LoadScriptEntry |
| src/fontset.c:189-190 | when the database fails to load, `mdb` stays set, so every later access reloads and wipes the edits | load a fontset whose database does not load, add a fallback font, then access it again | a failed load leaves empty contents once and forgets the database | not executed | Fontsets.FailedLoadForgetsEdits | Fontsets.LoadOnce |
