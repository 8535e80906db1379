# search_part in Dafny

A model of the core of `search_part`: a small tool that indexes KiCad libraries so that schematic
parts and PCB footprints can be found by pin count and by name. The pipeline has three stages.

1. **The symbol-library engine** (`indexes/index_parts.py`) works on one `.lib` file at a time.
   - It normalises the text with three regular-expression rewrites, modelled in
     `normalize.dfy`.
   - It parses the result with a pyparsing grammar, modelled in `lib_grammar.dfy` as a
     recursive-descent parser over the lines of the normalised text, split into words. That
     grammar covers the `EESchema-LIBRARY … version N` header and `DEF … ENDDEF` blocks. Inside
     a block there are field lines, `ALIAS` lines, one optional `$FPLIST` list and one `DRAW`
     section. The model reads pyparsing's `Each` as letting these come in any order. The source's
     `Each` is stricter; see `LibGrammar.ParseBody` under "Left out".
   - It flattens the parsed parts into the rows of the part index (`_create_index`), one row per
     part and one per alias. Those rows are gathered over a directory of libraries
     (`create_part_index`), skipping every library that fails to parse. This is modelled in
     `part_index.dfy`, as methods whose loops append rows.
   - The grammar's guarantees are proved in `lib_properties.dfy`:
     - one malformed block fails the whole file;
     - under the model's any-order reading of `Each`, the sub-sections of a block may be
       reordered;
     - the later `ALIAS` line wins;
     - a part's pin count is the number of its pin lines;
     - a pin line reads back the pin it was written from.
2. **The footprint engine** (`indexes/index_footprints.py`).
   - `_parse_kicad_mod` reads the module name of a `.kicad_mod` file, then counts its pads. It
     skips to the first pad entry and counts the numeric pads of one contiguous run of pad
     entries. It is modelled on the file's characters in `footprint_grammar.dfy`.
   - `create_footprint_index` appends one row per file that parses. The row holds the name, the
     pad count and the name of the directory holding the file. It is modelled in
     `footprint_index.dfy`.
3. **The query engine** (`search_part.py`). The class `SearchPart` holds the two loaded tables
   and the regular-expression search as `const` fields. Its queries filter a table by an exact
   count and by a name pattern. They return either every surviving row or the first one, whose
   values they then reshape. This is modelled in `search.dfy`.

Shared pieces:
- `wrappers.dfy`: `Option` and `Result`.
- `text.dfy`: character classes, ASCII `Upper`, words and Python's `s[:-n]`.
- `seqs.dfy`: order-preserving filtering, which is how a boolean mask selects rows of a
  DataFrame, and its properties. It also holds the concatenation of per-item rows that both
  indexes are built from.

Inputs are given as values:
- file contents and paths as strings;
- directory listings as sequences of files;
- loaded index tables as sequences of records;
- the regular-expression engine as a function parameter `matches(pattern, text)`.

## Model

| member | source | states |
|---|---|---|
| Normalize.NormalizedLines | indexes/index_parts.py:117-127 | The three rewrites act line by line: the lines of the rewritten text are the rewritten lines of the text. |
| Normalize.NormalizeNewlineCount | indexes/index_parts.py:117-127 | Normalisation keeps the number of newlines, except that a comment on the very first line adds one. |
| Normalize.SentinelBeforeEveryNewline | indexes/index_parts.py:117-122 | After the second rewrite, every newline of the text is directly preceded by ` \|`. |
| Normalize.SentinelOnlyTerminated | indexes/index_parts.py:122-127 | A line with the sentinel appended is emptied by the third rewrite exactly when it held only spaces. |
| Normalize.TerminatedOrEmptied | indexes/index_parts.py:122-127 | After rewrites 2 and 3, the first line and every interior line that is not all spaces end in ` \|`. Interior lines of spaces become empty, and the last line is unchanged. |
| Normalize.CommentLinesBlanked | indexes/index_parts.py:117 | An interior comment line followed by a newline comes out empty, one line lower when the first line was a comment too. |
| LibGrammar.FieldValueQuoted | indexes/index_parts.py:45-47 | A double- or single-quoted string is a field, and is recorded without its quotes. |
| LibGrammar.FieldValuePlain | indexes/index_parts.py:44-47 | A printable word without a bar character and without a leading quote is a field, recorded as it stands. |
| LibGrammar.AliasRun | indexes/index_parts.py:57-61 | Each captured alias is a non-empty maximal alphanumeric run. Every alias but the last is a whole word. Capture stops at the first word with no alphanumeric prefix, or after a word that was cut short. |
| LibGrammar.FindFpEnd | indexes/index_parts.py:65-66 | `SkipTo(foot_end)` finds the first line ending the footprint list, or none exists. |
| LibGrammar.DigitsLength | indexes/index_parts.py:43 | `Word(nums)` takes every leading digit and stops at the first character that is not one. |
| LibGrammar.FnumPrefix | indexes/index_parts.py:43 | `fnum` is the longest prefix made of the leading digits, then optionally one `.` and more digits. |
| LibGrammar.FirstVersionAt | indexes/index_parts.py:102-105 | The first position at or after `k` where the caseless keyword `version` is followed by a word starting with a digit, or none when there is no such position. |
| LibGrammar.VersionIn | indexes/index_parts.py:102 | The version of a line is the `fnum` of the word after the first `version` keyword that is followed by a number. There is none exactly when no keyword is followed by one. The version starts with a digit. |
| LibGrammar.VersionLine | indexes/index_parts.py:105-107 | `SkipTo(version)` stops at the first line that holds a version: that line holds one and no line before it does. There is none only when no line holds one. |
| LibGrammar.ParseLibrary | indexes/index_parts.py:103-110 | A library parses only when its first word is the caseless keyword `EESchema-LIBRARY`. Its version is the one on the first line holding a version, and its parts are those of the blocks after that line. |
| LibGrammar.ParseBody | indexes/index_parts.py:96 | A block body that parses has a DRAW section, and consumes at least its `ENDDEF` line. |
| LibProperties.ParseDefAppend | indexes/index_parts.py:96 | A block that parses parses the same whatever lines follow it. |
| LibProperties.ParseDefsAppend | indexes/index_parts.py:99 | Concatenating a file's blocks parses to the concatenated parts, and fails when the second half fails. |
| LibProperties.MalformedBlockFailsFile | indexes/index_parts.py:99-110 | One block that does not parse fails the entire file, whatever parsed blocks came before it. |
| LibProperties.PinsOf | indexes/index_parts.py:71-86 | A part has one pin per pin line of its DRAW section. |
| LibProperties.DrawElementsParse | indexes/index_parts.py:69-86 | A DRAW section of pin lines and shape lines, closed by `ENDDRAW`, yields exactly the pins of its pin lines, in order. Shape lines yield nothing. |
| LibProperties.FpBlockEnd | indexes/index_parts.py:64-66 | A footprint list's `SkipTo` stops at the list's own last line. |
| LibProperties.SectionStep | indexes/index_parts.py:96 | A sub-section at the front of a block acts on the gathered state as `Apply` says: a second DRAW section or footprint list fails, an ALIAS line that captures sets the aliases, a field line changes nothing. |
| LibProperties.ApplyCommutes | indexes/index_parts.py:96 | Under the model's any-order reading of `Each`, the effects of any two sub-sections on the gathered state commute, unless both are ALIAS lines. This holds of the model, not of the source's `Each` (see `LibGrammar.ParseBody` under "Left out"). |
| LibProperties.SectionsCommute | indexes/index_parts.py:96 | Under the model's any-order reading of `Each`, two adjacent sub-sections of a block can be swapped without changing the parse, unless both are ALIAS lines. The source's `Each` does not allow every such swap (see `LibGrammar.ParseBody` under "Left out"). |
| LibProperties.LaterAliasLineWins | indexes/index_parts.py:57-61 | Of two ALIAS lines, the later one decides the aliases whenever it captures at least one. |
| LibProperties.BodyOfSections | indexes/index_parts.py:96 | A body made of sub-sections, then `ENDDEF`, parses to what applying the sections in order gives, provided a DRAW section was among them. |
| LibProperties.BlockOfSections | indexes/index_parts.py:89-96 | A `DEF` line, sub-sections and `ENDDEF` parse to the part with the unquoted name and reference, the pins and the aliases of its sections, and parse only then. |
| LibProperties.PinLineRoundTrip | indexes/index_parts.py:71-83 | A pin line written from a pin, with 11 or 12 fields, is a pin line. Reading it back gives the name, number, orientation, unit, type and style from fields 0, 1, 5, 8, 10 and 11. |
| LibProperties.LeadingCommentFails | indexes/index_parts.py:117 | A file whose first line is a comment never parses, since the rewrite leaves an empty first line before the header. |
| PartIndex.CreateIndex | indexes/index_parts.py:133-149 | The four columns have equal length. Read as rows, they are each part's own row followed by its alias rows, part after part. |
| PartIndex.PartRowsMembership | indexes/index_parts.py:139-147 | A row belongs to a part exactly when it names the part or one of its aliases, and carries the part's name as alias, its pin count and the library. |
| PartIndex.LibraryRowsMembership | indexes/index_parts.py:138-147 | A row is in a library's rows exactly when it belongs to one of its parts. |
| PartIndex.LibraryRowsAppend | indexes/index_parts.py:138 | The rows of two runs of parts are the rows of the first run followed by those of the second. |
| PartIndex.AliasesResolve | indexes/index_parts.py:139-147 | Every row's alias names a part whose own row is present, with the same pin count and library. |
| PartIndex.LibraryRowCount | indexes/index_parts.py:138-147 | A library gives exactly one row per part plus one per alias. |
| PartIndex.LibFileRows | indexes/index_parts.py:165-171 | One library contributes the rows `_create_index` makes of its parts when it parses, and none when parsing raises. |
| PartIndex.CreatePartIndex | indexes/index_parts.py:162-171 | The index is the rows of the libraries that parse, file after file. |
| Seqs.FlattenAppend | indexes/index_parts.py:162-169 | Gathering the rows of two runs of files gives the rows of the first run, then those of the second. Both indexes are gathered this way. |
| PartIndex.FailedFileSkipped | indexes/index_parts.py:165-171 | A library that does not parse leaves the index as if it were not in the directory. |
| PartIndex.IndexRowsFromFiles | indexes/index_parts.py:162-169 | A row is in the index exactly when some file's rows contain it. |
| PartIndex.FileRowsLocation | indexes/index_parts.py:167 | A row that a file adds names that file as its location. |
| FootprintGrammar.SkipWs | indexes/index_footprints.py:64-76 | Whitespace skipping stops at the first non-whitespace character at or after the start. |
| FootprintGrammar.PrintableEnd | indexes/index_footprints.py:67 | `Word(printables)` ends at the first non-printable character. |
| FootprintGrammar.KeywordEnd | indexes/index_footprints.py:64-66 | The keyword `module` ends inside the text. |
| FootprintGrammar.NameAt | indexes/index_footprints.py:64-67 | The name starts at or after the first non-whitespace character after the keyword. When that character is `"`, it is skipped and the name starts after it. |
| FootprintGrammar.HeaderShape | indexes/index_footprints.py:64-70 | A header that parses opens with `(` and the caseless keyword `module`. Only whitespace and at most one `"` separate the keyword from the name. A `"` that is the first non-whitespace character after the keyword is skipped, so the name starts after it. The name is a non-empty maximal run of printable characters of the text. `restOfLine` runs from the first character after the name's trailing whitespace to the first newline after it, or to the end of the text. |
| FootprintGrammar.FirstPad | indexes/index_footprints.py:80 | `SkipTo(pad)` finds the first position where a pad entry starts, or there is none. |
| FootprintGrammar.PadRun | indexes/index_footprints.py:78 | The run starts at its first entry, and every position in it is a pad entry. |
| FootprintGrammar.PadRunContiguous | indexes/index_footprints.py:71-78 | Each entry of the run starts where the previous one's line ends, after whitespace. |
| FootprintGrammar.PadRunMaximal | indexes/index_footprints.py:78 | What follows the run's last entry is not a pad entry. |
| FootprintGrammar.ParseKicadMod | indexes/index_footprints.py:78-84 | A file parses exactly when its header parses, and the name is the header's name. With no pad entry after the header the count is 0. Otherwise it is the number of entries with a numeric id in the run of pad entries starting at the first one, and at most the run's length. |
| FootprintGrammar.CountRunCountsNumericIds | indexes/index_footprints.py:71-84 | The pad count is the number of entries of the run with a numeric id. Entries with a `"` id keep the run going but are not counted. |
| FootprintGrammar.NoPadMeansZero | indexes/index_footprints.py:80-84 | A module without a pad entry after its header still parses, with 0 pads. |
| FootprintGrammar.ParsesOnlyAfterModuleKeyword | indexes/index_footprints.py:64-69 | A file parses only if it opens, after whitespace, with `(` and the keyword `module`. |
| FootprintGrammar.NameRunsOverQuotes | indexes/index_footprints.py:67 | The name never stops at a `"`, so a closing quote stays attached to the name. |
| FootprintGrammar.QuotedNameExample | indexes/index_footprints.py:64-70 | `(module "ab" x` parses to the name `ab"` with 0 pads. |
| FootprintGrammar.NameEndsLineHeader | indexes/index_footprints.py:64-70 | When the name ends its line, the closing `"` is looked for on the next line. `restOfLine` then runs to the end of that next line. |
| FootprintGrammar.NameEndsLineExample | indexes/index_footprints.py:64-84 | `(module R1`, a newline, then `(pad 1 x)` parses to `R1` with 0 pads: the header consumes the pad's line. |
| FootprintIndex.SplitOn | indexes/index_footprints.py:47 | A path splits into at least one piece, and no piece holds the separator. |
| FootprintIndex.SplitOnSnoc | indexes/index_footprints.py:47 | A separator followed by a piece without one adds that piece as the last piece. |
| FootprintIndex.ComponentsSnoc | indexes/index_footprints.py:47 | A component added after a `/` becomes the path's last component. |
| FootprintIndex.ParentName | indexes/index_footprints.py:47 | `Path(f).parent.name` is empty or a single path component. |
| FootprintIndex.ParentNameOf | indexes/index_footprints.py:47 | The location of `dir/lib/file` is `lib`, whatever `dir` is. |
| FootprintIndex.ParentNameOfBareFile | indexes/index_footprints.py:47 | A file without a directory part has an empty location. |
| FootprintIndex.CreateFootprintIndex | indexes/index_footprints.py:39-51 | The three columns have equal length. Read as rows, they are one row per parsed file, in order. |
| FootprintIndex.AddFile | indexes/index_footprints.py:43-51 | One file adds its row to the three columns when it parses, and adds nothing when parsing raises. The columns keep equal length. |
| FootprintIndex.FailedFileSkipped | indexes/index_footprints.py:50-51 | A file raising `ParseException` leaves the index as if it were not there. |
| FootprintIndex.OneRowPerParsedFile | indexes/index_footprints.py:41-51 | The index has exactly one row per file that parses. |
| FootprintIndex.RowsFollowFiles | indexes/index_footprints.py:44-47 | Row `k` of the index holds the name, the pad count and the parent directory name of the `k`-th file that parses. |
| FootprintIndex.IndexRowsFromFiles | indexes/index_footprints.py:44-47 | A row is in the index exactly when some file parses to it. |
| Search.PartFiltersFuse | search_part.py:87-88 | The pin-count filter and then the name filter keep the same rows as both filters at once. |
| Search.FootprintFiltersFuse | search_part.py:110-111 | The pad-count filter and then the name filter keep the same rows as both filters at once. |
| Search.SearchPart.constructor | search_part.py:34-38 | The search holds the two tables it was given. |
| Search.SearchPart.QueryPartReturnAllSelects | search_part.py:94-101 | `query_part_return_all` returns exactly the rows with the pin count whose part name the upper-cased pattern matches, in the order of the index, and contains exactly those rows. |
| Search.SearchPart.QueryPartFirstMatch | search_part.py:82-92 | `query_part` answers exactly when some row passes both filters. When it does, the answer comes from the first such row: its location without the last 4 characters, and its part name. Otherwise it raises. |
| Search.SearchPart.QueryPartLibrary | search_part.py:89-92 | When the first matching row's location is `base.lib`, `query_part` returns `base`. |
| Search.SearchPart.QueryFootprintFirstMatch | search_part.py:103-116 | `query_footprint` answers exactly when some row passes both filters, and then with the first such row's location and name. The placeholder is never returned. |
| Search.SearchPart.QueryFootprintOrderIrrelevant | search_part.py:119-133 | `by_pad_count=True` and `by_pad_count=False` give identical row sequences. |
| Search.SearchPart.QueryFootprintReturnAllSelects | search_part.py:119-133 | Either way, the result is exactly the rows with the pad count whose name the upper-cased pattern matches, in table order. |
| Search.SearchPart.PatternCaseIrrelevant | search_part.py:82-133 | Two patterns that upper-case alike get the same answer from every query. Nothing is assumed of the regular-expression search. |
| Search.SearchPart.LowerCasePatternExample | search_part.py:88 | `"lp2951"` and `"LP2951"` find the same part. |
| Search.SearchPart.CreatePartDefaultPadCount | search_part.py:136-137 | Without a pad count, the footprint is looked up with the pin count. |
| Search.SearchPart.CreatePartFromQueries | search_part.py:139-140 | `create_part` gets its arguments exactly when both queries answer. |
| Search.SearchPart.CreatePartFootprint | search_part.py:139-142 | The part takes its library and name from the part query. A footprint `fp` found in `lib.pretty` becomes the footprint string `lib:fp`. |

## Left out

- File system work is not modelled: directory checks, globbing (`*.lib` non-recursive, `**/*.kicad_mod` recursive), opening and reading files, CSV writing and reading, `SearchPart._load_indexes`, logging and `print`. File contents, file lists and loaded tables are parameters.
- The regular-expression engine is kept abstract. Upper-casing a pattern can change its meaning (`\d` becomes `\D`), so nothing is assumed about how `matches` treats case.
- `str.upper` is modelled on ASCII letters only. There is no Unicode case mapping.
- pandas mechanics are not modelled: DataFrame construction and `concat` are read as sequences of rows, and the CSV row-ordinal column and dtype coercion are left out.
- Paths are POSIX paths: components are split on `/`, and empty and `.` components are dropped as `pathlib` does. Windows separators and drive letters are not modelled.
- The pyparsing machinery itself is not modelled. The grammars are written as parsers over lines, words and characters that follow the pyparsing grammars. Where they differ, the member concerned is listed below.
- LibGrammar.ParseBody: the `Each` of `index_parts.py` line 96 is modelled as "any order, with the declared multiplicities": any number of field and ALIAS lines, at most one `$FPLIST` list, exactly one DRAW section. pyparsing's real `Each` can reject some interleavings that this accepts. For example, `fields = ZeroOrMore(field).suppress()` (line 53) is wrapped in a `Suppress`, so `Each` never matches it a second time. The source therefore rejects field lines that come after an ALIAS line and before the DRAW section: `DEF x U …`, `ALIAS A`, `F0 "U" …`, `DRAW`, `ENDDRAW`, `ENDDEF` fails there. The model accepts it, as does the source with the `F0` line before the `ALIAS` line. `LibProperties.SectionsCommute` and `LibProperties.ApplyCommutes` are stated of this reading. It can also accept what this rejects. The suppressed field group and footprint list can match empty and are not `Optional`, so `Each` puts them in both its required and its optional lists, and may then match a second `$FPLIST` list or a second group of field lines. The model fails a block with two `$FPLIST` lists.
- LibGrammar.IsQuoted: a quoted field is a word between two equal quote characters with no such quote inside. `dblQuotedString` and `sglQuotedString` also accept a doubled quote (`""`) and backslash escapes inside. For `DEF "a""b" …` the source records `a""b`, while the model reads the word as a plain field and records `"a""b"`.
- LibGrammar.IsPinLine: the pin tag must be a word of its own. `Word("Xx", exact=1)` also matches the `X` of `Xname 1 …` and reads `name` as the pin name. The model does not take that line as a pin line, so the block fails.
- Search.SearchPart.matches: the regular-expression search is total. `str.contains(..., regex=True)` at `search_part.py` lines 88, 101, 111, 130 and 132 raises `re.error` on a pattern that is not a valid regular expression (`"C++"`, `"("`). Every query can raise there, while the model answers.
- LibGrammar.IsKeyword: caseless keywords are recognised only as whole whitespace-separated words. pyparsing also accepts a keyword followed directly by certain punctuation. `SkipTo(version)` and `SkipTo(foot_end)` try the keyword at every character, and `CaselessKeyword` only requires that the character before it is not alphanumeric, `_` or `$`. So the source also finds a keyword directly preceded by punctuation (`-version 2.4`, `-$ENDFPLIST |`), which the model does not.
- LibGrammar.FnumPrefix: `fnum` (`index_parts.py` line 43) is a `Group`, not a `Combine`, so pyparsing skips whitespace between its digits, its `.` and its second digits. For `Version 2 .4` and for `Version 2. 4` the source's version is the tokens `2`, `.`, `4`. The model reads `fnum` within one word and gives `2` and `2.`. `LibGrammar.VersionIn` inherits this. The version is not used by the index.
- LibGrammar.LexLine: quoted strings are single words. A quoted string containing a space, which pyparsing would accept as one field, is split here.
- Search.SearchPart.QueryPartReturnAll: the `assert`s of `query_part_return_all` (`search_part.py` lines 95-98) are modelled as preconditions: a pin count above -1 and a non-empty name. The `AssertionError` the source raises otherwise is not modelled. The pin-count check is read on `int`, so the `isinstance` test is left out.
- Search.SearchPart.QueryFootprintReturnAll: the `assert`s of `query_footprint_return_all` (`search_part.py` lines 124-126) are modelled the same way: a pad count above -1 and a non-empty name. The `AssertionError` path is not modelled.
- `create_part` stops at the arguments of `skidl.Part`. Building the part and the `**kwargs` passed through are not modelled.
- `_parse_kicad_mod` counts only the first contiguous run of pad entries. `SkipTo(stringEnd)` (`index_footprints.py` line 80) discards any later pads, and the model does the same.
