# timeliness: the format compiler, format sets and parser logic in Dafny

Timeliness is a Ruby library that parses date and time strings against a
catalogue of formats written with simple tokens (`yyyy-mm-dd`, `h:nn_ampm`,
`ddd, dd mmm yyyy hh:nn:ss zo`). Each format is compiled once into a regexp
and an extractor `process` that turns the captured strings into the 8-slot
component array `[year, month, day, hour, min, sec, usec, offset]`. The
formats of each type are merged into one alternation, a *format set*. A parse
chooses the candidate sets for the requested type, takes the first result,
reshapes the array for the type and gates it for calendar and clock
legality before a time is built.

This project models that core and proves properties of it:

- `Tokens` (tokens.dfy): the token catalogue, the role→slot table and
  `sorted_token_keys`.
- `Rewriting` (rewriting.dfy): `Format#compile!` as string rewriting over
  pieces. The passes are escaping, longest-first token substitution with
  the repeated-role failure, and placeholder expansion. The lemmas state
  what the passes preserve: spelling, distinct placeholders, unique roles
  and no token spelling left over.
- `Formats` (formats.dfy): the imperative compiler (`Escape`, `Substitute`,
  `Expand`, `DefineProcess`), proved equal to the rewriting functions; the
  `Format` class; and the generated `process`, given as a role→slot table
  with the component conversions.
- `Matching` (matching.dfy): whole-string matching of a compiled pattern
  under the atomic group, over the handful of fragment kinds the catalogue
  uses.
- `FormatSets` (format_sets.dfy): the `FormatSet` class. Its `compile!`
  is the `inject` loop that fills the formats hash and the offset index;
  its `match` finds the first non-nil capture and hands eight values to
  the winning branch's `process`.
- `Helpers` (helpers.dfy): `full_hour`, `unambiguous_year`, `month_index`,
  `microseconds` and `offset_in_seconds`.
- `MonthResolver` (month_names_resolver.dfy): the month-name resolver
  singleton.
- `FormatLists` (format_lists.dfy): the default format lists and what
  `add_formats`, `remove_formats` and `use_euro_formats` do to them.
- `Candidates` (candidates.dfy): `format_set` and the first-success search
  of `_parse`.
- `TimeArrays` (time_arrays.dfy): `parse`'s reshaping of the component
  array, `fast_date_valid_with_fallback`, `make_time` and the range check
  of `time_with_datetime_fallback`.
- `Parsing` (parsing.dfy): the `Parser` object. It holds the three lists
  it updates in place, the three compiled sets it reassigns, and
  `_parse` and `parse`.

Ruby's `nil` is `None`, and a raised exception is an `Err` carrying the
error (`Outcomes`). The clock, the ambiguous-year threshold, the month
tables, the I18n state and today's date are parameters.

`lib/timeliness/format.rb` reads its tables through `Definitions`, and
`lib/timeliness/definitions.rb` is not part of this model. The catalogue
used is the one at `lib/timeliness/parser.rb:92-133`. Where the tests
disagree with the code, the model follows the code, with three exceptions.
These are the three places where the code is evidently wrong, listed under
"## Findings":
- the minutes of a zone offset;
- the date gate on a nil month;
- strict parsing, which calls a set reader the parser does not define.

For each, the model states the code as written and a corrected definition.
The rest of the model (`process`, `make_time`, `_parse`, `parse`) is built on
the corrected one. "## Left out" names the members this affects.

## Model

| member | source | states |
|---|---|---|
| Tokens.SlotOf | lib/timeliness/parser.rb:123-133 | every role but the meridian has a slot below 8; the meridian has none |
| Tokens.SlotRole | lib/timeliness/parser.rb:123-131 | the role feeding each of the 8 slots, inverse to `SlotOf` |
| Tokens.SlotOfInjective | lib/timeliness/parser.rb:123-131 | two roles with the same slot are the same role |
| Tokens.SortByLength | lib/timeliness/parser.rb:241 | the sort is a permutation of its input |
| Tokens.SortByLengthSorted | lib/timeliness/parser.rb:241 | the sort puts longer spellings before shorter ones |
| Tokens.SortedTokenKeys | lib/timeliness/parser.rb:240-242 | the keys are a permutation of the catalogue, longest spelling first |
| Helpers.FullHour | lib/timeliness/helpers.rb:7-20 | nil meridian: `to_i`; `am`: raises exactly for hour 0 or above 12, else 0..11 with the same residue mod 12; any other meridian: 12..23 for 1..12, 12 for 0, and above 23 for any hour above 12, which the clock gate later rejects |
| Helpers.FullHourInvertsTwelveHour | lib/timeliness/helpers.rb:7-20 | every hour 0..23 is read back from its 12-hour digits and meridian |
| Helpers.FullHourInjective | lib/timeliness/helpers.rb:14-19 | distinct 12-hour readings give distinct hours |
| Helpers.DottedMeridians | lib/timeliness/helpers.rb:11-14 | `A.M.`, `a.m` and `AM` read as `am`; `P.M.` and `pm` do not |
| Helpers.CenturyOfFourDigitYear | lib/timeliness/helpers.rb:24 | the first two digits of a four-digit year are `year / 100` |
| Helpers.UnambiguousYearWindow | lib/timeliness/helpers.rb:22-29 | a year of at most two digits v gives (C - [v >= T]) * 100 + v |
| Helpers.UnambiguousYearLong | lib/timeliness/helpers.rb:22-29 | a year of more than two digits is its own value |
| Helpers.TwoDigitYearRoundTrip | lib/timeliness/helpers.rb:22-29 | every year in the hundred-year window ending before C * 100 + T is recovered from its last two digits |
| Helpers.UnambiguousYearExamples | lib/timeliness/helpers.rb:22-29 | threshold 30 in 2023: 29 → 2029, 30 → 1930, 99 → 1999, 00 → 2000 |
| Helpers.FirstCaseMatch | lib/timeliness/helpers.rb:33 | the first entry equal to the name ignoring case; nil exactly when none is |
| Helpers.MonthIndex | lib/timeliness/helpers.rb:31-34 | a month with a digit is `to_i`; otherwise the first case-insensitive position in the full table (longer than 3) or the abbreviated one, nil exactly when absent |
| Helpers.MonthIndexEnglishRange | lib/timeliness/helpers.rb:31-42 | with the `Date` tables a name resolves to 1..12 or nil |
| Helpers.Microseconds | lib/timeliness/helpers.rb:44-46 | the result is below one million |
| Helpers.MicrosecondsRightPads | lib/timeliness/helpers.rb:44-46 | one to six digits are right-padded with zeros to six digits |
| Helpers.MicrosecondsTrailingZero | lib/timeliness/helpers.rb:44-46 | a trailing zero does not change the value |
| Helpers.MicrosecondsRoundTrip | lib/timeliness/helpers.rb:44-46 | six zero-padded digits of a count below one million read back as that count |
| Helpers.MicrosecondsExamples | lib/timeliness/helpers.rb:44-46 | '1' → 100000, '01' → 10000, '99' → 990000, '999999' → 999999 |
| Helpers.ParseOffset | lib/timeliness/helpers.rb:49 | the captured hours and minutes are two digits each |
| Helpers.OffsetInSeconds | lib/timeliness/helpers.rb:48-51 | corrected: no match gives 0; otherwise the sign of the offset and magnitude hh * 3600 + mm * 60 |
| Helpers.OffsetInSecondsRoundTrip | lib/timeliness/helpers.rb:48-51 | `±hh:mm` of a whole-minute offset reads back as that offset |
| Helpers.OffsetColonOptional | lib/timeliness/helpers.rb:49 | `±hhmm` and `±hh:mm` read the same, as written and corrected |
| Helpers.OffsetMinutesCounterexample | lib/timeliness/helpers.rb:50 | `-05:30` gives -18030 as written and -19800 corrected |
| Matching.SegMax | lib/timeliness/parser.rb:93-111 | no string longer than the bound fits a fragment |
| Matching.Candidates | lib/timeliness/parser.rb:93-111 | the lengths a fragment tries are exactly those it matches, longest first |
| Matching.FirstMatch | lib/timeliness/format.rb:53 | a match found is a prefix the pattern accepts, with captures fitting the capturing fragments |
| Matching.FirstMatchComplete | lib/timeliness/format.rb:53 | the search fails only when no prefix is accepted |
| Matching.AnchoredMatch | lib/timeliness/format.rb:53 | an anchored match accepts the whole string, with fitting captures |
| Matching.AnchoredMatchCaptureCount | lib/timeliness/format.rb:41-46 | an anchored match has one capture per capturing fragment |
| Matching.AnchoredMatchSound | lib/timeliness/format.rb:53 | a string the pattern does not accept is not matched |
| Matching.FirstMatchNone | lib/timeliness/format.rb:53 | a failed search means no prefix is accepted |
| Rewriting.Escaped | lib/timeliness/format.rb:19 | one piece per character, `.` and `\` escaped |
| Rewriting.RenderEscaped | lib/timeliness/format.rb:19 | escaping keeps the spelling and adds no placeholder |
| Rewriting.Substitution | lib/timeliness/format.rb:23-34 | a raise is CompilationFailed for the format; success only extends the tokens found |
| Rewriting.SubstituteAll | lib/timeliness/format.rb:22-35 | the same over every key in turn |
| Rewriting.Substituted | lib/timeliness/format.rb:18-35 | escaping then substitution: CompilationFailed or pieces whose placeholders name found tokens |
| Rewriting.Expansion | lib/timeliness/format.rb:38-47 | one segment per piece |
| Rewriting.SubstitutionRender | lib/timeliness/format.rb:23-34 | a substitution keeps the spelling of the format |
| Rewriting.SubstitutionRoles | lib/timeliness/format.rb:26-28 | a substitution that succeeds keeps roles unique |
| Rewriting.SubstitutionHoles | lib/timeliness/format.rb:30-33 | placeholders stay distinct; each is old or new |
| Rewriting.SubstituteAllProperties | lib/timeliness/format.rb:22-35 | the whole pass keeps spelling, distinct placeholders and unique roles |
| Rewriting.SubstitutionNoKey | lib/timeliness/format.rb:23 | a substitution leaves no occurrence of its own spelling and creates none of another's |
| Rewriting.SubstituteAllNoKey | lib/timeliness/format.rb:22-35 | after the pass no spelling of the keys is left to scan |
| Rewriting.SubstitutionChecked | lib/timeliness/format.rb:26-28 | a substitution raises exactly when the unchecked scan repeats a role |
| Rewriting.SubstituteAllChecked | lib/timeliness/format.rb:22-35 | the pass raises exactly when the unchecked scan repeats a role |
| Rewriting.ExpansionRender | lib/timeliness/format.rb:38-47 | expansion keeps the spelling |
| Rewriting.ExpansionOrder | lib/timeliness/format.rb:41-43 | `token_order` is the roles of the capturing segments, left to right |
| Rewriting.ExpansionNoDup | lib/timeliness/format.rb:38-47 | distinct placeholders of distinct roles give an order without repeats |
| Rewriting.ExpansionAt | lib/timeliness/format.rb:38-47 | each piece becomes the segment at the same position: a token, or a literal |
| Rewriting.CompiledFailsIffRoleRepeats | lib/timeliness/format.rb:26-28 | `compile!` raises CompilationFailed exactly when two tokens found share a role |
| Rewriting.CompiledIsTokenized | lib/timeliness/format.rb:15-57 | otherwise the pattern and order are the expansion of the tokens the scan finds |
| Rewriting.CompiledRoundTrip | lib/timeliness/format.rb:15-57 | the compiled pattern spells its format string back |
| Rewriting.CompiledOrder | lib/timeliness/format.rb:38-49 | `token_order` is the capturing roles in order, without repeats, at most nine |
| Rewriting.CompiledNoSpellingLeft | lib/timeliness/format.rb:22-35 | no key's spelling survives as literal text, so `yyyy` is never split into `yy` |
| Rewriting.RolesBound | lib/timeliness/format.rb:49 | distinct roles number at most nine |
| Formats.Escape | lib/timeliness/format.rb:18-19 | the loop computes `Escaped` |
| Formats.Substitute | lib/timeliness/format.rb:23-34 | the scan computes `Substitution` |
| Formats.SubstituteKeys | lib/timeliness/format.rb:22-35 | the loop over the keys computes `SubstituteAll` |
| Formats.Expand | lib/timeliness/format.rb:38-47 | the loop computes `Expansion` |
| Formats.DefineProcess | lib/timeliness/format.rb:64-69 | 8 slots, each its role when that role is in the order and nil otherwise |
| Formats.Format.constructor | lib/timeliness/format.rb:11-13 | a new format holds its string and is not compiled |
| Formats.Format.Compile | lib/timeliness/format.rb:15-57 | raises CompilationFailed, changing nothing, exactly when `Compiled` fails; otherwise holds `Compiled`'s format |
| Formats.ArgFor | lib/timeliness/format.rb:70-72 | a role's parameter is bound to the argument at its position; a role not in the order is nil |
| Formats.ConvertErrors | lib/timeliness/parser.rb:124-131 | a conversion raises only for a nil year or month, or an `am` hour out of range |
| Formats.SlotValues | lib/timeliness/format.rb:73 | the array literal evaluates every slot left to right, or gives the first raise |
| Formats.Process | lib/timeliness/format.rb:64-76 | too few arguments raise; otherwise 8 slots, nil for roles not in the order, or the first conversion error |
| Formats.ProcessFeedsSlot | lib/timeliness/format.rb:64-76 | the i-th argument feeds the slot of the i-th role through its conversion |
| Formats.SlotOfArg | lib/timeliness/format.rb:66-69 | the same, before the array is built |
| Formats.ArgForAt | lib/timeliness/format.rb:70-72 | without repeats the i-th role gets the i-th argument |
| Formats.ProcessIgnoresSurplus | lib/timeliness/format.rb:70 | surplus arguments change nothing |
| Formats.ProcessFromSlots | lib/timeliness/format.rb:72-74 | when every slot converts, those are the result |
| Formats.SlotLongYear | lib/timeliness/parser.rb:124 | a year longer than two characters is its `to_i` |
| Formats.SlotNumericMonth | lib/timeliness/parser.rb:125 | a month with a digit is its `to_i` |
| Formats.SlotPlain | lib/timeliness/format.rb:68 | day, minute and second are `to_i` |
| FormatSets.CompileAllPrefix | lib/timeliness/format_set.rb:21-27 | the formats before the first failure are compiled, each from its own string; an error exactly when one fails, the first such one |
| FormatSets.CompileAllFails | lib/timeliness/format_set.rb:21-27 | a list fails exactly when one of its formats does, with CompilationFailed for it |
| FormatSets.TotalStep | lib/timeliness/format_set.rb:26 | the accumulator grows by each format's token count |
| FormatSets.TotalMonotone | lib/timeliness/format_set.rb:21-27 | offsets never decrease along the list |
| FormatSets.TotalStrict | lib/timeliness/format_set.rb:21-27 | a format with a token has an offset below every later one |
| FormatSets.OffsetsInjective | lib/timeliness/format_set.rb:24 | with a token in every format, distinct formats have distinct offsets |
| FormatSets.IndexLast | lib/timeliness/format_set.rb:24 | the index holds a format at its offset unless a later format shares it |
| FormatSets.IndexOverwritten | lib/timeliness/format_set.rb:24 | a later format at the same offset replaces a tokenless one |
| FormatSets.IndexFoldAgrees | lib/timeliness/format_set.rb:24 | every format with a token is found at its offset |
| FormatSets.HashFoldLookup | lib/timeliness/format_set.rb:23 | the hash maps each format string to its last format and keeps other keys |
| FormatSets.WinningFrom | lib/timeliness/format_set.rb:25-28 | the winner is the first branch in list order that matches the whole string; none means no branch does |
| FormatSets.FirstNonNil | lib/timeliness/format_set.rb:38 | the first non-nil capture, nil exactly when all are nil |
| FormatSets.Slice | lib/timeliness/format_set.rb:39 | at most eight values from the index on |
| FormatSets.FirstNonNilBlock | lib/timeliness/format_set.rb:37-38 | the first non-nil capture of a winning block is at the block's offset |
| FormatSets.SliceBlock | lib/timeliness/format_set.rb:39 | the eight values are the block's captures followed by nils |
| FormatSets.TotalIsGroupTotal | lib/timeliness/format_set.rb:24-26 | for compiled formats the token-count offsets are capture numbers |
| FormatSets.CompiledCoherent | lib/timeliness/format_set.rb:22 | compiled formats have one group per role |
| FormatSets.Extract | lib/timeliness/format_set.rb:37-41 | any values returned are 8 slots |
| FormatSets.ExtractBlock | lib/timeliness/format_set.rb:37-41 | a block of captures gives its format's meaning, given or found in the index |
| FormatSets.CompileEach | lib/timeliness/format_set.rb:21-27 | the loop computes `CompileAll`, and the hash and index folds over the formats done |
| FormatSets.FormatSet.constructor | lib/timeliness/format_set.rb:11-15 | a new set holds its formats, an empty hash and index, and no regexp |
| FormatSets.FormatSet.Compile | lib/timeliness/format_set.rb:19-30 | hash and index hold the formats compiled; on failure the error with the regexp as it was, else the branches are the compiled formats |
| FormatSets.FormatSet.SingleFormatCompiles | lib/timeliness/format_set.rb:45-47 | `single_format` gives what compiling the string gives |
| FormatSets.FormatSet.Match | lib/timeliness/format_set.rb:32-43 | any values returned are 8 slots |
| FormatSets.FormatSet.MatchFirstBranch | lib/timeliness/format_set.rb:36-42 | the first branch matching the whole string decides the result |
| FormatSets.FormatSet.MatchNoBranch | lib/timeliness/format_set.rb:36-42 | a string no branch matches gives nil |
| FormatSets.FormatSet.MatchSingle | lib/timeliness/format_set.rb:33-34 | with a format string only that format is used: its compile error, nil, or its meaning |
| FormatSets.CompileSet | lib/timeliness/format_set.rb:7-9 | a fresh compiled set over the formats, or the first compile error |
| MonthResolver.TableIndex | lib/timeliness/helpers/month_names_resolver.rb:42-44 | the first position holding the name; nil exactly when none does |
| MonthResolver.FirstTableIndex | lib/timeliness/helpers/month_names_resolver.rb:61 | the position in the first table holding the name; nil exactly when none does |
| MonthResolver.LocaleTables | lib/timeliness/helpers/month_names_resolver.rb:79-83 | each locale's table for the key, in order |
| MonthResolver.MonthNamesResolver.constructor | lib/timeliness/helpers/month_names_resolver.rb:18-22 | no base tables are configured |
| MonthResolver.MonthNamesResolver.BaseMonthNames | lib/timeliness/helpers/month_names_resolver.rb:20-22 | the configured tables, or `[]` |
| MonthResolver.MonthNamesResolver.SetMonthNames | lib/timeliness/helpers/month_names_resolver.rb:9-11 | the class-level setter stores the tables |
| MonthResolver.MonthNamesResolver.ValuesForLocales | lib/timeliness/helpers/month_names_resolver.rb:76-86 | the loop gives the base tables followed by each locale's |
| MonthResolver.MonthNamesResolver.LocaleValues | lib/timeliness/helpers/month_names_resolver.rb:76-86 | the base tables first, then each available locale's table in order |
| MonthResolver.MonthNamesResolver.Resolve | lib/timeliness/helpers/month_names_resolver.rb:24-40 | a numeric month is its `to_i` |
| MonthResolver.MonthNamesResolver.WithoutI18n | lib/timeliness/helpers/month_names_resolver.rb:26-29 | without I18n the flag is irrelevant; the answer is the first position of the capitalized name in the `Date` table, 1..12, and nil exactly when the name is not there |
| MonthResolver.MonthNamesResolver.CurrentLocaleOnly | lib/timeliness/helpers/month_names_resolver.rb:31-33 | a locale-bound lookup reads only the current locale's table; the answer is the first position of the capitalized name there, and nil exactly when the name is not there |
| MonthResolver.MonthNamesResolver.LocaleAgnosticFirst | lib/timeliness/helpers/month_names_resolver.rb:58-68 | the position in the first table holding the name, nil exactly when none does |
| FormatLists.IndexOf | lib/timeliness/parser.rb:213 | the first position of the anchor |
| FormatLists.InsertAt | lib/timeliness/parser.rb:213-214 | one entry longer, holding the old entries and the new one |
| FormatLists.AddEachSucceeds | lib/timeliness/parser.rb:210-215 | the loop succeeds exactly when each format is new at its turn; else FormatIncluded for one of them |
| FormatLists.AddEachAppends | lib/timeliness/parser.rb:210-215 | without `:before` new formats are appended in order |
| FormatLists.AddEachBefore | lib/timeliness/parser.rb:210-215 | with `:before` new formats land in order just before the anchor, old entries keeping their order |
| FormatLists.DeleteAll | lib/timeliness/parser.rb:191 | every occurrence is removed and nothing else |
| FormatLists.RemoveEachMeaning | lib/timeliness/parser.rb:190-194 | succeeds exactly when each format is present at its turn, leaving the other entries in order; else FormatNotFound for one |
| FormatLists.UsFormatMeaning | lib/timeliness/parser.rb:135 | one or two `m`s then a non-`m`, as `/\Am{1,2}[^m]/` means |
| FormatLists.EuroFormats | lib/timeliness/parser.rb:222 | exactly the entries that are not US formats |
| FormatLists.EuroFormatsIsKeep | lib/timeliness/parser.rb:222-223 | the filter removes exactly the US formats, in order |
| FormatLists.EuroDateDefaults | lib/timeliness/parser.rb:222 | the European date list drops `m/d/yy` and `m\d\yy`, keeps `d/m/yy` |
| FormatLists.EuroDatetimeDefaults | lib/timeliness/parser.rb:223 | the European datetime list drops the three `m/d/yy` layouts |
| Candidates.OwnSet | lib/timeliness/parser.rb:176 | each type names its own set |
| Candidates.FormatSetsFor | lib/timeliness/parser.rb:266-289 | the candidate order by type and length below 11; no repeats; the type's own set included |
| Candidates.FirstFound | lib/timeliness/parser.rb:179-181 | any values found are the first non-nil answer, all earlier ones nil |
| Candidates.FirstFoundDecides | lib/timeliness/parser.rb:180-184 | the first non-nil answer decides: its values, or nil if it raised |
| Candidates.FirstFoundNone | lib/timeliness/parser.rb:180-181 | all answers nil gives nil |
| TimeArrays.DaysInMonth | lib/timeliness/parser.rb:303 | 28..31, and 29 in February exactly in leap years |
| TimeArrays.FastDateValidAsWritten | lib/timeliness/parser.rb:302-304 | raises exactly for a nil month, or a nil day with month below 13 |
| TimeArrays.FastDateValid | lib/timeliness/parser.rb:302-304 | corrected: true only with month below 13 and a day; agrees with the code whenever both are present |
| TimeArrays.FastDateValidExact | lib/timeliness/parser.rb:303 | for a real month and positive day the fast check is `valid_civil?` |
| TimeArrays.FastDateValidFebruary | lib/timeliness/parser.rb:303 | 29 February passes exactly in leap years; month 13 never passes |
| TimeArrays.NilMonthCounterexample | lib/timeliness/parser.rb:303 | `1 Foo 2000` as `:date`: the month is nil, the code raises, the corrected gate rejects |
| TimeArrays.Compact | lib/timeliness/parser.rb:164 | no longer than its input |
| TimeArrays.CompactAppend | lib/timeliness/parser.rb:164 | compacting a concatenation is concatenating the compacted parts |
| TimeArrays.CompactMembers | lib/timeliness/parser.rb:164 | a value is in the result exactly when it is present in the array |
| TimeArrays.CompactShiftsOverNil | lib/timeliness/parser.rb:164 | `[2000, nil, 1]` compacts to `[2000, 1]`: later values move up over an interior nil |
| TimeArrays.WithDefaults | lib/timeliness/parser.rb:292 | the values given, then the parameter defaults up to seven |
| TimeArrays.MakeTime | lib/timeliness/parser.rb:159-172 | local times pass the hour/minute/second gate and have 7 values; zone times carry the slots; an invalid date gives nil |
| TimeArrays.MakeTimeComplete | lib/timeliness/parser.rb:159-172 | with all seven values: a time exactly when the date is valid and the clock in range |
| TimeArrays.MakeTimeDefaults | lib/timeliness/parser.rb:292-293 | missing trailing values default to 1/1/0/0/0/0 before the gate |
| TimeArrays.Adjusted | lib/timeliness/parser.rb:146-155 | `:date` leaves three slots and a nil; `:time` puts today in 0..2; no type fills only missing slots; `:datetime` leaves it |
| TimeArrays.Take7 | lib/timeliness/parser.rb:156 | the first seven slots, or all if fewer |
| TimeArrays.DateDropsTime | lib/timeliness/parser.rb:146-147 | `:date` gives midnight |
| TimeArrays.TimeUsesToday | lib/timeliness/parser.rb:148-149 | `:time` gives today's date |
| TimeArrays.NoTypeKeepsParsed | lib/timeliness/parser.rb:150-154 | no type keeps each parsed date slot |
| TimeArrays.PostProcess | lib/timeliness/parser.rb:146-155 | the slice assignments compute `Adjusted` |
| Parsing.Parser.constructor | lib/timeliness/parser.rb:40-87 | the three default lists and no sets |
| Parsing.Parser.SetOf | lib/timeliness/parser.rb:176 | one of the three set fields |
| Parsing.Parser.RebuildDates | lib/timeliness/parser.rb:235-236 | date then datetime set rebuilt; a raise leaves the later field as it was |
| Parsing.Parser.CompileFormats | lib/timeliness/parser.rb:233-238 | all three sets rebuilt from the lists in order; the lists unchanged |
| Parsing.Parser.UseEuroFormats | lib/timeliness/parser.rb:221-224 | date and datetime sets from the filtered lists; time set and lists unchanged |
| Parsing.Parser.UseUsFormats | lib/timeliness/parser.rb:228-231 | date and datetime sets from the full lists; time set and lists unchanged |
| Parsing.Parser.AddFormats | lib/timeliness/parser.rb:204-217 | the list becomes `Added`'s; on a raise the sets stay, else everything is recompiled |
| Parsing.Parser.InsertEach | lib/timeliness/parser.rb:210-215 | the in-place loop computes `AddEach`, touching only the one list |
| Parsing.Parser.RemoveFormats | lib/timeliness/parser.rb:189-196 | the list becomes `RemoveEach`'s; on a raise the sets stay, else everything is recompiled |
| Parsing.Parser.DeleteEach | lib/timeliness/parser.rb:190-194 | the in-place loop computes `RemoveEach`, touching only the one list |
| Parsing.Parser.MatchOf | lib/timeliness/parser.rb:177 | a set's answer; any values are 8 slots |
| Parsing.Parser.MatchAll | lib/timeliness/parser.rb:180 | each candidate set's answer, in order |
| Parsing.Parser.ParseValues | lib/timeliness/parser.rb:174-185 | corrected: strict reads the type's own set only, nil without a type; otherwise the first non-nil answer over the candidates |
| Parsing.Parser.ParseValuesAsWritten | lib/timeliness/parser.rb:174-185 | as written: strict is always nil, since the `send` raises and is rescued; otherwise the same as the corrected reading |
| Parsing.Parser.StrictReaderCounterexample | lib/timeliness/parser.rb:176 | whenever the own set reads the string, strict as written gives nil and corrected gives that set's values |
| Parsing.Parser.ShortTimeOnlyTimeSet | lib/timeliness/parser.rb:270-272 | corrected reading: a short `:time` string reads only the time set, so strict and non-strict agree; a raise there gives nil |
| Parsing.Parser.Parse | lib/timeliness/parser.rb:140-157 | a non-String is returned; unreadable strings give nil; else `make_time` of the adjusted first seven slots |
| Parsing.Load | lib/timeliness/parser.rb:311 | a parser with the default lists, compiled exactly when every list compiles |

## Left out

- Ruby's regexp engine: matching is modelled only for the fragments the catalogue uses, as whole-string matching under the atomic group. The difference between the line anchors `^…$` of a single format and `\A…\z` of a set is not modelled (strings are taken to have no newline).
- Regexp syntax written into a format string by the user is treated as literal characters, and the invalid-regexp failure of `compile!` is not modelled.
- `Time`, `DateTime` and `ActiveSupport` zone construction: `make_time` returns the arguments it would pass (`LocalTime`, `ZoneTime`). The `rescue` fallback to `DateTime.civil` is left out.
- The clock: `current_date` and `Time.now.year` are parameters (today's date, the current year), as are `Timeliness.default_timezone`, the ambiguous-year threshold and `date_for_time_type`.
- I18n and Unicode: locale tables are given values, and `mb_chars.capitalize` and `casecmp?` are ASCII case mapping.
- Floating point: `offset_in_seconds` is modelled by its integer meaning, and so is `microseconds` (below).
- Helpers.Microseconds: the code computes `(".#{usec}".to_f * 1_000_000).to_i`, truncating a double product. The model reads the digits as an exact decimal fraction. The two differ whenever the product lands just below a whole number: `'0157'` and `'015700'` give 15699.999999999998, so 15699 in the code, where the model gives 15700. Helpers.MicrosecondsRightPads and Helpers.MicrosecondsRoundTrip state the exact reading, so for such inputs they do not describe the code.
- Parsing.Parser.AddFormats and Parsing.Parser.RemoveFormats: in Ruby a `FormatSet` keeps a reference to the parser's own format list (lib/timeliness/format_set.rb:12). The in-place `insert` and `delete` therefore also change `formats` of a set that is not recompiled, for instance after a raise part-way through the loop. The model keeps each set's formats as its own copy, so this aliasing is not captured. `match` never reads that field, so parsing is unaffected.
- `instance_eval` code generation is replaced by the role→slot table and `Process`; thread-local attributes and the configuration holders are left out.
- Tokens.SortedTokenKeys: Ruby's `sort` is not stable; the model keeps catalogue order among spellings of equal length.
- Parsing.Parser.constructor and Parsing.Load take the catalogue as a parameter instead of recomputing `sorted_token_keys`, and `compile_formats`' reset of its memo is not modelled; the `format_tokens` accessors that let callers replace the catalogue are left out.
- The concrete `'01/02/2000'` example, [2000,1,2] with US ordering and [2000,2,1] with European ordering, is not carried through matching. The filtered lists it rests on are proved (`EuroDateDefaults`, `EuroDatetimeDefaults`).
- Types other than `:date`, `:time`, `:datetime` and nil are left out. Under `:strict` the code's `send("#{type}_format_set")` raises for every type, because no such reader is defined (see "## Findings"). With the readers the corrected model assumes, an unknown type would still raise.
- TimeArrays.LeapYear: the leap rule is that of `Date.valid_civil?` with its default reform date, Julian before 1583 and Gregorian from then on, not a proleptic Gregorian calendar.
- TimeArrays.ValidCivil: `Date.valid_civil?` is modelled for days from 1 on. Negative days are not modelled, since the gate only calls it for a day of 29 or more.
- Candidates.FirstFound takes every candidate set's answer as a value. Matching has no side effects, so this is the same as `find` stopping early.
- The message of the `:before` error in `add_formats` interpolates `format`, which is `Kernel#format` and raises ArgumentError. The model raises `BeforeNotFound` for it.
- Formats.Process: slot 7 uses the corrected `Helpers.OffsetInSeconds`, `sign * (hh * 3600 + mm * 60)`, where the generated `process` calls `offset_in_seconds` as written, `sign * (hh * 3600 + mm)`. A half-hour offset such as `-10:30` gives -37800 in the model and -36030 in the code. The as-written conversion is `Helpers.OffsetInSecondsAsWritten`; see "## Findings".
- FormatSets.FormatSet.Match and Parsing.Parser.ParseValues inherit that corrected slot 7 from `Formats.Process`.
- TimeArrays.MakeTime: the date gate is the corrected `TimeArrays.FastDateValid`. With a nil month, or a nil day and a month below 13, the code raises NoMethodError out of `make_time`, because it rescues only ArgumentError and TypeError. The model answers `NoTime` there. The as-written gate and its raise are `TimeArrays.FastDateValidAsWritten`; see "## Findings".
- Parsing.Parser.ParseValues: under `:strict` the model reads the type's own set, as if the parser had `attr_reader :time_format_set, :date_format_set, :datetime_format_set`. The parser defines no such readers (its `attr_accessor` at lib/timeliness/parser.rb:138 covers only the lists, `format_tokens` and `format_components`). So as written, the `send` at line 176 raises NoMethodError, which the bare `rescue` turns into nil for every strict call. `_parse('2000-02-01', :date, :strict => true)` is nil in the code and the date set's values in the model. The as-written reading is `Parsing.Parser.ParseValuesAsWritten`; see "## Findings".
- Parsing.Parser.ShortTimeOnlyTimeSet: its equality of strict and non-strict short `:time` parsing holds for the corrected `ParseValues` only. As written, the strict call is nil.
- Parsing.Parser.Parse inherits the corrected strict reading from `ParseValues`.
- Parsing.Parser.Parse inherits the corrected date gate from `TimeArrays.MakeTime`: `parse('1 Foo 2000', :date)` is `NoTime` in the model where the code raises.
- Tests that expect `tz` in slot 7, 7-slot arrays, or `'Fév.'` → 2 disagree with the code and are not modelled.

## Findings

| source | as written | input that shows it | evidently intended | confidence | as-written member | corrected member |
|---|---|---|---|---|---|---|
| lib/timeliness/helpers.rb:50 | `sign * (hh * 3600 + mm)`, minutes not scaled | `offset_in_seconds('-05:30')` gives -18030 | `sign * (hh * 3600 + mm * 60)`, which gives -19800 as the helper tests expect | high, not executed | Helpers.OffsetMinutesCounterexample | Helpers.OffsetInSeconds |
| lib/timeliness/parser.rb:303 | `month < 13 && (day < 29 \|\| …)` on a nil month raises NoMethodError, which `make_time` does not rescue | `parse('1 Foo 2000', :date)`: `d mmm yy` matches and `month_index('Foo')` is nil | an unknown month is an invalid date and `parse` gives nil | medium, not executed | TimeArrays.NilMonthCounterexample | TimeArrays.FastDateValid |
| lib/timeliness/parser.rb:176 | `send("#{type}_format_set")`, but no `*_format_set` reader is defined (the `attr_accessor` at line 138 lists only the format lists, `format_tokens` and `format_components`), so NoMethodError is rescued into nil | `_parse('2000-02-01', :date, :strict => true)` gives nil | strict mode reads exactly the requested type's set and gives `[2000, 2, 1, nil, nil, nil, nil, nil]` | medium, not executed | Parsing.Parser.StrictReaderCounterexample | Parsing.Parser.ParseValues |
