# SimFire string tools and configuration parser, in Dafny

SimFire reads its settings from the command line and from INI files into
`CSimFireConfig`. The configuration content is a map: section name, then
item name, then a list of string values. The typed getters read values back
out as strings, booleans, signed integers and unsigned integers. Underneath
sits the text layer in `SimFireStringTools`:
- character classes and trimming;
- prefix and suffix tests;
- C-escape decoding (`Unescape`);
- the character-class number classifier `IsNumeric`;
- the quote-aware tokenizer `SplitLine`, with its index-only C-string `Trim`;
- `JoinStrings` and the case-insensitive `IEquals`.

This project models that layer and the configuration class, and proves
what they do. The files are:
- `char_tests.dfy`: the character predicates and C-string helpers of `SimFireStringTools.h`. C strings are `seq<char>` without NUL; a possibly-null pointer is an `Option`.
- `string_tools.dfy`: `Trim`, `StartsWith`/`EndsWith`, `Unescape`, `IsSeparator`, `IEquals` and `JoinStrings`. Each loop is a method proved against a specification function.
- `numeric.dfy`: `IsNumeric` and the kinds of number it reports.
- `line_splitter.dfy`: `SplitLine` and the C-string `Trim`. The latter's all-blank case is a finding, below.
- `config_store.dfy`: the content map and the update `InsertItem` performs.
- `ini_line.dfy`: the scan of one INI `key = values` line.
- `command_line.dfy`: the grouping of command-line tokens into keys and values.
- `config.dfy`: the `Config` class itself, whose methods mirror the source and are proved against the functions above.

`size_t` arithmetic is modelled modulo 2^64 where it can wrap (`SizeSub`, which `Unquoted` uses for `size() - 2`). `SubStr` clamps its count, as `substr` does.

The source has two conversions. `std::stoll` converts text to a signed integer. `std::stoull` converts text to an unsigned integer. Both are left uninterpreted: each getter takes the conversion as a parameter, and `None` stands for the exception it throws.

## Model

| member | source | states |
|---|---|---|
| CharTests.IsNumberChar | src/SimFireStringTools.h:30 | true exactly for the digits '0'..'9' |
| CharTests.IsStandardChar | src/SimFireStringTools.h:33-34 | true exactly for A-Z, a-z, '_' and '@' (the range starts at code 64, which is '@') |
| CharTests.IsNormalChar | src/SimFireStringTools.h:37 | true exactly for a digit or a standard character |
| CharTests.IsEmpty | src/SimFireStringTools.h:40 | true exactly for a null pointer or an empty string |
| CharTests.NullEmptyStr | src/SimFireStringTools.h:43 | a non-null string is returned as is; the result is "" exactly when the input is null or empty |
| CharTests.ToLower | src/SimFireStringTools.cpp:189-190 | tolower never returns an upper-case letter; letters stay letters, and only A-Z change |
| CharTests.CView | src/CSimFireConfig.cpp:248 | what `c_str()` shows a C function: a prefix of the string, ending at the first NUL if there is one, and the whole string otherwise |
| StringTools.LeadCount | src/SimFireStringTools.cpp:43 | the number of leading trim characters: all before it are trim characters, the one at it is not |
| StringTools.TrailStart | src/SimFireStringTools.cpp:44 | the start of the trailing run of trim characters: everything from it on is a trim character, the one before it is not |
| StringTools.Trimmed | src/SimFireStringTools.cpp:41-46 | the trimmed text is a contiguous part of the input with only trim characters before and after it; neither of its ends is a trim character; it is empty exactly when every character is a trim character |
| StringTools.TrimIdempotent | src/SimFireStringTools.cpp:41-46 | trimming twice gives the same text as trimming once |
| StringTools.Trim | src/SimFireStringTools.cpp:41-46 | the erase-from-front and erase-from-back steps leave exactly `Trimmed` |
| StringTools.StartsWith | src/SimFireStringTools.cpp:50-54 | true exactly when the needle is a prefix of the haystack |
| StringTools.EndsWith | src/SimFireStringTools.cpp:58-62 | true exactly when the needle is a suffix of the haystack |
| StringTools.SubStr | src/CSimFireConfig.cpp:391 | `substr(pos, count)`: a prefix of the text from `pos`, `count` characters long unless the text runs out first |
| StringTools.SizeSub | src/SimFireStringTools.cpp:34-36 | size_t subtraction: the plain difference when no wrap occurs, 2^64 minus the shortfall when the result would be negative |
| StringTools.EscapeAt | src/SimFireStringTools.cpp:75-91 | an escape is recognised exactly at a backslash followed by one of the eleven letters n ' " a b f r t v \\ ?; a trailing backslash is none |
| StringTools.UnescapeFromBounds | src/SimFireStringTools.cpp:66-100 | the output extends the buffer so far; the count of escapes grows by at most half the remaining input; with quotes and newlines kept, each escape shortens the text by exactly one |
| StringTools.UnescapeFromPlain | src/SimFireStringTools.cpp:73-95 | input without a backslash is copied to the buffer unchanged, and nothing is counted |
| StringTools.UnescapedLength | src/SimFireStringTools.cpp:66-100 | the escape count is at most half the input length; with nlq the result is shorter than the input by exactly that count |
| StringTools.UnescapedPlain | src/SimFireStringTools.cpp:66-100 | a text without backslashes comes back unchanged with count 0 |
| StringTools.UnescapeFromExtends | src/SimFireStringTools.cpp:73-95 | whatever is already in the buffer stays its prefix |
| StringTools.UnescapedKeepsFirst | src/SimFireStringTools.cpp:66-100 | a first character that is not a backslash is the result's first character |
| StringTools.UnescapeDoubledFrom | src/SimFireStringTools.cpp:88 | from any position, a text with every backslash doubled decodes to the original text, counting one escape per backslash |
| StringTools.UnescapeDoubledBackslashes | src/SimFireStringTools.cpp:88 | round trip: doubling every backslash and then unescaping gives back the text, with one escape per backslash |
| StringTools.Unescape | src/SimFireStringTools.cpp:66-100 | the loop leaves exactly the text and count of `Unescaped` |
| StringTools.IndexOf | src/SimFireStringTools.cpp:169-180 | -1 exactly when the character does not occur, else the index of its first occurrence |
| StringTools.IsSeparator | src/SimFireStringTools.cpp:169-180 | -1 for a null separator list or a character not in it, else the index of its first occurrence |
| StringTools.Lowered | src/SimFireStringTools.cpp:184-193 | every character passed through tolower: the same length, with no upper-case letter left |
| StringTools.LoweredIdempotent | src/SimFireStringTools.cpp:184-193 | lower-casing a second time changes nothing |
| StringTools.IEquals | src/SimFireStringTools.cpp:184-193 | true exactly when both strings lower-case to the same string, lengths included |
| StringTools.InterleavedSnoc | src/SimFireStringTools.cpp:308-313 | appending an element to an interleaving adds the glue and the element |
| StringTools.InterleavedLength | src/SimFireStringTools.cpp:308-313 | an interleaving of n elements is their total length plus n-1 glues |
| StringTools.JoinedEmpty | src/SimFireStringTools.cpp:303-318 | JoinStrings gives "" exactly when every element is empty |
| StringTools.JoinedNonEmptyElements | src/SimFireStringTools.cpp:303-318 | with no empty element, JoinStrings puts the glue between each pair of elements, so the result has length Σ\|eᵢ\| + (n-1)·\|glue\| |
| StringTools.JoinStrings | src/SimFireStringTools.cpp:303-318 | a null or empty glue joins with nothing; the loop leaves exactly `Joined` |
| NumericClass.IsNumeric | src/SimFireStringTools.cpp:104-165 | null is Nothing; the loop's verdict is `NumberClass`, which depends only on which characters occur |
| NumericClass.HexPrefixClass | src/SimFireStringTools.cpp:104-165 | after "0x"/"0X" the kind is Hexa exactly when every further character is a hex digit, and Nothing otherwise |
| NumericClass.ForeignCharIsNothing | src/SimFireStringTools.cpp:104-165 | without a hex prefix, one character outside digits and "+-.eEi" makes the string Nothing |
| NumericClass.DigitsAreIndex | src/SimFireStringTools.cpp:104-165 | digits only, the empty string included, are an index |
| NumericClass.SignedDigitsAreInteger | src/SimFireStringTools.cpp:104-165 | digits with a sign anywhere among them are an integer |
| NumericClass.SignPositionIrrelevant | src/SimFireStringTools.h:47-50 | "-10", "1-0" and "10-" are all Integer, as the header documents |
| NumericClass.OrderIndependent | src/SimFireStringTools.h:47-50 | away from the hex prefix, two strings with the same characters (as a multiset) get the same kind |
| LineSplitter.TrimSpanAsWritten | src/SimFireStringTools.cpp:26-37 | the C-string Trim as written: `first` stays inside the item, and the span is either proper or wraps to length SIZE_MAX |
| LineSplitter.TrimSpan | src/SimFireStringTools.cpp:26-37 | the corrected Trim: the span selects exactly `Trimmed` of the item |
| LineSplitter.TrimSpanAsWrittenAgrees | src/SimFireStringTools.cpp:26-37 | on any item with a non-trim character the written and the corrected Trim agree |
| LineSplitter.AllBlankItemWraps | src/SimFireStringTools.cpp:36 | an all-blank item (of two or more characters, or one after a trim character) gets `last = first - 1`, a span of length SIZE_MAX |
| LineSplitter.TwoBlanksCounterexample | src/SimFireStringTools.cpp:36 | the item "  " gives (1, 0) as written and the empty span (1, 1) corrected |
| LineSplitter.ScanStep | src/SimFireStringTools.cpp:223-279 | one character of the scan keeps the scan's variables consistent (item start inside the line, quote index valid) |
| LineSplitter.ItemText | src/SimFireStringTools.cpp:241-249 | an item as stored is no longer than its span, never empty untrimmed, and when trimmed neither starts nor ends with a trim character |
| LineSplitter.NextQuote | src/SimFireStringTools.cpp:265-271 | outside quotes a glue opens a quoted part; inside, only the same glue closes it and any other character keeps it open |
| LineSplitter.SplitLine | src/SimFireStringTools.cpp:197-299 | the loop leaves exactly `Split`: nothing for a null line, the whole line for null or empty separators, nothing for an empty line, else the items of the scan |
| LineSplitter.SplitDegenerate | src/SimFireStringTools.cpp:206-219 | a null line gives no items, missing separators give the line itself, an empty line gives no items |
| LineSplitter.RunEnd | src/SimFireStringTools.cpp:227-279 | the end of the run of non-separators from an index |
| LineSplitter.RunsFrom | src/SimFireStringTools.cpp:227-279 | every run is non-empty and holds no separator |
| LineSplitter.PlainSeparatorStep | src/SimFireStringTools.cpp:233-254 | without glues, a separator outside an item is skipped, and one inside an item stores it |
| LineSplitter.PlainOrdinaryStep | src/SimFireStringTools.cpp:262-282 | without glues, an ordinary character starts an item or continues it |
| LineSplitter.SplitFromIgnoresBeg | src/SimFireStringTools.cpp:271-277 | outside an item the recorded item start does not matter |
| LineSplitter.RunsOutsideItem | src/SimFireStringTools.cpp:227-296 | without glues, blanks or trimming, scanning from outside an item appends the maximal runs of non-separators |
| LineSplitter.RunsInsideItem | src/SimFireStringTools.cpp:227-296 | the same from inside an item: the current item extends to the end of its run |
| LineSplitter.RunsItemAtSeparator | src/SimFireStringTools.cpp:233-254 | a separator closes the current item as one run |
| LineSplitter.SplitIsRuns | src/SimFireStringTools.cpp:197-299 | reference: without glues, blanks or trimming, SplitLine gives exactly the maximal runs of non-separator characters |
| LineSplitter.ItemTextStored | src/SimFireStringTools.cpp:238-245 | an item as stored is non-empty unless blanks are kept or items are trimmed, and trimming a trimmed item again changes nothing |
| LineSplitter.ScanStepStored | src/SimFireStringTools.cpp:223-279 | one step of the scan only adds items of that shape |
| LineSplitter.ItemsStoredFrom | src/SimFireStringTools.cpp:223-296 | the whole scan only adds items of that shape |
| LineSplitter.SplitItems | src/SimFireStringTools.cpp:197-299 | without kept blanks or trimming no item is empty; trimmed items start and end with a non-blank character |
| LineSplitter.EscapedQuoteFirstItem | src/SimFireStringTools.cpp:231-232 | on `"a\",b"` the escape skip passes only the backslash, so the escaped quote closes the quoted part and the comma splits |
| LineSplitter.EscapedQuoteSecondItem | src/SimFireStringTools.cpp:283-296 | the rest of that line is stored as the last item |
| LineSplitter.EscapedQuoteCloses | src/SimFireStringTools.cpp:265-271 | SplitLine splits `"a\",b"` on ',' with glue '"' into `"a\"` and `b"`: the quote after the skipped backslash toggles the glue off |
| ConfigStore.TrimAll | src/CSimFireConfig.cpp:416-417 | one value per value given, none of which starts or ends with a trim character |
| ConfigStore.Inserted | src/CSimFireConfig.cpp:405-420 | the item reads back its trimmed values, every other section/item reads as before, and the section exists afterwards |
| ConfigStore.InsertedIdempotent | src/CSimFireConfig.cpp:405-420 | inserting the same entry twice is inserting it once |
| ConfigStore.InsertedOverwrites | src/CSimFireConfig.cpp:413-415 | a later insertion of an item replaces the earlier values entirely |
| ConfigStore.Quoted | src/CSimFireConfig.cpp:387-388 | the text is non-empty, starts with '"' or '\'', and ends with that same character |
| ConfigStore.Unquoted | src/CSimFireConfig.cpp:391 | `substr(1, size - 2)`: all but the first and last character, and "" for a single character (the count wraps and is clamped) |
| IniLine.IniStep | src/CSimFireConfig.cpp:343-380 | one character of the INI scan keeps its variables consistent (value start not past the index, values empty while the key is read) |
| IniLine.IniScan | src/CSimFireConfig.cpp:343-380 | when the scan does not meet a NUL, it stops at or before the end of the line, with the current value starting no later |
| IniLine.KeyName | src/CSimFireConfig.cpp:386-392 | an unquoted key is the trimmed raw key |
| IniLine.IniOutcomeOf | src/CSimFireConfig.cpp:383-398 | an entry is stored only under a non-empty key |
| IniLine.ScanOutcome | src/CSimFireConfig.cpp:382-398 | after a scan, a line whose key ends up empty stores nothing, and otherwise stores that key with the values cut |
| IniLine.NextDelim | src/CSimFireConfig.cpp:375-379 | the next ',' or '\|' from an index, or the end |
| IniLine.PiecesBetween | src/CSimFireConfig.cpp:375-384 | reference cut: one more piece than delimiters, none of the pieces holds a delimiter |
| IniLine.OpenQuote | src/CSimFireConfig.cpp:348-362 | the quote open before an index, read from the line: none, '"' or '\'', and none at the start |
| IniLine.QuoteTracked | src/CSimFireConfig.cpp:348-362 | the scan's quote variable always equals the quote the line has open at that index |
| IniLine.QuotedRegion | src/CSimFireConfig.cpp:348-356 | inside an open quote every character up to the first copy of it not preceded by a backslash is inert ('=', ',', '\|', '#' and ';' included), and that copy closes the quote |
| IniLine.EscapedQuoteStaysOpen | src/CSimFireConfig.cpp:348-353 | a quote character preceded by a backslash leaves the quote open |
| IniLine.QuotedSpan | src/CSimFireConfig.cpp:348-362 | a whole quoted span, opening quote to unescaped closing quote, leaves every variable of the scan as it was |
| IniLine.NulFreeScans | src/CSimFireConfig.cpp:345-346 | the scan only fails at a NUL |
| IniLine.NulFreeAccepted | src/CSimFireConfig.cpp:345-346 | a line without NUL is never rejected |
| IniLine.NulScanRejects | src/CSimFireConfig.cpp:345-365 | a NUL ahead, with no '#' or ';' outside quotes before it, makes the scan fail |
| IniLine.NulRejected | src/CSimFireConfig.cpp:345-365 | a NUL before the first '#' or ';' outside quotes rejects the line (returns false), whatever follows it |
| IniLine.RemarkScanAccepts | src/CSimFireConfig.cpp:343-365 | when every NUL comes after a '#' or ';' outside quotes, the scan stops there and succeeds |
| IniLine.RejectedIff | src/CSimFireConfig.cpp:343-365 | ParseINIKeyValuePair returns false exactly when a NUL comes before every '#' and ';' outside quotes |
| IniLine.QuotedRemarkThenNul | src/CSimFireConfig.cpp:346-365 | `k="#"` followed by a NUL is rejected: the quoted '#' does not end the scan |
| IniLine.NoAssignmentScan | src/CSimFireConfig.cpp:366-383 | without '=' the key is still being read at the end of the scan |
| IniLine.NoAssignment | src/CSimFireConfig.cpp:383 | a line without '=' stores the whole line, comment included, as key with no values |
| IniLine.KeyPhase | src/CSimFireConfig.cpp:366-372 | before the first '=', plain characters leave the variables alone and the '=' ends the key |
| IniLine.ValuesSeparatorStep | src/CSimFireConfig.cpp:375-379 | a ',' or '\|' after the '=' closes the current value |
| IniLine.ValuesPhase | src/CSimFireConfig.cpp:363-384 | after the '=', plain characters up to the comment are cut into values at every ',' and '\|' |
| IniLine.SimpleLine | src/CSimFireConfig.cpp:332-401 | a line with no quote or NUL before its comment stores the text before the first '=' as key and the pieces between it and the comment, cut at ',' and '\|', as values; nothing after the comment counts |
| IniLine.QuotedKeyScan | src/CSimFireConfig.cpp:349-360 | in `"a=b" = c` the quotes make the first '=' inert |
| IniLine.QuotedKeyName | src/CSimFireConfig.cpp:386-392 | the raw key `"a=b" ` is trimmed and loses its quotes |
| IniLine.QuotedKeyValue | src/CSimFireConfig.cpp:384 | the value cut from that line is " c" |
| IniLine.QuotedKeyKeepsAssignment | src/CSimFireConfig.cpp:332-401 | `"a=b" = c` stores key `a=b` with value ` c` |
| CommandLine.ArgTokens | src/CSimFireConfig.cpp:85-93 | one token per item SplitLine cuts from the argument at ',', '\|', ';'; unescaping leaves each token at least half as long as its item and no longer |
| CommandLine.KeyOf | src/CSimFireConfig.cpp:114-117 | the token is "--" followed by the key, or "-" followed by the key when it does not start with "--" |
| CommandLine.ValueOf | src/CSimFireConfig.cpp:126-128 | a token not quoted as a whole is kept; a quoted one loses its first and last character, and a lone quote becomes "" |
| CommandLine.StoredVals | src/CSimFireConfig.cpp:101-110 | a key is always stored with at least one value: "true" when none was given |
| CommandLine.CmdStep | src/CSimFireConfig.cpp:96-133 | one token fails exactly when it is a key while an empty-named key is pending; a value token leaves the content alone |
| CommandLine.CmdStepGlobalOnly | src/CSimFireConfig.cpp:96-133 | one token changes at most the global section "" |
| CommandLine.WithValue | src/CSimFireConfig.cpp:126-131 | a value token keeps the pending key; the values stay as they were exactly when its unquoted text is empty, and otherwise gain that text at the end |
| CommandLine.RunTokensGlobalOnly | src/CSimFireConfig.cpp:90-135 | reading tokens one after another changes at most the global section "" |
| CommandLine.RunArgsGlobalOnly | src/CSimFireConfig.cpp:82-137 | reading the arguments one after another changes at most the global section "" |
| CommandLine.Finish | src/CSimFireConfig.cpp:139-152 | the result is true exactly when no step failed; a failure leaves the content as it was; only the global section changes |
| CommandLine.CommandLineResult | src/CSimFireConfig.cpp:67-169 | ParseCommandLine writes only to the global section "": every other section reads as before |
| CommandLine.RunTokensAppend | src/CSimFireConfig.cpp:80-135 | reading two token lists in a row is reading their concatenation |
| CommandLine.RunArgsFlat | src/CSimFireConfig.cpp:80-135 | reading the arguments one by one is reading all their tokens as one list |
| CommandLine.CommandLineIsTokens | src/CSimFireConfig.cpp:67-169 | the result depends only on the flat list of tokens |
| CommandLine.EmptyKeyFollowedCons | src/CSimFireConfig.cpp:97-110 | an empty key followed by a key occurs in a list exactly when it occurs in its tail or at its head |
| CommandLine.HasKeyTokenCons | src/CSimFireConfig.cpp:95-97 | a list has a key token exactly when its head or its tail does |
| CommandLine.RunTokensFails | src/CSimFireConfig.cpp:97-110 | reading fails exactly when an empty-named key (the pending one included) is followed by another key |
| CommandLine.CommandLineFails | src/CSimFireConfig.cpp:67-169 | ParseCommandLine returns false exactly when "-" or "--" alone is followed by another key; an empty last key is silently dropped |
| CommandLine.Kept | src/CSimFireConfig.cpp:126-131 | the values kept are never empty |
| CommandLine.KeyFreeTail | src/CSimFireConfig.cpp:96-98 | a list without key tokens starts with a value token and its tail has none either |
| CommandLine.ValueTokenRun | src/CSimFireConfig.cpp:124-131 | a value token leaves the content alone and passes its value to the pending key |
| CommandLine.ValueTokenKept | src/CSimFireConfig.cpp:126-131 | the values kept after a token are exactly those kept with it |
| CommandLine.ValueTokenStep | src/CSimFireConfig.cpp:126-131 | a value token adds its own kept value and nothing else |
| CommandLine.ValueTokens | src/CSimFireConfig.cpp:126-131 | value tokens only add their unquoted, non-empty values to the pending key |
| CommandLine.NoKeyNoChange | src/CSimFireConfig.cpp:138-153 | without any key token the parse succeeds and stores nothing |
| CommandLine.LeadingValuesDropped | src/CSimFireConfig.cpp:97-121 | tokens before the first key (argv[0] among them) are discarded |
| CommandLine.SingleOption | src/CSimFireConfig.cpp:67-169 | one key and its values store the kept values, or "true" when none are left, in the global section; an empty key stores nothing |
| CommandLine.TwoOptions | src/CSimFireConfig.cpp:97-121 | a named key is stored, with its values, before the next key is read |
| SimFireConfig.ValueStr | src/CSimFireConfig.cpp:219-234 | the default for a missing section or item; otherwise "" exactly when every value is empty |
| SimFireConfig.ValueBool | src/CSimFireConfig.cpp:238-257 | fails only when stoll throws; a result other than the default needs a non-empty value |
| SimFireConfig.ValueInteger | src/CSimFireConfig.cpp:287-305 | any result other than the default is stoll of the non-empty joined value |
| SimFireConfig.ValueUnsigned | src/CSimFireConfig.cpp:310-328 | any result other than the default is stoull of the non-empty joined value |
| SimFireConfig.MissingGivesDefault | src/CSimFireConfig.cpp:219-328 | a missing section or item reads as the default in every getter |
| SimFireConfig.SingleValueStr | src/CSimFireConfig.cpp:219-234 | a single value reads back as itself |
| SimFireConfig.JoinedSingle | src/SimFireStringTools.cpp:303-318 | joining one element gives that element |
| SimFireConfig.InsertThenRead | src/CSimFireConfig.cpp:219-234 | a value inserted reads back trimmed; every other item reads as before |
| SimFireConfig.JoinedHead | src/SimFireStringTools.cpp:303-318 | two or more values with a non-empty first one join to a text starting with that value and the glue |
| SimFireConfig.CommaIsNoNumber | src/SimFireStringTools.cpp:104-165 | a text with a comma is no number and not "true" |
| SimFireConfig.MultiValuedIsNoNumber | src/CSimFireConfig.cpp:238-328 | an item of two or more values whose first value is non-empty and NUL-free never converts: the integer getters give the default and GetValueBool gives false (with an empty first value the glue is dropped, so `k=,5` reads as 5) |
| SimFireConfig.DigitsAreConverted | src/CSimFireConfig.cpp:287-328 | a single all-digit value goes to stoll / stoull |
| SimFireConfig.WordsAreBooleans | src/CSimFireConfig.cpp:238-257 | a value starting with a non-numeric character is true exactly when it lower-cases to "true", and the integer getters give the default |
| SimFireConfig.Config.constructor | src/CSimFireConfig.cpp:24-35 | the content starts empty |
| SimFireConfig.Config.InsertItem | src/CSimFireConfig.cpp:405-420 | false and no change for an empty item name; else the content becomes `Inserted` (values trimmed in place by the loop) |
| SimFireConfig.Config.GetValueStr | src/CSimFireConfig.cpp:219-234 | returns `ValueStr` of the content |
| SimFireConfig.Config.GetValueBool | src/CSimFireConfig.cpp:238-257 | returns `ValueBool`: the default for an empty value, stoll's verdict for index/integer/hex numbers, else IEquals with "true" |
| SimFireConfig.Config.GetValueInteger | src/CSimFireConfig.cpp:287-305 | returns `ValueInteger`: stoll for index/integer/hex numbers, the default otherwise |
| SimFireConfig.Config.GetValueUnsigned | src/CSimFireConfig.cpp:310-328 | returns `ValueUnsigned`: stoull for index/integer/hex numbers, the default otherwise |
| SimFireConfig.Config.ParseINIKeyValuePair | src/CSimFireConfig.cpp:332-401 | false exactly for a line the scan rejects, that is one with a NUL before every '#' and ';' outside quotes; otherwise a non-empty key is inserted in the given section with the values cut; nothing else changes |
| SimFireConfig.Config.ParseCommandLine | src/CSimFireConfig.cpp:67-169 | result and content are those of `CommandLineResult` over all arguments |

## Left out

- The physics, the simulation core and its threads, the CSV exporter, the settings, the single-run parameters and the program entry points are not part of this model. Neither are `Preprint` and `FormatStr`.
- `ParseINIFile`: it classifies lines with `std::regex`, which is not modelled. Only the key/value line it hands to `ParseINIKeyValuePair` is.
- `GetValueDouble` is not modelled: it needs `std::stod` and floating point.
- `std::stoll` and `std::stoull` are parameters. Their parsing, base detection, 64-bit range and the exceptions they throw are not modelled.
- The exceptions `ParseCommandLine` catches, and its `exit(-1)`, are not modelled. With the corrected `Trim` used by `SplitLine`, no `length_error` arises. Allocation failure is not modelled.
- `StringTools.Unescape`: only `externalBuffer == nullptr` is modelled, the case of every caller (src/CSimFireConfig.cpp:93 and :390). With a non-empty external buffer the source appends the decoded text to it and swaps, so `data` ends up as the old buffer followed by the decoded text; the method does not expose that case, although `UnescapeFrom`'s buffer parameter and `UnescapeFromExtends` describe the appending.
- `LineSplitter.TrimSpanAsWritten`: the `(unsigned)` 32-bit cast of `first` and `last` is not modelled. It only matters for items longer than 4 GiB.
- Characters are Dafny `char`s, assumed to have codes 0-255 as C++ `char`. `tolower` is that of the C locale.
- `NumericClass.IsNumeric`: the `Whitespace` kind exists in the enumeration but is never produced, so no contract mentions it.
- `SimFireConfig.Config.ParseINIKeyValuePair`: the value start is 0 rather than `SIZE_MAX` before the '='. It is never read before the '=' sets it.
- `SimFireConfig.Config.ParseCommandLine`: `argc`/`argv` become a sequence of C strings; null entries are not modelled.

## Findings

| source | as written | input that shows it | evidently intended | confidence | as-written member | corrected member |
|---|---|---|---|---|---|---|
| src/SimFireStringTools.cpp:36 | For an item made only of trim characters, `last = first - 1` runs whenever the character it examines is a trim character. That is the case for an item of two or more characters, or for a one-character item preceded by a trim character. For a one-character item at the very start of the line, Trim's second loop reads `strin[-1]`, before the line (line 34): an out-of-bounds read, which the argument `" "` reaches through src/CSimFireConfig.cpp:85. `TrimSpanAsWritten` takes the character read there as its parameter `before`. `SplitLine` then computes `len = last - first`, which wraps to SIZE_MAX, and `std::string(p, len)` throws `length_error`. Called from `ParseCommandLine`, that ends the program through `exit(-1)`. | `SplitLine` of `"a,  "` on `","` with trimming on: the second item is `"  "`, so Trim returns first = 1, last = 0 | an empty span (first == last), so the blank item is stored as "" | not executed | LineSplitter.TrimSpanAsWritten (with LineSplitter.AllBlankItemWraps and LineSplitter.TwoBlanksCounterexample) | LineSplitter.TrimSpan (used by SplitLine; LineSplitter.TrimSpanAsWrittenAgrees shows the two agree on every item with a non-blank character) |
