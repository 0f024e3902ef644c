# proto-launcher, modelled in Dafny

proto-launcher is a keyboard-driven application launcher for X11. It reads
the freedesktop.org desktop-entry files of the installed applications into a
catalog of weighted keywords. As the user types, it ranks the catalog against
the query, shows the best matches with the matched text in bold, and starts
the selected one. It remembers how often each application was started in a
small config file. The repository holds three versions of that engine:

- `launcher.cpp`: the native launcher (ranking, line editing, launch, config
  file).
- `x.cpp`: its earlier prototype. It has a different score formula, no
  launch counts and no result cap, and Return just exits.
- `src/programs.js` and `lib/programs.js`: the record builders of an Electron
  variant. They parse desktop entries, strip `Exec` field codes, build weighted
  keywords or a search string, and sort by launch count.

The model has twelve modules:

- `Options`: an optional value.
- `Text`: the C++ string behaviour the code relies on: ASCII `lowercase`,
  `std::string::find` with `npos` as `None`, and the words that
  `while (getline(ss, w, d))` reads.
- `Sorting`: a descending sort, standing for `std::sort` and
  `Array.prototype.sort`. It claims a permutation, non-increasing order,
  and stability: equal keys keep their input order.
- `Catalog`: the `Keyword` and `Application` records, and the per-file body
  of `getApplications` as a function of the file's lines. A method with the
  same loops is proved equal to it. A `readKeywords` flag tells launcher.cpp
  from x.cpp.
- `LineEditor`: the query/cursor edits of `onKeyPress` (the same in both C++
  files), and the launcher.cpp selection rules.
- `Ranking`: launcher.cpp's scorer and top-10 ranker, and the highlight
  split that `render` draws.
- `LaunchConfig`: the lines `writeConfig` writes and the file text they
  make (each line followed by `\n`), `readConfig` over the lines `getline`
  reads from that text (with `std::stoi`), and the argument vector `launch`
  passes to `execvp`.
- `Session`: class `Launcher`, holding launcher.cpp's globals. Its methods are
  `readConfig`, `writeConfig`, `search`, `launch`, `onKeyPress` and one turn
  of the main loop.
- `Prototype`: x.cpp's scorer, search, render cap and `onKeyPress`, as class
  `Launcher`.
- `DesktopEntry`: the desktop-file reading both JavaScript builders share:
  `trim`, `split(/\s+/)`, `key=value`, the first-truthy-value rule, and
  `replace(/\s%\w/g, '')`.
- `SrcPrograms` and `LibPrograms`: the two `getPrograms` functions.

All file, directory and preference reads are parameters:

- a desktop file is its path and its text (C++: its lines);
- the config file is its lines;
- the stored launch counts are a map from id to count.

## Model

| member | source | states |
|---|---|---|
| Text.LowerChar | launcher.cpp:76-78 | only `A`-`Z` change, each to the letter 32 code points higher |
| Text.Lower | launcher.cpp:80-86 | the result has the input's length and is the input lowercased character by character |
| Text.LowerNormalises | launcher.cpp:76-86 | lowercased text has no upper-case letter; lowercasing is idempotent and leaves text without capitals unchanged |
| Text.Find | launcher.cpp:110-111 | the first offset where the needle occurs; `None` (npos) exactly when it occurs nowhere |
| Text.FindZeroIffPrefix | launcher.cpp:275 | `line.find(p) == 0` holds exactly when `p` is a prefix of `line` |
| Text.FindEmpty | x.cpp:92 | the empty query is found at offset 0 of every word |
| Text.GetlineOfTerminated | launcher.cpp:210 | reading back with `getline` words that were written each followed by the delimiter gives the words again, when no word holds the delimiter |
| Text.GetlineSplitJoin | launcher.cpp:296-300 | the `getline` words hold no delimiter; empty text gives no word; joining the words back with the delimiter gives the text, less one trailing delimiter |
| Sorting.SortDesc | launcher.cpp:125 | the sorted list is a permutation of its input and is non-increasing by the key |
| Sorting.SortDescStable | src/programs.js:44 | the sort is stable: the elements with any one key come out in the order they went in |
| Sorting.Take | launcher.cpp:126-128 | cutting to `n` keeps the first `min(n, length)` elements as a prefix |
| Sorting.DistinctPermutation | launcher.cpp:125 | a permutation of a list without repeats has no repeats |
| Catalog.FirstMatch | launcher.cpp:109-120 | the index of the first keyword whose word contains the query; `None` exactly when no keyword contains it |
| Catalog.AppendTokens | launcher.cpp:296-300 | the `getline` loop pushes, after the existing keywords, every word of the text, lowercased and with the given weight |
| Catalog.FirstValueEmpty | launcher.cpp:275-283 | a field stays empty exactly when no line gives it a non-empty value |
| Catalog.FirstValueIsFirst | launcher.cpp:275-286 | the first line with the prefix and a non-empty value sets the field; later lines do not replace it |
| Catalog.PendingTokensBeforeCommand | launcher.cpp:284-293 | only `Keywords=` lines before the first non-empty `Exec=` line contribute keywords |
| Catalog.ScanLinesFields | launcher.cpp:274-294 | after the line loop, each field holds its first non-empty value, and the pushed keywords are the pending `Keywords=` words |
| Catalog.IndexEntryKeywords | launcher.cpp:270-307 | an entry's keywords are: the `Keywords=` words before the command (weight 1, launcher.cpp only), then the name words (weight 1000), then the words of `genericName + ' ' + comment` (weight 1) |
| Catalog.IndexEntryWordsLowercase | launcher.cpp:291-305 | every keyword of an entry is lowercase and weighs 1 or 1000 |
| Catalog.EntryOfScan | launcher.cpp:296-307 | the fields the loop ends with, followed by the name and description words, make the catalog entry |
| Catalog.ReadEntryLine | launcher.cpp:275-293 | one line-loop iteration updates the four fields and pushed keywords as the scan specification says |
| Catalog.ReadEntry | launcher.cpp:270-307 | the per-file loops build exactly the specified entry (with `readKeywords` false this is x.cpp:202-228) |
| LineEditor.CString | launcher.cpp:403-407 | what `+ text` appends from the zero-filled buffer is its prefix up to the first NUL |
| LineEditor.InsertText | launcher.cpp:403-407 | one typed byte is spliced in at the cursor, and the cursor moves past what was inserted; any other text length changes nothing |
| LineEditor.EditKey | launcher.cpp:370-407 | every key keeps `0 <= cursor <= |query|`; Left/Right/Home/End never change the query; Delete never moves the cursor; Escape, Return, Up and Down leave query and cursor alone |
| LineEditor.BoundaryKeysAreNoOps | launcher.cpp:370-401 | Left and BackSpace at 0, and Right and Delete at the end, change nothing |
| LineEditor.InsertThenBackspace | launcher.cpp:390-407 | typing one character and then BackSpace restores query and cursor exactly |
| LineEditor.InsertThenDelete | launcher.cpp:370-407 | typing one character, then Left, then Delete also restores query and cursor |
| LineEditor.InsertNulLeavesQueryBehindCursor | launcher.cpp:403-407 | as written, inserting a NUL byte at the end leaves the query unchanged but moves the cursor one past its end |
| LineEditor.NavigationWraps | launcher.cpp:356-368 | Down on the last result wraps to 0 and Up on the first wraps to the last; otherwise each moves by one and stays in range |
| LineEditor.NavigationOnEmptyList | launcher.cpp:356-368 | with no results, Up or Down followed by the main loop's reset leaves the selection at 0 |
| LineEditor.Reselect | launcher.cpp:470-472 | after the reset the selection is 0 on an empty list and a valid index otherwise; a valid selection is kept |
| Ranking.ScoreApp | launcher.cpp:106-120 | the keyword loop computes the specified score; a non-zero score means some keyword contains the query |
| Ranking.Positives | launcher.cpp:121-123 | the pushed results are every application with a positive score, with that score, each once, in catalog order |
| Ranking.ScoresSnoc | launcher.cpp:106-124 | one more application adds its result at the end exactly when its score is positive |
| Ranking.SortedPositives | launcher.cpp:121-125 | after sorting, the candidates are still exactly the positive scores, each application once |
| Ranking.TakeKeepsHighest | launcher.cpp:125-128 | a positive-scoring application missing after the cut to 10 means the list is full of entries scoring at least as much |
| Ranking.TopOfPositives | launcher.cpp:121-128 | sorting and cutting the candidates gives a correctly ranked list: at most 10 entries, positive scores, non-increasing, no repeats, none better left out |
| Ranking.RankIsTopTen | launcher.cpp:102-130 | the empty query gives no results; any other gives the ranked top 10 of the scores for the lowercased query, of length `min(10, candidates)` |
| Ranking.PrefixOutranksInterior | launcher.cpp:116 | a match at offset 0 beats a match inside the word at the same index and weight while counts stay below 9900 |
| Ranking.NameOutranksDescription | launcher.cpp:116 | a name word (weight 1000) beats a description word at the same index and kind of match while counts stay below 99900 |
| Ranking.EarlierOutranksLater | launcher.cpp:116 | an earlier keyword beats a later one of the same weight and kind of match while counts stay below 100 |
| Ranking.PrefixAppOutranksInterior | launcher.cpp:106-118 | of two applications whose first matching keyword has the same index and weight, the one matched at the start of the word scores higher (counts below 9900) |
| Ranking.NameAppOutranksDescription | launcher.cpp:106-118 | of two applications first matched at the same index and kind of match, the one matched on a name word scores higher than one matched on a description word (counts below 99900) |
| Ranking.EarlierAppOutranksLater | launcher.cpp:106-118 | of two applications first matched with the same weight and kind of match, the one matched at an earlier keyword scores higher (counts below 100) |
| Ranking.HighlightSplit | launcher.cpp:178-188 | plain text exactly when the lowercased query is not in the lowercased text; otherwise before, match and after rejoin to the text, the match has the query's length and equals it up to case, and begins at the first occurrence |
| Ranking.ShownIsText | launcher.cpp:191-201 | the pieces a row draws for a name or comment, side by side, are exactly that field's text |
| Ranking.FindPrefixAnyCase | launcher.cpp:178 | a text that begins with the query in any case ("Web Browser" for "web") is found at offset 0 |
| Ranking.HighlightOfPrefix | launcher.cpp:178-188 | such a text is drawn as nothing, its first `|query|` characters in bold with their own case, then the rest |
| LaunchConfig.Decimal | launcher.cpp:259 | a count is printed as decimal digits with no leading zero |
| LaunchConfig.DecimalValue | launcher.cpp:259 | the printed digits denote the count |
| LaunchConfig.StoiDecimal | launcher.cpp:227 | `stoi` reads back every count from 0 to `INT_MAX` that `writeConfig` prints |
| LaunchConfig.DefaultsAreNotWritten | launcher.cpp:240-261 | with default colours and no positive count, the file is just `[Style]`, a blank line and `[Application Launch Counts]` |
| LaunchConfig.NoCountLines | launcher.cpp:257-261 | applications with counts of 0 or less get no line |
| LaunchConfig.FirstWithId | launcher.cpp:225-230 | the index of the first application with that id, where the loop breaks; `None` when there is none |
| LaunchConfig.ReadLinesAppend | launcher.cpp:210-233 | reading `a` then `b` is reading `a + b`; the first failure ends the read |
| LaunchConfig.FindEquals | launcher.cpp:211-212 | in `key=value` with no `=` in the key, the first `=` is right after the key |
| LaunchConfig.ReadKeyValue | launcher.cpp:211-231 | a line with a non-empty key and no `=` in it applies that key and value |
| LaunchConfig.ReadPlainLine | launcher.cpp:211-212 | a line without `=` changes nothing |
| LaunchConfig.ReadStyleLine | launcher.cpp:214-223 | reading a written colour line sets that colour; an unwritten default line leaves the state alone |
| LaunchConfig.ReadStyleLines | launcher.cpp:240-255 | reading the `[Style]` lines back over default colours restores every colour |
| LaunchConfig.ReadCountLine | launcher.cpp:225-230 | a positive count line sets the count of the first application with that id and nothing else |
| LaunchConfig.ReadCountStep | launcher.cpp:257-261 | the line written for the `j`-th application restores its count |
| LaunchConfig.ReadCountLines | launcher.cpp:257-261 | reading the count lines back over a zero-count catalog restores every count |
| LaunchConfig.ConfigRoundTrip | launcher.cpp:205-263 | reading back with `getline` the text written, into the freshly loaded catalog with default colours, gives back every colour and every count, when ids are non-empty, pairwise distinct, hold no `=` and no line break and are not colour keys, counts are between 0 and `INT_MAX`, and no colour holds a line break |
| LaunchConfig.ReadWrittenLines | launcher.cpp:205-263 | under the same conditions on ids and counts, reading the written lines themselves restores every colour and count |
| LaunchConfig.ConfigLinesNewlineFree | launcher.cpp:237-263 | with no line break in an id or a colour, no written line holds one, so each stays one line of the file |
| LaunchConfig.NewlineInIdLosesCount | launcher.cpp:257-260 | an id with a line break (`a\nb`, count 3) is written as two lines, `a` and `b=3`; neither names the application, so its count reads back as 0 |
| LaunchConfig.ReadHeader | launcher.cpp:256 | the blank line and the second section header change nothing |
| LaunchConfig.LaunchIsRemembered | launcher.cpp:336-337 | after `count++`, the text written is read back with `getline` with the launched application's count one higher and every other count unchanged, under the conditions of `ConfigRoundTrip` |
| LaunchConfig.DropPlaceholders | launcher.cpp:326-331 | a word is kept exactly when it does not start with `%` (an empty word is kept); no kept argument starts with `%`, and there are no more arguments than words |
| LaunchConfig.DropAppend | launcher.cpp:326-331 | the words are filtered one by one, in order: filtering two lists one after the other is filtering each and joining the results |
| LaunchConfig.DropOne | launcher.cpp:327 | a single word is dropped exactly when it starts with `%` |
| LaunchConfig.ArgvOfPlainCommand | launcher.cpp:323-331 | a command without `%` is passed word for word; the arguments joined by spaces give the command back |
| LaunchConfig.ArgvDropsFieldCode | launcher.cpp:326-331 | a trailing field code is not passed on: a command followed by ` %` and a code without spaces (`firefox %u`) gives the arguments of the command alone |
| Session.Launcher.constructor | launcher.cpp:63-74 | empty query, cursor and selection at 0, no results, default colours, the built catalog |
| Session.Launcher.ReadConfig | launcher.cpp:205-235 | succeeds exactly when no count line makes `stoi` throw, and then holds the colours and counts the lines specify; query, cursor, selection and results are unchanged |
| Session.Launcher.WriteConfig | launcher.cpp:237-263 | the lines written are those specified for the current colours and catalog |
| Session.Launcher.Search | launcher.cpp:102-130 | the results become the ranking of the query over the catalog, every entry a valid application index; nothing else changes |
| Session.Launcher.Launch | launcher.cpp:319-340 | the child's argument vector is the command without placeholder words; the application's count is one higher; the file written reflects the new counts |
| Session.Launcher.LaunchSelected | launcher.cpp:352-354 | Return launches the selected result; with no result, or a count at `INT_MAX`, the behaviour is undefined |
| Session.Launcher.MoveSelection | launcher.cpp:356-368 | Up and Down set the selection as specified, wrapping with the unsigned comparison; nothing else changes |
| Session.Launcher.OnKeyPress | launcher.cpp:342-409 | Escape exits; Return launches the selection; every other key edits the query as specified and moves the selection, keeping results, catalog and colours |
| Session.Launcher.HandleEvent | launcher.cpp:466-473 | FocusOut and Escape exit; Return launches. After a key that keeps running, the query is edited and the selection navigated and then reset against the new results; Expose and FocusIn change nothing. A running launcher keeps its invariant |
| Session.Launcher.Refresh | launcher.cpp:469-472 | after search and reset, the results are the ranking, the selection is in range (or 0) and kept when still valid |
| Session.ReadConfigLine | launcher.cpp:211-231 | the loop body on one line applies it as specified |
| Session.StyleSection | launcher.cpp:240-255 | the `[Style]` lines written are the specified ones |
| Session.CountSection | launcher.cpp:257-261 | the count lines written are the specified ones |
| Session.SearchResults | launcher.cpp:103-129 | the loop yields the ranking: empty for an empty query, the ranked top 10 otherwise, every entry a valid index |
| Session.Arguments | launcher.cpp:323-331 | the argument loop builds the specified argument vector |
| Session.ReturnIsRemembered | launcher.cpp:336-337 | the text Return writes is read back with `getline` at the next start with the launched application's count one higher, when no id or colour holds a line break |
| Session.NoneStaysNone | launcher.cpp:227 | once `stoi` throws, reading the rest of the file cannot recover |
| Prototype.ProtoScoreApp | x.cpp:88-102 | the keyword loop computes `(100-i)*weight*(prefix ? 100 : 1)` for the first containing keyword, with no count term |
| Prototype.ProtoScoresSnoc | x.cpp:103-105 | one more application adds its result at the end exactly when its score is positive |
| Prototype.ProtoSearch | x.cpp:85-109 | the search loop yields the specified sorted, uncapped result list |
| Prototype.ProtoRankIsComplete | x.cpp:103-107 | the results are exactly the applications with a positive score, each once with its score, non-increasing |
| Prototype.EmptyQueryScore | x.cpp:91-98 | with the empty query the first keyword matches at offset 0 and scores `10000 * weight` |
| Prototype.EmptyQueryScoresEveryEntry | x.cpp:217-226 | a catalog entry scores 10000000 for the empty query when it has a name, 10000 otherwise |
| Prototype.EmptyQueryListsEverything | x.cpp:85-106 | before anything is typed, every entry with a positively weighted first keyword is listed |
| Prototype.Launcher.constructor | x.cpp:54-59 | empty query, cursor and selection at 0, the built catalog |
| Prototype.Launcher.Render | x.cpp:129-137 | the rows drawn are the first `min(10, |results|)` results of a fresh search |
| Prototype.Launcher.OnKeyPress | x.cpp:239-303 | Escape and Return exit and nothing else does; Up and Down change the selection by exactly -1 and +1 without wrapping; every key edits the query as specified and keeps the cursor in range; a running launcher then renders |
| DesktopEntry.TrimStartDropsSpace | src/programs.js:23 | `trimStart` removes exactly the leading white space |
| DesktopEntry.TrimEndDropsSpace | src/programs.js:23 | `trimEnd` removes exactly the trailing white space |
| DesktopEntry.TrimIsMiddle | src/programs.js:23 | `trim` gives a middle slice with only white space outside it and none at its ends |
| DesktopEntry.TrimIdempotent | src/programs.js:22-23 | text without white space at its ends is its own trim, so trimming twice is trimming once |
| DesktopEntry.SplitWsPieces | src/programs.js:35-37 | `split(/\s+/)` gives pieces that, interleaved with non-empty runs of white space, are the text again; no piece holds white space, so every run is maximal; only the first and last piece can be empty, and the last is empty exactly when the text ends in white space |
| DesktopEntry.SplitWsSingle | src/programs.js:35 | a word without white space is one piece |
| DesktopEntry.FieldsOfEntry | src/programs.js:23-24 | a trimmed `key=value` line splits into the key and the `=` pieces of the value |
| DesktopEntry.KeyValueRoundTrip | src/programs.js:24-26 | read with the corrected value rule, `key=value` gives back the key and the whole value |
| DesktopEntry.ValueStopsAtSecondEquals | src/programs.js:24-26 | as written, the value of `key=a=b` is `a` though it should be `a=b` |
| DesktopEntry.ValueRulesAgree | src/programs.js:24-26 | `kv[1]` is the whole value after the first `=` exactly when that value holds no further `=` |
| DesktopEntry.FirstPropIsFirst | src/programs.js:25-27 | a property is the value of the first entry with that key and a non-empty value, and "" when there is none |
| DesktopEntry.PropsOfSnoc | src/programs.js:22-28 | one more line updates, for each property not yet set, the property its key names, to that line's `kv[1]` when it is not empty |
| DesktopEntry.ReadProps | src/programs.js:22-28 | the `forEach` over the lines yields the specified five properties, each the `kv[1]` of the first line with that key whose `kv[1]` is not empty |
| DesktopEntry.StripNothing | src/programs.js:31 | a command without field codes is left as it is |
| DesktopEntry.StripFieldCode | src/programs.js:31 | a white-space, `%`, word-character match is removed and the scan resumes after it |
| SrcPrograms.Pairs | src/programs.js:35-37 | each word paired with the weight, in order |
| SrcPrograms.LoadedFromFiles | src/programs.js:16-41 | a program is kept exactly when some file yields it |
| SrcPrograms.LoadedProgram | src/programs.js:29-38 | a kept program has a non-empty `Exec`, the stripped command, the stored count or 0, at most 20 keywords, and the name words first with weight 1000 |
| SrcPrograms.LoadFile | src/programs.js:17-41 | the callback builds the specified program from the `kv[1]` values as written, or nothing without an `Exec` (so `Exec==foo`, whose `kv[1]` is empty, gives nothing) |
| SrcPrograms.GetPrograms | src/programs.js:13-45 | the result is a permutation of the kept programs, non-increasing by count; programs with equal counts stay in file order |
| LibPrograms.QuerySearchSplits | lib/programs.js:32 | when no field holds `:`, splitting the search string at `:` gives back the three lowercased fields |
| LibPrograms.ContainsAcross | lib/programs.js:32 | a needle without `:` occurs in `x:y` exactly when it occurs in `x` or in `y` |
| LibPrograms.QuerySearchContains | lib/programs.js:32 | a needle without `:` is in the search string exactly when it is in the lowercased name, comment or generic name |
| LibPrograms.SameProgramsAsSrc | lib/programs.js:17-36 | the two builders keep the same files, in the same order, with the same fields and counts |
| LibPrograms.LoadFile | lib/programs.js:17-36 | the callback builds the specified program from the `kv[1]` values as written, or nothing without an `Exec` |
| LibPrograms.GetPrograms | lib/programs.js:13-40 | the result is a permutation of the kept programs, non-increasing by count; programs with equal counts stay in file order |

## Left out

- X11 and Xft are not modelled: windows, fonts, colours (`defineColor`), `setProperty`, `renderText`, the cursor drawing and `cursorBlink`. That is library calls and clock timing. `render` is modelled only as its highlight split (launcher.cpp) and its row cap (x.cpp).
- Process and file calls are not modelled: `fork`, `chdir`, `execvp`, `exit`, `stat`, directory iteration, `ifstream`/`ofstream`, `readdirSync` and `readFileSync`. Their inputs and outputs are parameters and results. `Launch` returns the child's argument vector and the parent's file lines together.
- Session.Launcher.WriteConfig: returns the lines written, and Session.Launcher.ReadConfig takes the lines `getline` reads. The file text between them is `Terminated(lines, '\n')`, and the round-trip lemmas go through that text and `GetlineSplit`.
- Each program's directory list (`APP_DIRS`) is one flat list of files, in the order the directories are walked.
- Ranking.Score: the 32-bit `int` score is not wrapped; integers are unbounded here. In C++ the score overflows, which is undefined behaviour, whenever one of `(100 - i) * weight`, its product with 10000 or 100, or that product plus the count lies outside the `int` range. For example: a weight-1000 match at offset 0 at keyword index 315 or later (`(100 - i) * 1000 * 10000` is below `INT_MIN`), a weight-1000 interior match at index 21575 or later, a weight-1 match at offset 0 at index 214849 or later, or any positive score plus a count above `INT_MAX` minus that score. The model computes the exact value there; a negative one is dropped like any score that is not positive.
- Prototype.ProtoScore: the same holds in x.cpp, whose score has no count term: it overflows whenever `(100 - i) * weight` or its product with 100 or 1 lies outside the `int` range, for example for a weight-1000 prefix match at keyword index 21575 or later; the model computes the exact, negative value and drops it.
- Session.Launcher.Launch: requires a count below `INT_MAX`. `LaunchSelected` returns `Undefined` at `INT_MAX`, where `count++` overflows.
- Sorting.SortDesc: `std::sort` is not stable, so for the C++ results the model's sort is one fixed choice among the orders `std::sort` may give, and no C++ property depends on how equal scores are ordered. JavaScript's `Array.prototype.sort` is stable (ECMAScript 2019 and later), and so is the model's sort (`SortDescStable`), which both `GetPrograms` state.
- LineEditor.EditKey: applies the corrected insert (`InsertText`). On a key whose text is the one byte NUL, the source moves the cursor to `|query| + 1`; its next BackSpace or insert then calls `substr` past the end, which throws `std::out_of_range` and ends the program. The model keeps the cursor in range and keeps running (see Findings).
- Session.Launcher.OnKeyPress: edits the query with `LineEditor.EditKey`, so it too applies the corrected NUL insert instead of the cursor past the end and the later `std::out_of_range`.
- Session.Launcher.HandleEvent: a key press goes through `Session.Launcher.OnKeyPress`, so the same corrected NUL insert applies.
- Prototype.Launcher.OnKeyPress: x.cpp:295-299 has the same NUL insert, but there the key press itself ends the program. With the cursor at `|query| + 1`, the `render` that `onKeyPress` calls at its end (x.cpp:302) begins with `query.substr(cursor, …)` (x.cpp:130), which throws `std::out_of_range` at once. The model applies the corrected `InsertText` and keeps the prototype running with the cursor in range.
- Prototype.Launcher: x.cpp's event loop (x.cpp:356-360) has no member of its own. Expose calls `render` (Prototype.Launcher.Render), KeyPress calls `onKeyPress` (Prototype.Launcher.OnKeyPress), and FocusOut exits. The `XCheckMaskEvent` polling and `cursorBlink` are left out.
- JavaScript's `toLowerCase` is modelled as ASCII lowercasing, and `undefined` as "" (every use treats both as falsy).
- SrcPrograms.LaunchCount: a stored count is an integer. JSON values that are not numbers (`NaN`, strings) are not modelled.
- Reading `preferences` from its JSON file (lib/preferences.js) is not part of this model. The counts are a parameter.
- The `Icon` property is read and kept but plays no part in any property.
- Session.Launcher.HandleEvent: the event queue is one event per call. `XCheckMaskEvent` and the 10 ms sleep are left out.

## Findings

| source | as written | input that shows it | evidently intended | confidence | as-written member | corrected member |
|---|---|---|---|---|---|---|
| launcher.cpp:403-407 | a one-byte key always moves the cursor by one, even when that byte is NUL and `+ text` appends nothing | Ctrl+Space (`XLookupString` gives one byte, 0) with the cursor at the end: the query is unchanged, and the cursor is `|query| + 1`, so the next BackSpace calls `substr` past the end | the cursor moves past what was inserted, staying within the query | not executed | LineEditor.InsertNulLeavesQueryBehindCursor | LineEditor.InsertText |
| src/programs.js:24-26 | the value is `kv[1]`, the text between the first and the second `=` | `Exec=env A=1 app` gives the command `env A` | the value is all of the line after its first `=` | not executed | DesktopEntry.ValueStopsAtSecondEquals | DesktopEntry.KeyValueRoundTrip |

The same two defects are in x.cpp:295-299 and lib/programs.js:24-26. In
x.cpp the NUL key press throws at once, from the `render` it ends with. The
C++ launchers use the corrected `InsertText` (see the `OnKeyPress` lines under
"Left out"). The JavaScript builders read values as written (`kv[1]`, through
`ValueAsWritten`); `ValueOf` with `KeyValueRoundTrip` is the corrected rule,
and `ValueRulesAgree` says exactly when the two agree.
