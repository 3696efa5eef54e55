# VimFastFind server core in Dafny

VimFastFind is a file finder for Vim. A server process keeps an index of the files below
one or more scan directories and answers two kinds of query over a line protocol:

- `find match <text>`: a fuzzy path search. The query must be a subsequence of the
  lower-cased path. Adjacent matches and a match right after a separator score higher.
- `grep match <text>`: an ordinal substring search over the file contents. For a text of
  two or more characters without a newline it reports one `path(offset+1):line` record per
  line that contains the text (`Scoring.GrepComplete`). A one-character text can miss a
  one-character last line, because the scan stops after a hit when fewer than two
  characters of the contents remain after that hit's line. An empty text throws only on a
  stored file that is empty or has an empty line the scan reaches (`Scoring.EmptyNeedleScan`;
  see `Index.PathIndex.Match` under "## Left out").

Each directory is described by a config file of `include`/`exclude` glob rules. The server
caches one matcher per distinct directory config and shares it, with a reference count,
among all clients that hold that config.

This project models that core and proves properties of it:

| file | module | models |
|---|---|---|
| `results.dfy` | `Results` | `Option` and `Result` |
| `text.dfy` | `Text` | the string operations the core relies on: ordinal `IndexOf`, `Split` on space and tab, the comment-stripping regular expression, ASCII lower-casing, line bounds |
| `order.dfy` | `Order` | the ordinal string order and `List.Sort` (an insertion sort, proved sorted and a permutation); subsequences |
| `config.dfy` | `Config` | `MatchRule` (constructor, `Match`, `ToString`, `Equals`, `GetHashCode`), `DirConfig` (`Equals`, `GetHashCode`) and the line parsing of `ConfigParser.LoadConfig` |
| `topn.dfy` | `Ranking` | the bounded best-N list `TopN<string>` |
| `scoring.dfy` | `Scoring` | `PathMatcher.DoMatch` (right-to-left greedy scorer) and `GrepMatcher.DoMatch` (line records) |
| `index.dfy` | `Index` | `AbstractMatcher` with the hooks of both `PathMatcher` and `GrepMatcher`, as one class `PathIndex` owning the shared path list and the contents map: `IsFileOk`, `TrimPath`, `Go`, `ev_SubdirChanged`, `ev_FileChanged`, the rename and removal hooks, `Match` |
| `matcher.dfy` | `Matchers` | `Matcher`: its reference count, `Dispose`, `_MakeFullPath`, and the two match entry points |
| `refcount.dfy` | `Refcounts` | the invariant that every cached matcher is counted once per client holding it |
| `session.dfy` | `Session` | the process-wide matcher cache and a client's held matchers: `_UpdateConfig` and the release in `ev_client`'s `finally` |
| `routing.dfy` | `Routing` | the command routing of `ev_client`, the reply format, and the Vim plugin's reader of replies |
| `server.dfy` | `Server` | one client session: merging the matchers' answers, one command, and the read loop |

The operations that change state in place are imperative Dafny. `PathIndex`, `Matcher`,
`Cache` and `Client` are classes whose methods update their fields. The loops of the two
`DoMatch` bodies, of `ev_SubdirChanged`, of the `DirConfig` equality, of `LoadConfig` and
of `Match` are `while` loops, and the `DirConfig` hash is a `for` loop. Each is proved against a function that
specifies it. Rule matching, the scores, the routing and the reply format are functions,
and lemmas state what they promise.

The file system is an input:
- the initial recursive scan is a list of entries;
- a directory listing is a list of paths;
- `Directory.Exists` and `File.Exists` are booleans;
- the config file is a list of lines, or a function from path to lines.

Where a hook of the source runs side effects, the model returns them as a list of events
or of matchers to initialise.

Two consequences of the code are worth knowing:
- Rules are first-match-wins. `[include *, exclude *.o]` therefore includes `x.o`,
  because the catch-all include is tried first (`Index.IncludeAllThenExclude`).
- A config line whose first word is neither `include` nor `exclude` throws. The
  exception is not caught before `ev_client`, so it ends the session and releases the
  session's matchers (`Server.Handle`, `Routing.Dispatch`).

A search can throw in two places, with different effects. When the query cannot be cut
from the line, `Substring` throws on the client's thread and ends that session. When a
`DoMatch` throws, it does so on a pool thread of `Match`, where nothing catches it, and
the whole server process ends. The model keeps the two apart: `Server.Search` reports the
second as a crash.

## Model

| member | source | states |
|---|---|---|
| Text.StartsWith | config.cs:95 | ordinal `String.StartsWith`: the string's first characters are the prefix; `Config.Matches` and `Index.VanishedMembers` rely on it |
| Text.EndsWith | config.cs:96 | ordinal `String.EndsWith`: the string's last characters are the suffix; `Config.Matches` and `Text.Combine` rely on it |
| Text.IndexOf | matcher.cs:426 | the result is the first position at or after `from` where the needle occurs, or -1 when there is none |
| Text.IndexOfFindsContains | server.cs:98 | `IndexOf(s, p, 0)` is not -1 exactly when `p` occurs in `s` |
| Text.Lower | server.cs:116 | lower-casing keeps the length and maps every character on its own (ASCII only) |
| Text.Slashed | matcher.cs:304 | every `\` becomes `/`, and every other character and the length are kept |
| Text.SkipSeps | config.cs:21 | what `Split(' ', '\t')` skips before a word: a suffix whose dropped prefix is all separators and which starts with a non-separator |
| Text.WordLen | config.cs:21 | a word runs up to the first separator or the end |
| Text.Tokens | config.cs:21 | `Split` with `RemoveEmptyEntries` yields only non-empty words without spaces or tabs |
| Text.TokensOfWordThen | config.cs:21 | a word, one separator, then text splits into that word followed by the words of the text |
| Text.TokensSkipSep | config.cs:21 | a leading separator produces no word |
| Text.TokensOfWord | config.cs:21 | a single word splits into itself |
| Text.TokensNonEmpty | config.cs:19-21 | a line holding a non-separator character has at least one word, so `s[0]` exists |
| Text.SkipWhite | config.cs:18 | the `^\s*` part of the comment pattern: a suffix starting with a non-blank, after only blanks |
| Text.DropTrailingWhite | config.cs:19 | a prefix ending in a non-blank, followed only by blanks |
| Text.IsWhite | config.cs:18 | the characters `\s`, `String.IsNullOrWhiteSpace` and `Trim` treat as white space: tab to carriage return, space, U+0085, U+00A0 and the Unicode space, line and paragraph separators |
| Text.Trim | matcher.cs:105 | `Trim` gives the empty string exactly for an all-blank string, and otherwise a string that neither starts nor ends with white space |
| Text.StripComment | config.cs:18 | a line whose first non-blank character is `#` becomes empty; any other line is kept |
| Text.StripCommentKeeps | server.cs:86 | a line starting with a non-blank, non-`#` character is untouched |
| Text.IsBlank | config.cs:19 | `String.IsNullOrWhiteSpace`: every character is white space; `Text.Trim` and `Text.SkippedLines` state what it decides |
| Text.SkippedLines | config.cs:18-19 | a line is skipped exactly when it is blank or its first non-blank character is `#` |
| Text.LineEnd | matcher.cs:431 | the first newline at or after `k`, or the end of the text |
| Text.LineStart | matcher.cs:434-435 | the start of the line holding `k`: just after the last newline before it, or 0 |
| Text.NatToString | matcher.cs:437 | a non-empty string of decimal digits |
| Text.LastSlash | config.cs:30 | the position of the last `/`, or -1 when there is none |
| Text.DirName | config.cs:30 | a path without `/` has an empty directory name |
| Text.Combine | matcher.cs:46 | `Path.Combine` ends with its second argument, starts with the first unless the second is rooted, and gives the first unchanged when the second is empty |
| Order.LessEq | matcher.cs:276-279 | the ordinal comparison `List.Sort` uses: a prefix comes first, otherwise the first differing character decides; `Order.LessEqTotal`, `Order.LessEqTransitive` and `Order.LessEqAntisymmetric` state that it is a total order |
| Order.LessEqTotal | matcher.cs:276 | any two strings are comparable in the ordinal order `List.Sort` uses |
| Order.LessEqTransitive | matcher.cs:276 | the ordinal order is transitive |
| Order.LessEqAntisymmetric | matcher.cs:276 | strings below each other are equal |
| Order.Insert | matcher.cs:276 | inserting into a sorted list gives a sorted list with the same elements plus the new one |
| Order.Sort | matcher.cs:276-279 | `List.Sort` yields a sorted permutation of its input |
| Order.SubsequenceExtend | matcher.cs:148 | appending keeps a subsequence a subsequence |
| Order.SubsequenceKeepsSorted | matcher.cs:148 | a subsequence of a sorted list is sorted, so removals keep the path list sorted |
| Config.Wrap32 | config.cs:118-125 | the 32-bit wrap-around of `int` arithmetic differs from the exact value by a multiple of 2^32 |
| Config.NewRule | config.cs:76-92 | Include is kept; a leading `*` sets Ends; a trailing `*` sets Starts; Value plus the stars it lost prints back as the pattern (`*` alone gives Value "" with both flags, printed `**`) |
| Config.Matches | config.cs:94-99 | with both stars the test, an `IndexOf` search, holds exactly when Value occurs in the name; with only Starts it is a prefix test, with only Ends a suffix test, with neither equality |
| Config.StarMatchesEverything | config.cs:82-97 | the rule made from `*` matches every string |
| Config.RuleEquals | config.cs:109-116 | two rules are `Equals` exactly when Include, Starts, Ends and Value all agree |
| Config.ReparsePattern | config.cs:76-107 | re-parsing the pattern that `ToString` prints for a rule yields a rule `Equals` to it |
| Config.RuleToString | config.cs:101-107 | a rule prints as its keyword, a space, then its pattern; `Config.RuleLineRoundTrip` reads it back |
| Config.EqualRulesHashEqual | config.cs:109-125 | `Equals` rules have equal `GetHashCode`, for any string hash |
| Config.RuleHash | config.cs:118-125 | `GetHashCode` over the four fields with the unchecked multiplier 31; `Config.EqualRulesHashEqual` states its promise |
| Config.ConfigEquals | config.cs:53-63 | the loop answers true exactly when ScanDir and the ordered rule lists agree; ConfigPath is ignored |
| Config.ConfigHash | config.cs:45-51 | the loop computes the 32-bit fold of ScanDir and then the rules in order, which depends only on the cache key |
| Config.EqualConfigsHashEqual | config.cs:45-63 | `Equals` configs have equal `GetHashCode` |
| Config.TokensOfNonBlank | config.cs:19-21 | a non-blank line has a first word |
| Config.RuleLineRoundTrip | config.cs:21-25 | parsing the line that `ToString` prints for a rule gives back that rule |
| Config.ParseLine | config.cs:18-25 | one line of the loader: skipped, a rule, or the exception it throws; `Config.RuleLineRoundTrip`, `Config.ParseLineOfTokens` and `Text.SkippedLines` state which |
| Config.RuleLineTokens | config.cs:21-25 | `include p` or `exclude p` is not blank, splits into the keyword and `p`, and parses into the rule for `p` |
| Config.KeywordIsWord | config.cs:22 | both keywords are single words |
| Config.ParseLineOfTokens | config.cs:21-25 | a line whose words are a keyword and a pattern parses into that rule |
| Config.Classify | config.cs:17-28 | each line is classified on its own, in file order |
| Config.RulesInAppend | config.cs:27 | the rules of two stretches of lines are the rules of the first then of the second |
| Config.FoldCharacterised | config.cs:17-28 | the fold succeeds exactly when no line is invalid, and then yields every rule line's rule in order |
| Config.ParseRulesCharacterised | config.cs:17-28 | a config parses exactly when none of its lines is invalid, and then its rules are those of its rule lines, in file order |
| Config.Fold | config.cs:17-28 | the state of `LoadConfig`'s loop after a list of lines: the rules so far, or the first line's error; `Config.FoldCharacterised` and `Config.FirstErrorPersists` state which |
| Config.ParseRules | config.cs:17-28 | the rules of a config file or its first error; `Config.ParseRulesCharacterised` states which |
| Config.FoldSkip | config.cs:19 | a skipped line anywhere changes nothing |
| Config.ClassifyAppend | config.cs:17 | classifying two stretches of lines is classifying each |
| Config.SkippedLineChangesNothing | config.cs:18-19 | inserting a blank or comment line anywhere leaves the parse result unchanged |
| Config.LoadConfig | config.cs:11-31 | the loop returns the config of the file's directory with the parsed rules when every line parses, and otherwise the error of the first invalid line |
| Config.FoldStep | config.cs:17-28 | one more line skips, appends its rule, or fails with its message |
| Config.FirstErrorPersists | config.cs:22-23 | once a line has failed, the later lines do not change the result: the first error is the one thrown |
| Ranking.Empty | matcher.cs:216 | a new list is valid and empty |
| Ranking.Place | matcher.cs:240 | placing an item adds exactly that item |
| Ranking.PlaceKeepsOrder | matcher.cs:240 | placing keeps the list best-first, and no position loses score |
| Ranking.PlaceFront | matcher.cs:240 | an item better than all others goes first |
| Ranking.ConsDescending | matcher.cs:240 | an item at least as good as a best-first list may lead it |
| Ranking.ConsRaises | matcher.cs:240 | a position-wise bound survives putting back the head |
| Ranking.PlaceBounded | matcher.cs:240 | placing keeps every score under a common bound |
| Ranking.Add | matcher.cs:240 | adding keeps the list valid (at most `capacity` items, best first) and keeps the capacity |
| Ranking.AddAll | matcher.cs:239-241 | adding several items keeps the list valid with the same capacity |
| Ranking.AddAllStep | matcher.cs:239-241 | adding a prefix and then the next item is adding the longer prefix |
| Ranking.CutDescending | server.cs:96-100 | cutting a best-first list splits its items, and what is cut scores at most the last kept item |
| Ranking.AddStep | matcher.cs:240 | one add keeps or drops every item exactly once, grows the list until it is full, and drops nothing scoring above the last kept item |
| Ranking.AddAllConserves | server.cs:96-100 | from an empty list, the kept items number `min(n, capacity)` and kept plus dropped are exactly the items added |
| Ranking.Regroup | server.cs:96-100 | the bookkeeping of kept and dropped items across one more add |
| Ranking.DroppedBelowLast | server.cs:96-100 | no dropped item scores above the last kept item |
| Ranking.FullOnceDropped | server.cs:96-100 | items are dropped only once the list is full |
| Ranking.BelowLastStep | matcher.cs:240 | one add keeps every dropped item at most the new last item |
| Ranking.LastNotLower | matcher.cs:240 | in a full list, the last score never decreases |
| Ranking.AddAllKeepsBest | server.cs:96-100 | the list keeps `min(n, capacity)` of the added items, best first; kept plus dropped are exactly the items added; and no dropped item outscores a kept one |
| Ranking.DroppedBelowKept | server.cs:96-100 | no dropped item outscores any kept item |
| Ranking.BelowKept | server.cs:104-107 | a bound on the last kept item bounds every kept item, since they are iterated best first |
| Ranking.AddAllAppend | server.cs:97-101 | adding two lists one after the other is adding their concatenation |
| Scoring.GreedyEmbeds | matcher.cs:287-297 | the greedy right-to-left scan returns an embedding of the needle in the path |
| Scoring.Greedy | matcher.cs:287-297 | the right-to-left scan's matched positions; `Scoring.GreedyEmbeds`, `Scoring.GreedyIsRightmost` and `Scoring.GreedyFindsSubsequence` state what it finds |
| Scoring.GreedyLength | matcher.cs:287-297 | the embedding places every needle character |
| Scoring.GreedyIsRightmost | matcher.cs:287-297 | when any embedding exists, the greedy one exists and each of its positions is at least as far right |
| Scoring.GreedyFindsSubsequence | matcher.cs:287-299 | the greedy scan succeeds exactly when the needle is a subsequence |
| Scoring.AppendNothing | matcher.cs:287-297 | appending no positions changes nothing |
| Scoring.AppendAppend | matcher.cs:287-297 | appending positions is associative |
| Scoring.GreedyStep | matcher.cs:288-296 | one loop step: a matching character is taken, any other is skipped |
| Scoring.Adjacent | matcher.cs:291-292 | the contiguity bonus is less than the number of matched characters |
| Scoring.PathScoreIffSubsequence | matcher.cs:282-308 | a path scores exactly when the needle is a subsequence of the lower-cased path |
| Scoring.PathScore | matcher.cs:283-302 | the path score or none; `Scoring.PathScoreIffSubsequence` and `Scoring.PathScoreBounds` state when it exists and its range |
| Scoring.PathScoreBounds | matcher.cs:287-302 | a successful score of a non-empty needle of length n lies in [n, 2n] |
| Scoring.ScanStep | matcher.cs:288-296 | one step of the scan keeps the greedy embedding split into the part left to scan and the positions found |
| Scoring.ScanFound | matcher.cs:299-302 | a finished needle is a subsequence, and the score is the matches plus the adjacent pairs plus the separator bonus |
| Scoring.ScoreOfScan | matcher.cs:299-302 | the score of a completed scan |
| Scoring.ScanMissing | matcher.cs:299-308 | running out of path first means the needle is not a subsequence |
| Scoring.ScanBack | matcher.cs:283-297 | the loop ends with the needle or the path used up, with the positions found and the score accumulated so far |
| Scoring.PathDoMatch | matcher.cs:282-309 | true exactly when the needle is a subsequence of the lower-cased path; then the score is the path score and the output is the path with `/` separators; otherwise no output |
| Scoring.GreedyTake | matcher.cs:288-293 | a matching last character is taken |
| Scoring.GreedySkip | matcher.cs:294-296 | a different last character is skipped |
| Scoring.LowerKeeps | matcher.cs:288 | lower-casing keeps text without capitals |
| Scoring.ContiguityBonus | matcher.cs:291-292 | `ab` in `ab` scores 3: two matches plus one for adjacency |
| Scoring.ContiguousEmbedding | matcher.cs:287-297 | `ab` embeds in `ab` at positions 0 and 1 |
| Scoring.ScatteredScore | matcher.cs:287-297 | `ab` in `axb` scores 2: no adjacency bonus |
| Scoring.ScatteredEmbedding | matcher.cs:287-297 | `ab` embeds in `axb` at positions 0 and 2 |
| Scoring.BoundaryBonus | matcher.cs:300-302 | `b` in `a/b` scores 2: one bonus for the separator before it |
| Scoring.NoBoundaryBonus | matcher.cs:300-302 | `b` in `ab` scores 1 |
| Scoring.LineText | matcher.cs:429-437 | the reported text is the hit's line; on a final line with no trailing newline its last character is lost |
| Scoring.Record | matcher.cs:437 | one grep record, `path(offset+1):line`; the example lemmas show its form |
| Scoring.Records | matcher.cs:437 | one record per hit, in order |
| Scoring.GrepScan | matcher.cs:425-442 | every offset the scan reports lies on a line that can be printed |
| Scoring.NextLine | matcher.cs:431-432 | the search resumes strictly after the hit, unless the hit is at the end |
| Scoring.ReportablePrepend | matcher.cs:437 | a printable hit before printable hits stays printable |
| Scoring.ReportableCons | matcher.cs:437 | the same, for lists of offsets |
| Scoring.GrepScanHits | matcher.cs:426 | every reported offset is an occurrence of the needle at or after the start |
| Scoring.GrepScanFindsAny | matcher.cs:426-427 | the scan reports something exactly when the needle occurs at or after the start |
| Scoring.PrependPrepend | matcher.cs:437 | reporting hits one after another is reporting them together |
| Scoring.IsLineEnd | matcher.cs:431 | the first newline after a stretch without one is its line's end |
| Scoring.IsLineStart | matcher.cs:434-435 | the position after the last newline before a stretch without one is its line's start |
| Scoring.RecordsAppend | matcher.cs:437 | one more hit appends its record |
| Scoring.GrepScanStep | matcher.cs:426-441 | one hit is reported and the search resumes at the next line, or stops when fewer than two characters remain |
| Scoring.GrepScanEnd | matcher.cs:443 | a finished scan returns true with score 100 when it found anything, and the records of its hits |
| Scoring.LineAround | matcher.cs:429-435 | the loops find the hit's line bounds and the resume point; they throw exactly when the hit is at the end or on a newline |
| Scoring.GreppingStep | matcher.cs:426-441 | one pass of the loop body keeps the loop invariant, or ends with the final outcome |
| Scoring.GreppingEnd | matcher.cs:427 | no further hit ends the loop with the outcome so far |
| Scoring.GreppingFault | matcher.cs:434-437 | a hit at the end or on a newline makes the match throw |
| Scoring.GrepDoMatch | matcher.cs:409-444 | the loop computes the grep outcome: no output without stored contents, the records of the hits otherwise, or a throw |
| Scoring.GrepOutcome | matcher.cs:409-444 | a grep outcome that does not throw succeeds exactly when it has records, and then scores 100, else 0 |
| Scoring.GrepNeverThrows | matcher.cs:425-442 | a non-empty needle without a newline never makes the scan throw |
| Scoring.FirstHitLine | matcher.cs:426 | started at a line start, the first hit's line does not begin before the start |
| Scoring.GrepHitsFirstInLine | matcher.cs:426-440 | every reported offset is the first occurrence of the needle in its line |
| Scoring.FirstInLineCons | matcher.cs:426-440 | the same, kept across one more hit |
| Scoring.GrepHitsOnDistinctLines | matcher.cs:439-441 | reported offsets lie on strictly increasing, distinct lines |
| Scoring.BreakBefore | matcher.cs:432 | a newline before a position ends an earlier line |
| Scoring.DistinctLinesCons | matcher.cs:439 | a hit on a line before all later hits keeps them on distinct lines |
| Scoring.ConsIndex | matcher.cs:437 | indexing past the first hit |
| Scoring.SameLine | matcher.cs:434 | positions with no newline between them share a line start |
| Scoring.GrepComplete | matcher.cs:425-442 | for a needle of at least 2 characters without a newline, every line containing the needle gets a record |
| Scoring.GrepMatchesIffContains | matcher.cs:409-443 | for a stored file and a non-empty needle without a newline, the match succeeds exactly when the file contains the needle, with score 100 and one record per hit |
| Scoring.ExampleFirstHit | matcher.cs:426 | `needle` is first found at offset 8 of the example text |
| Scoring.ExampleLine | matcher.cs:429-437 | the example hit's line is `bar needle baz` |
| Scoring.ExampleLineBounds | matcher.cs:431-435 | the example hit's line spans offsets 4 to 18 |
| Scoring.NoBreakIn | matcher.cs:431 | a slice without a newline has none at any index |
| Scoring.GrepExampleScan | matcher.cs:425-442 | the example text has exactly one hit |
| Scoring.GrepExample | matcher.cs:409-444 | grepping `needle` in `foo`, `bar needle baz`, `qux` gives the single record `p(9):bar needle baz` with score 100 |
| Scoring.ExampleRecord | matcher.cs:437 | the record gives the 1-based character offset, not a line number |
| Scoring.EmptyNeedleScan | matcher.cs:425-442 | with an empty needle, `ab` gets the record at offset 0 and does not throw, while an empty file and a file with an empty line throw |
| Index.IsFileOkFirstMatchWins | matcher.cs:80-91 | a name is accepted exactly when the first rule that matches it is an include |
| Index.IsFileOk | matcher.cs:80-91 | a name accepted in full mode is matched by some include rule; a name rejected in exclude-only mode is matched by some exclude rule |
| Index.NoMatchRejected | matcher.cs:90 | a name no rule matches is rejected |
| Index.IsFileOkOnlyExclude | matcher.cs:80-91 | in exclude-only mode a name is accepted exactly when no exclude rule matches it |
| Index.IncludeAllThenExclude | matcher.cs:80-91 | `[include *, exclude *.o]` accepts `x.o`: the catch-all include wins |
| Index.ExcludeThenInclude | matcher.cs:80-91 | `[exclude *.o, include *.c]` accepts `x.c` and rejects `x.o` |
| Index.TrimPathOfCombine | matcher.cs:93-96 | trimming the scan directory off a combined path gives back the relative path |
| Index.TrimPath | matcher.cs:93-96 | the trimmed path is the suffix of the full path after the directory and one separator, or empty for the directory itself |
| Index.SkipDir | matcher.cs:123 | a directory is pruned exactly when some exclude rule matches its relative path |
| Index.StripSlashes | matcher.cs:106-107 | trailing separators are removed, and only those |
| Index.NormalizeDir | matcher.cs:104-107 | the loop trims the directory and strips its trailing separators |
| Index.Removals | matcher.cs:149 | one removal event per path, in order |
| Index.Additions | matcher.cs:175 | one added event per path, in order |
| Index.Members | matcher.cs:155 | the set of a list's elements |
| Index.RemoveAt | matcher.cs:148 | `RemoveAt` shortens the list by one |
| Index.RemoveAtCount | matcher.cs:148 | `RemoveAt` removes exactly the element at that index |
| Index.RemoveAtSubsequence | matcher.cs:148 | `RemoveAt` keeps the order of the rest |
| Index.Find | matcher.cs:199 | the index of the first occurrence, or -1 when absent |
| Index.RemoveFirst | matcher.cs:199 | `List.Remove` removes one occurrence, or nothing when absent |
| Index.RemoveFirstKeepsOrder | matcher.cs:199 | `List.Remove` keeps the order of the rest |
| Index.VanishedMembers | matcher.cs:141-152 | after a directory vanishes, the paths kept are those not under it and the paths removed are those under it |
| Index.VanishedConserves | matcher.cs:141-152 | every path is kept or removed, once |
| Index.OutsideKeepsOrder | matcher.cs:141-152 | the kept paths keep their order |
| Index.RemoveVanished | matcher.cs:143-152 | the loop removes in place exactly the paths under the vanished directory, in order |
| Index.RemovingStep | matcher.cs:146-150 | one loop step keeps the loop invariant |
| Index.WithSlash | matcher.cs:138-139 | a non-empty directory name ends with a separator |
| Index.DiffPending | matcher.cs:155-176 | the files left to add are the listed files the index did not already hold |
| Index.DiffKept | matcher.cs:156-172 | the paths kept are those in other directories and those still listed |
| Index.DiffConserves | matcher.cs:156-172 | every path is kept or removed once, and the kept ones keep their order |
| Index.DiffEvents | matcher.cs:163-169 | the events are a change for each kept path of the directory and a removal for each removed path |
| Index.DiffRemoved | matcher.cs:163-169 | with no duplicates, the paths removed are exactly the directory's paths no longer listed |
| Index.DiffStep | matcher.cs:158-171 | one loop step over the next path |
| Index.SplitAt | matcher.cs:167 | slicing around an index |
| Index.DiffDir | matcher.cs:156-172 | the diff of the directory's indexed paths against its listing: kept paths, events, removed paths and the files left to add; `Index.DiffPending`, `Index.DiffKept`, `Index.DiffRemoved` and `Index.DiffConserves` state what each part holds |
| Index.DiffExisting | matcher.cs:156-172 | the loop computes the diff of the directory's paths against the listing |
| Index.PendingStep | matcher.cs:173-176 | adding one pending file keeps the added files and the rest disjoint and together the whole pending set |
| Index.AddPending | matcher.cs:173-176 | every pending file is added once; the list gains exactly those files; it is re-sorted after any add |
| Index.AddingStep | matcher.cs:173-176 | one loop step keeps the loop invariant |
| Index.ScanFilter | matcher.cs:123-127 | the initial list holds exactly the relative paths of the scanned files that the rules accept |
| Index.ItemsOf | matcher.cs:239-241 | a successful match contributes one item per output, all with its score; a failed one contributes none |
| Index.PathOutcome | matcher.cs:282-309 | the path match succeeds exactly when the needle is a subsequence of the lower-cased path |
| Index.FaultPersists | matcher.cs:231-255 | one `DoMatch` that throws on a pool thread means `Match` never returns a list (`None`), whatever the other paths give |
| Index.DoMatch | matcher.cs:237 | the hook `Match` calls per path; the path matcher's never throws |
| Index.Candidates | matcher.cs:236-241 | the items of every path in order, and `None` only when some path's `DoMatch` throws |
| Index.Ranked | matcher.cs:215-259 | what `Match` returns: a valid list of the requested capacity, or `None` when a `DoMatch` throws |
| Index.PathItems | matcher.cs:237-241 | the loop's path outcome contributes the same items as the specification |
| Index.AddOuts | matcher.cs:239-241 | adding one path's outputs is adding them in order |
| Index.FileChangeKeepsSorted | matcher.cs:181-203 | a file event keeps a sorted path list sorted |
| Index.FileChange | matcher.cs:181-203 | an accepted file raises exactly one event and a rejected one none; the stored text is kept or loses that file only |
| Index.FileChangeCounts | matcher.cs:186-201 | for an accepted file: an existing one keeps its occurrences if already held and is otherwise added once; a deleted one loses one occurrence; no other path changes |
| Index.PathIndex.constructor | matcher.cs:99-101 | a new index is empty, live and valid |
| Index.PathIndex.Go | matcher.cs:103-133 | the directory is normalised; the scan's accepted files are added and the list sorted; they are all queued for loading |
| Index.PathIndex.SubdirChanged | matcher.cs:135-179 | a vanished directory loses exactly its paths, each with a removal event and its stored text. An existing one keeps the paths still listed, with change events, and loses the others with removal events. Every newly listed file is added once with an added event, and the list stays sorted |
| Index.PathIndex.FileChanged | matcher.cs:181-203 | a rejected file changes nothing. An existing accepted one is changed if held and added and sorted otherwise. A deleted one loses one occurrence and raises a removal event even when it was absent |
| Index.PathIndex.Rename | matcher.cs:401-408 | the stored text moves from the old key to the new one; renaming a path onto itself deletes it |
| Index.PathIndex.Store | matcher.cs:342-351 | the loader stores a file's text unless the index is dead or the file is gone |
| Index.PathIndex.Dispose | matcher.cs:446-452 | the index is dead, with no paths and no contents |
| Index.PathIndex.FilesIn | matcher.cs:155 | the relative paths of the listed files that `IsFileOk` accepts; `Index.PathIndex.SubdirChanged` and `Index.DiffThenAdd` state that exactly these are indexed for the directory afterwards |
| Index.PathIndex.Match | matcher.cs:215-259 | the result is the fold of `DoMatch` over the path list into a list of `count`; `None` when a `DoMatch` throws, which in the source ends the process |
| Index.MatchAll | matcher.cs:215-259 | the loop computes the ranked fold of `DoMatch` over the paths, or `None` as soon as one `DoMatch` throws |
| Index.MatchingFault | matcher.cs:231-255 | after a `DoMatch` throws, no list comes back: the fold's result is `None` |
| Index.MatchingDone | matcher.cs:258 | the finished loop holds the ranked result |
| Index.MatchingStep | matcher.cs:236-241 | one path's items are added in order |
| Index.RunDoMatch | matcher.cs:237 | the loop body's `DoMatch` throws and contributes exactly as the specification does |
| Index.CandidatesStep | matcher.cs:236-241 | one more path appends its items, or throws |
| Index.RenamedContents | matcher.cs:401-408 | an absent old key changes nothing; a present one is removed and its text stored under the new key; every other key is untouched |
| Index.MatchKeepsBest | matcher.cs:215-259 | a match keeps `min(n, count)` of its candidates, best first, and no candidate left out outscores one kept |
| Index.PathOutcomeItems | matcher.cs:282-309 | a path contributes an item exactly when it matches, with its score and `/` separators |
| Index.PathCandidates | matcher.cs:282-309 | a path match never throws, and its candidates are exactly the matching paths |
| Index.HitsAppend | matcher.cs:236-241 | the hits of a longer list are those of the shorter list and of the new path |
| Index.GrepNeverFaults | matcher.cs:409-444 | a grep for a non-empty needle without a newline never throws |
| Index.DiffThenAdd | matcher.cs:153-177 | after the diff and the adds, the directory's paths are exactly its listed files, and other directories' paths are kept |
| Matchers.MakeFullPath | matcher.cs:44-47 | with scan directory `.` the path is returned unchanged |
| Matchers.FullPathTrims | matcher.cs:44-47 | trimming the scan directory off a full path gives back the relative path |
| Matchers.FullItems | matcher.cs:34-42 | each answer keeps its score and gets its full path, in order |
| Matchers.Answer | matcher.cs:34-42 | `Match`'s ranked items turned into full paths with their scores, or no answer when the match throws; `Matchers.FullItems` and `Matchers.FullPathTrims` state what the items are |
| Matchers.Matcher.constructor | matcher.cs:22-26 | a new matcher holds its config, a count of 1, and a fresh empty index |
| Matchers.Matcher.Go | matcher.cs:28-32 | the path index is scanned and sorted, and the grep side is given the same list to load; on a disposed matcher the call throws and its caller swallows it, so nothing changes |
| Matchers.Matcher.Ref | matcher.cs:60-62 | the count goes up by one |
| Matchers.Matcher.Free | matcher.cs:64-70 | the count goes down by one; it returns true exactly when it reaches 0, and then the matcher is disposed |
| Matchers.Matcher.Dispose | matcher.cs:49-57 | the first call kills and empties the index; later calls change nothing |
| Matchers.Matcher.PathMatch | matcher.cs:39-42 | the path fold's best items with full paths |
| Matchers.Matcher.GrepMatch | matcher.cs:34-37 | the grep fold's best items with full paths, or `None` when a `DoMatch` throws, which ends the process |
| Matchers.RefsThenFrees | matcher.cs:59-70 | after k `Ref` calls, k + 1 `Free` calls return false k times, then true once, and the matcher is disposed |
| Refcounts.HoldersUpdate | server.cs:71 | replacing one client's held set changes each key's holder count by what it gained or lost |
| Refcounts.HoldersOfIdle | server.cs:22-24 | a client holding nothing counts for no key |
| Refcounts.IdleJoins | server.cs:22-24 | a new client holding nothing keeps the invariant |
| Refcounts.UpdateKeepsCounted | server.cs:29-71 | with a duplicate-free config list, `_UpdateConfig` keeps each cached key's count equal to the number of clients holding it |
| Refcounts.DisconnectKeepsCounted | server.cs:149-156 | the disconnect release keeps the invariant |
| Refcounts.DuplicateLeaks | server.cs:34-50 | a config listed twice is counted twice but held once, which breaks the invariant |
| Session.Keys | server.cs:33 | the keys of the first n configs |
| Session.KeySet | server.cs:33-52 | every listed config's key |
| Session.Occ | server.cs:33-52 | a key occurs in the first n configs exactly when it is among their keys |
| Session.KeyIndex | server.cs:33-52 | a key among the configs comes from one of them |
| Session.OccNoDup | server.cs:33-52 | without duplicates, each key occurs once |
| Session.AcquiredAt | server.cs:34-51 | after the first n configs, a key is counted once more per occurrence unless the client already held it |
| Session.FirstKeys | server.cs:30 | the order of the new dictionary: each key once, exactly the listed keys |
| Session.Cache.constructor | server.cs:16 | the cache starts empty |
| Session.Cache.Acquire | server.cs:39-51 | a cached config's matcher is returned with one more reference; an uncached one gets a fresh matcher with count 1, inserted into the cache |
| Session.Cache.RefCached | server.cs:47 | the cached matcher's count goes up by one |
| Session.Cache.Create | server.cs:41-44 | a fresh matcher with count 1 is inserted |
| Session.Cache.Release | server.cs:66-67 | the count goes down by one, and the entry is evicted and disposed exactly when it reaches 0 |
| Session.Unref | server.cs:66-67 | one `Free` followed by `__matchercache.Remove` at zero: the count goes down by one and the key leaves the cache when it reaches zero; `Session.Cache.Release` is proved to meet it |
| Session.Released | server.cs:151-152 | the counts after one `Free` of every key in a set; `Session.ReleasedStep` and `Session.UnrefAllReleased` state that releasing keys one by one gives it |
| Session.Dropped | server.cs:64-69 | the held keys that are not kept |
| Session.DroppedBefore | server.cs:64-69 | a key later in the order has not yet been dropped |
| Session.ReleasedStep | server.cs:66 | releasing one more key |
| Session.UnrefAllReleased | server.cs:64-69 | releasing the dropped keys one by one releases each once |
| Session.DroppedKeys | server.cs:64-69 | the keys released are the held keys missing from the new list |
| Session.ReleasingStep | server.cs:65-68 | one loop step keeps the loop invariant |
| Session.ReleaseAll | server.cs:64-69 | every held key not kept is freed once, and evicted when its count reaches 0 |
| Session.ReleaseFrom | server.cs:64-69 | the remaining iterations of the release loop |
| Session.Client.constructor | server.cs:22-24 | a new client holds nothing |
| Session.Client.UpdateConfig | server.cs:29-72 | a held config keeps its matcher and count; a cached one is shared with one more reference; a new one is created and queued for initialisation; dropped ones are freed; afterwards the client holds exactly the listed configs, with the counts updated accordingly |
| Session.Client.Disconnect | server.cs:149-156 | every held matcher is freed once, and the client holds nothing |
| Session.ProgressStep | server.cs:33-52 | one loop step keeps the loop invariant |
| Session.AcquireAll | server.cs:33-52 | the loop takes each listed config's matcher |
| Session.AcquireFrom | server.cs:33-52 | the remaining iterations of the acquire loop |
| Session.AcquireNext | server.cs:34-51 | one iteration of the acquire loop |
| Session.Take | server.cs:34-51 | a held config reuses its matcher without a new reference; a cached one is referenced once more; an uncached one is created |
| Routing.Query | server.cs:98 | the query, when it exists, is a suffix of the line |
| Routing.LowerQuery | server.cs:116 | the `find match` query lower-cased with `ToLowerInvariant`, and no query when the `Substring` would throw; `Routing.RequestRoundTrip` states it for the plugin's requests |
| Routing.Dispatch | server.cs:88-134 | a non-blank line is never skipped |
| Routing.Route | server.cs:86-134 | a line is skipped exactly when it is blank once its comment is stripped |
| Routing.RouteSkips | server.cs:86-87 | a line is skipped exactly when it is blank or a comment |
| Routing.RouteKept | server.cs:86-88 | a line starting with a word is dispatched on its words |
| Routing.VerbIsWord | server.cs:93-111 | `grep` and `find` are single four-letter words without `m` |
| Routing.MatchAfterVerb | server.cs:98 | in `grep match ...` or `find match ...`, the first `match` is at offset 5 |
| Routing.TwoWordsThen | server.cs:88 | two words and text split into the two words then the text's words |
| Routing.TwoWords | server.cs:88 | two words split into themselves |
| Routing.Cons2 | server.cs:88 | list regrouping |
| Routing.DispatchVerb | server.cs:93-116 | `find match` routes to a lower-cased query and `grep match` to the query as typed |
| Routing.RequestParts | server.cs:94 | the layout of a request line |
| Routing.RequestTokens | server.cs:94 | a request splits into the verb, `match`, and the query's words |
| Routing.RequestRoundTrip | server.cs:93-127 | a request line routes back to its command, with the query lower-cased for `find` only |
| Routing.BareRequest | server.cs:98 | `grep match` or `find match` with nothing after it has no query, so asking a matcher throws |
| Routing.ConfigRequest | server.cs:90-91 | `config <path>` routes to loading that path |
| Routing.LoneWord | server.cs:88-134 | a lone `config`, `grep` or `find` throws; `nop` and `quit` route to themselves; any other word is ignored |
| Routing.Reply | server.cs:103-109 | a reply always ends with a newline |
| Routing.Body | server.cs:103-107 | the body has at least one character per item |
| Routing.ReadReply | VFF.rb:194-199 | what follows a reply is a suffix of the input |
| Routing.ReadLine | VFF.rb:194 | `gets` ends an item's line at its newline |
| Routing.LineEndAt | VFF.rb:194 | the first newline found from a point is the line end |
| Routing.ReplyRoundTrip | VFF.rb:194-199 | the plugin reads back exactly the items of a reply whose items are non-empty and hold no newline or carriage return, and leaves what follows |
| Routing.ReplyReadBack | VFF.rb:194-199 | the plugin reads back what it sees of each item, in order, when none reads as empty, and leaves what follows |
| Routing.ReadReplyStep | VFF.rb:194-197 | one item line is read as what the plugin sees of it, then the reading goes on after its newline |
| Routing.ReadEmptyLine | VFF.rb:196-198 | the empty line closing a reply ends the reading and leaves what follows |
| Routing.Unify | VFF.rb:195 | `gsub(/\r\n?/, "\n")` never lengthens a line and leaves a non-empty line non-empty |
| Routing.UnifyRemovesCarriageReturns | VFF.rb:195 | no carriage return is left after `gsub` |
| Routing.UnifyPlain | VFF.rb:195 | text without a carriage return passes unchanged in front of any text |
| Routing.Chopped | VFF.rb:195 | `chop` makes the line shorter than what `gets` returned |
| Routing.SeenPlain | VFF.rb:195 | an item without carriage return or newline is read as itself |
| Routing.SeenDropsCarriageReturn | VFF.rb:195 | a record from a file with Windows line ends is read without its trailing `\r` |
| Routing.LoneCarriageReturnEndsReply | VFF.rb:194-198 | an item that is a lone `\r` reads as the empty line and ends the reply before the items after it |
| Routing.BodyCons | server.cs:104-107 | the body and reply of one more item |
| Server.Merged | server.cs:96-101 | a merged list is valid with capacity 200 |
| Server.MergedFails | server.cs:96-101 | the merge throws exactly when some matcher's answer throws |
| Server.MergedAddsAll | server.cs:96-101 | without a throw, the merge adds every answer's items in order to one list of 200 |
| Server.MergedKeepsBest | server.cs:96-101 | the merged list keeps `min(n, 200)` of all answers' items, best first, and no item left out outscores one kept |
| Server.Answers | server.cs:97-98 | one answer per held matcher, in the dictionary's order |
| Server.Collect | server.cs:96-101 | the loop merges the held matchers' answers |
| Server.MergeAnswers | server.cs:96-101 | the loop merges the answers in order, or throws at the first throw |
| Server.MergedNext | server.cs:97-101 | one more answer is added to the merge |
| Server.NoneStays | server.cs:97-101 | one throwing answer makes the merge throw |
| Server.AddEach | server.cs:98-100 | adding one answer's items in order |
| Server.Items | server.cs:104-106 | the reply lists the merged items' paths in order |
| Server.Loaded | server.cs:91 | a loaded config comes from an existing file and scans its directory; a missing file is an error |
| Server.Handle | server.cs:86-134 | blank, comment and unknown lines write nothing; `nop` writes `nop\n`; `quit` and failing lines end the session; `find` and `grep` write the merged answer, or write nothing and end the session when the query cannot be cut from the line, or crash the process when a `DoMatch` throws; `config` switches the client to the loaded config, or ends the session when it does not load; in every case the refcount invariant holds |
| Server.Replies | server.cs:93-134 | the reply, session end and crash that the if-chain in `ev_client` gives each command kind; `Server.Respond` and `Server.Handle` are proved to meet it |
| Server.Respond | server.cs:93-134 | the reply to a command other than `config`, with the session end and the process crash as `Server.Handle` states them |
| Server.Switch | server.cs:90-91 | a loaded config replaces the held ones with counts updated; a failed load ends the session and changes nothing |
| Server.Switched | server.cs:29-71 | switching to one config keeps the refcount invariant |
| Server.Disconnected | server.cs:149-156 | the release on disconnect keeps the invariant |
| Server.Search | server.cs:93-127 | the reply to `find` or `grep`: the merged answer; or no reply and the end of the session when the query is missing; or no reply and a crash of the process when some matcher's `DoMatch` throws |
| Server.Step | server.cs:81-137 | one command keeps the session invariant; `quit` and failing lines stop it, only lines that may stop it do, and only a search with a query can crash the process |
| Server.Commands | server.cs:82-88 | each line is routed on its own |
| Server.Serve | server.cs:74-158 | the session handles lines until one stops it; unless a `DoMatch` crashed the process, it then releases everything, and every cached count still equals the number of other clients holding it; a crash happens only at a search with a query |
| Server.Run | server.cs:81-156 | the read loop over routed commands, and the release unless the process crashed |

## Left out

- Sockets, the listener, stream readers and writers, and `Main`'s port flag (server.cs:161-192) are I/O plumbing. A session's input is a list of lines, and its output is the text written.
- Threads and locking are left out: the `ThreadPool` fan-out, `Interlocked`, `ManualResetEvent` and the locks in `Match` (matcher.cs:221-255), and the unlocked eviction in `_UpdateConfig` (server.cs:64-69). `Match` is a sequential fold over a snapshot of the path list.
- Index.PathIndex.Match: a `DoMatch` that throws does so on a pool thread (matcher.cs:231-248), where nothing catches it. In the source that ends the whole process, and the `WaitOne` at matcher.cs:254 would never return anyway. The model has `Match` return `None`, and `Server.Search` turns that into a crash. Only the grep matcher throws there, for a needle that is empty or holds a newline (`Index.GrepNeverFaults`); `grep match ` with a trailing blank sends the empty needle.
- The background loader `ev_read` and its queue (matcher.cs:318-376) are threads and file reads. Its effect on one file is `Index.PathIndex.Store`. The retry on a recurring `IOException`, which has no limit, is not modelled.
- The `ThreadPool` work item that runs `Go` on new matchers (server.cs:54-62) is left out. `Session.Client.UpdateConfig` returns those matchers instead of running them.
- `DirectoryWatcher`, `FastDirectoryScanner`, `LockFreeQueue`, `TopN` and `ScoredItem` are not part of this model. The scan and the file-system queries are inputs. `Ranking` gives `TopN` one concrete strategy and proves only its abstract promises.
- Ranking.AddAllKeepsBest: says nothing about the order of items with equal scores, because the source's `TopN` is not available.
- Culture-sensitive comparison and lower-casing are modelled as ordinal and ASCII: `List.Sort`, `StartsWith`, `EndsWith`, `IndexOf` and `ToLowerInvariant`.
- Config.ConfigHash: the string hash is a parameter, because `string.GetHashCode` is defined by the runtime. The model proves only that equal configs hash equally.
- `Path.Combine`, `GetDirectoryName` and the directory separator are modelled with `/`. `Config.ScanDirectory` and `ScanDirectoryAbsolute`, used by matcher.cs but missing from config.cs, are both the config's scan directory.
- `config` passes the single loaded `DirConfig` to `_UpdateConfig`, which takes a list (server.cs:91, 29). The model passes a one-element list.
- The `Dictionary` iteration order of the held matchers is modelled as the first-occurrence order of the config list.
- Index.PathIndex.SubdirChanged: the order in which newly listed files are added comes from a `HashSet` iteration and is left unspecified. The list is re-sorted after each add, so only the order of the events depends on it.
- Index.SkipDir: the recursive scanner is an input, so its pruning is not modelled. `SkipDir` states the predicate the source hands it (matcher.cs:123), and `Index.PathIndex.Go` takes whatever entries the scanner returns.
- Index.PathIndex.SubdirChanged: the two sub-matchers each subscribe their own `ev_SubdirChanged` (matcher.cs:110-112), and both edit the one list the grep matcher shares (matcher.cs:116). The model runs one handler per event that applies both matchers' hooks. The source runs the two one after the other, in an order the watchers decide, and the second finds the first's edits done. When the grep matcher's handler runs first, it appends the new files without sorting, and the path matcher's handler then sees them as present and does not sort either, so the list is left unsorted. When the path matcher's handler runs first, it removes the vanished paths, so the grep matcher's handler never sees them and their stored text is never dropped. The model's promises that the list stays sorted and that a removed path's text is dropped hold for the combined handler only.
- `ev_FileChanged` is never subscribed in the source, and `OnPathRenamed` has no caller. Both are still modelled.
- The rules see relative paths on the initial scan but full paths in the change handlers (matcher.cs:123-126 against 155, 183). The model keeps that quirk rather than fixing it.
- Server.Serve: its contract states the refcount invariant and where the session stops, not the text written. That text is `Server.Handle`'s contract, one command at a time.
- Server.Step: states only when the session stops. The reply is `Server.Handle`'s contract.
- Logging (`Logger`, `Console.WriteLine`) is left out.
- The Vim client (VFF.rb) apart from its reply reader (VFF.rb:194-199) is not part of this model, including its 3-character minimum grep query (VFF.rb:188) and its reconnect and retry. The MonoMac volume watcher is not part of this model either.
- Routing.ReplyRoundTrip: the reply is written through an ASCII `StreamWriter` (server.cs:78), which sends every character above U+007F as `?`. The model's reply is the text before encoding, so in the source the round trip holds for ASCII items only.
