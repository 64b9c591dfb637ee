# NBA Fantasy Dashboard — a verified Dafny model of its core

The NBA Fantasy Dashboard loads a season table of NBA players and enriches it. It:

- drops incomplete rows;
- resolves players listed once per team;
- derives fantasy points and efficiency metrics;
- labels each row with a player type.

On that table it answers dashboard queries:

- filters;
- a fantasy ranking;
- similar players;
- per-team and per-position aggregates;
- filter options;
- top and bottom performers;
- percentile ratings.

A keyword chatbot routes free-text questions to these answers.

This project models that core in Dafny and proves what each operation promises.

- `DataProcessing` (`data_processing.dfy`) holds the pipeline and the table queries. A table is a `seq<PlayerRow>`.
  - The duplicate resolver is a method with a loop over the duplicated names. It keeps a mask over the row positions, the way pandas keeps index labels, and is proved equal to the specification function `Resolve`.
  - The position labeller works in place on an `array<PlayerRow>`. It runs one labelling pass per position code and is proved equal to `Clustered`.
  - `LoadData` chains these steps.
- `Utils` (`utils.dfy`) holds the helper calculations of the utilities module.
- `Chatbot` (`ai_chatbot.dfy`) holds the routing.
  - `process_query` and the topic choices of the statistics, fantasy and position handlers are one generic first-match classifier, `FirstGroup`, over an ordered list of keyword groups.
  - The comparison handler splits the question into names, finds one row per name and picks the fantasy winner.
- `Strings` and `Seqs` model the Python and pandas operations these use:
  - substring test, `find`, `split`, `lower`, `strip`;
  - `sorted(set(...))`;
  - boolean-mask filtering;
  - `sort_values(ascending=False)`, `nlargest`, `nsmallest`, `sum`.

Numbers are exact reals. A mean is stated through `IsMeanOf` (mean × count = sum), and a mean of no rows is `None`.

Two places where the loader and the utilities compute the same column differently are both modelled:

- `load_data` divides by MP without a guard (data_processing.py:51), and `calculate_usage_rate` returns 0 when MP is 0 (utils.py:25-29).
- The loader's rebound weight is 1.25 (data_processing.py:19), while `calculate_fantasy_points` uses 1.2 (utils.py:14). `Utils.FantasyPointsScoringsDiffer` states the gap.

The chatbot's first-match routing has consequences the model proves:

- The position group contains the one-letter keyword "c". Any question with the letter c that reaches the position test is therefore routed there.
- Hence "what can you do?" never reaches the help handler (`Chatbot.WhatCanNeverReachesHelp`).
- No question routed to help contains a "c" at all (`Chatbot.HelpExcludesLetterC`).
- The statistics group comes before the fantasy and position groups (`Chatbot.StatisticsPreemptPositions`). So "best point guards" goes to the statistics handler, where the word "point" selects the top scorers (`Chatbot.PointSelectsScorers`).

## Model

| member | source | states |
|---|---|---|
| DataProcessing.FantasyPointsWithWeights | data_processing.py:13-33 | without weights, PTS + 1.25·TRB + 1.5·AST + 2·STL + 2·BLK − TOV; with weights, each of the six stats times its own weight, summed |
| DataProcessing.FantasyPointsLinear | data_processing.py:13-33 | fantasy points are linear in the weights: the difference under two weightings is the score under the difference of the weights |
| DataProcessing.DeriveMetrics | data_processing.py:46-72 | only the eight derived columns change; fantasy points use the default weights; PER uses unit weights; usage rate × MP = (FGA + 0.44·FTA + AST)·100; each of TS%, FTR, AST/TOV, hAST% and TOV% is the quotient when its denominator is positive and the stated fallback (0, or AST/0.1) otherwise |
| DataProcessing.SharesBounded | data_processing.py:66-72 | with non-negative counting stats, hAST% and TOV% each lie in [0, 1] and together are at most 1 |
| DataProcessing.FreeThrowShooterHasTrueShooting | data_processing.py:56-58 | a scorer with free-throw attempts but no field-goal attempts gets a positive TS%, since the guard tests the whole denominator |
| DataProcessing.FirstMaxUnique | data_processing.py:109 | `idxmax` picks one row: at most one row of a player is the first one with the highest points |
| DataProcessing.FirstMaxExists | data_processing.py:109 | every listed player has a first row with the highest points |
| DataProcessing.KeepMask | data_processing.py:92-111 | the resolver keeps a row exactly when its player is listed once, or the row is combined ("TM" in the team), or the player has no combined row and this is the first row with the most points |
| DataProcessing.DuplicatePlayers | data_processing.py:88-90 | lists exactly the players with more than one row, each once |
| DataProcessing.IdxMaxPoints | data_processing.py:109 | returns a kept row of the player with the highest points, the first such row |
| DataProcessing.DropUncombined | data_processing.py:105-106 | the new mask drops exactly the kept rows of the player that are not combined |
| DataProcessing.DropAllBut | data_processing.py:110-111 | the new mask drops exactly the kept rows of the player other than the best one |
| DataProcessing.UnhandledPlayerRows | data_processing.py:93-97 | before a duplicated player is handled, the scans over the kept rows see all of that player's rows, so the combined-row test and the maximum agree with the whole table |
| DataProcessing.DropUncombinedStep | data_processing.py:99-106 | dropping the uncombined rows resolves the player and leaves the rows already resolved as they were |
| DataProcessing.DropAllButStep | data_processing.py:107-111 | keeping only the best row resolves the player and leaves the rows already resolved as they were |
| DataProcessing.HandledAll | data_processing.py:93-113 | once every duplicated player is handled, the mask is the resolver's specification mask |
| DataProcessing.HandleDuplicatePlayers | data_processing.py:83-113 | the loop over duplicated names returns exactly `Resolve(df)` |
| DataProcessing.Resolve | data_processing.py:83-113 | the resolved table is no longer than the input, an order-preserving subsequence of it, and holds only input rows |
| DataProcessing.ResolveIsSubsequence | data_processing.py:83-113 | resolution only removes rows and keeps the order of the rest |
| DataProcessing.ResolveKeepsSingleRowPlayers | data_processing.py:88-90 | a player with at most one row keeps exactly that row |
| DataProcessing.ResolveKeepsCombinedRows | data_processing.py:96-106 | a duplicated player with a combined row keeps exactly the combined rows, in order |
| DataProcessing.ResolveKeepsBestRow | data_processing.py:107-111 | a duplicated player without a combined row keeps exactly one row, the first with the most points |
| DataProcessing.ResolveNamesUnique | data_processing.py:83-113 | unless a player has two combined rows, the name appears at most once after resolution |
| DataProcessing.PositionLabel | data_processing.py:116-125 | each of PG, SG, SF, PF, C gets its own label, in both directions, and every other code gets "Other" |
| DataProcessing.Clustered | data_processing.py:116-127 | same length; each row is unchanged except that its player type is the label of its position |
| DataProcessing.CreatePlayerClusters | data_processing.py:116-127 | the array after the six in-place passes is `Clustered` of the array before |
| DataProcessing.Labelled | data_processing.py:118-125 | after all five passes a row's type is the label of its position |
| DataProcessing.DropIncomplete | data_processing.py:41 | the input rows selected by the mask "Player, PTS, TRB and AST all present", in file order; a row is kept exactly when those four cells are present |
| DataProcessing.DeriveAll | data_processing.py:46-72 | every row gets its derived columns |
| DataProcessing.LoadData | data_processing.py:35-78 | the loader returns the complete rows, resolved, with derived columns and player types; only the rows the resolver keeps need minutes |
| DataProcessing.LoadedRowsConsistent | data_processing.py:44-76 | in the loaded table, every row's fantasy points and PER are the scores of its own stats, and its type is the label of its position |
| DataProcessing.LoadedRowSource | data_processing.py:41-76 | every loaded row is a row the resolver kept, read from some complete input row, with its metrics derived and its type labelled |
| DataProcessing.CountSameNames | data_processing.py:46-76 | deriving columns and labelling do not change how often a name occurs |
| DataProcessing.LoadedNamesUnique | data_processing.py:41-44 | unless a player has two combined complete rows, the name appears at most once in the loaded table |
| DataProcessing.Rescore | data_processing.py:147-149 | with custom weights, each row's fantasy points are recomputed with them; without, rows are unchanged |
| DataProcessing.ApplyFilters | data_processing.py:129-151 | the filtered table is the rows that match all the filters, rescored; the parameters default to position and team "All", ages 19–40, 20 games, 0–50 points per game and no weights |
| DataProcessing.FilteredRowsMatch | data_processing.py:139-145 | every returned row matches the position, team, age, games and points filters |
| DataProcessing.FilteredRowsExact | data_processing.py:129-145 | without weights, the result is a subsequence of the input and holds exactly the input rows that match |
| DataProcessing.FilteredRowsRescored | data_processing.py:147-149 | with weights, every returned row's fantasy points are its score under those weights |
| DataProcessing.StagedFilters | data_processing.py:133-145 | the position, team and range filters applied one after another equal the single combined filter |
| DataProcessing.WeightedFantasyScore | data_processing.py:163-168 | 0.4·FP + 0.3·PER + 0.2·usage rate + one thirtieth of the sum of the three shooting percentages |
| DataProcessing.WeightedScoreMonotone | data_processing.py:162-168 | raising fantasy points raises the weighted score by 0.4 times the rise |
| DataProcessing.EligibleRows | data_processing.py:155-156 | every rescored eligible row has at least the minimum games |
| DataProcessing.CreateFantasyRanking | data_processing.py:153-174 | the ranking is a permutation of the eligible, rescored rows; it is sorted by fantasy points, descending; ranks run 1..n; each weighted score is the row's own; every row meets the games minimum, which defaults to 20, with no weights by default |
| DataProcessing.RankRows | data_processing.py:170-173 | numbers the sorted rows 1..n, in order, with their weighted scores |
| DataProcessing.RankingOrder | data_processing.py:155-171 | sorting keeps the number of eligible rows and the games minimum of each |
| DataProcessing.GetSimilarPlayers | data_processing.py:176-183 | returns min(n, candidates) candidates, descending by fantasy points, and no omitted candidate scores higher than a returned one; n defaults to 5 |
| DataProcessing.SimilarPlayersQualify | data_processing.py:178-181 | every similar player is in the table, has the given type and is not the given player |
| DataProcessing.TeamGroup | data_processing.py:187-192 | a team's entry has its player count (positive), fantasy-point total and fantasy-point mean |
| DataProcessing.TeamGroups | data_processing.py:187-192 | one entry per listed team, in order |
| DataProcessing.GetTeamStats | data_processing.py:185-195 | the team table is a permutation of the per-team entries over the distinct teams, sorted by mean fantasy points, descending |
| DataProcessing.TeamStatsEntries | data_processing.py:187-193 | every entry is the aggregate of its own team |
| DataProcessing.TeamStatsCoverTeams | data_processing.py:187-193 | a team has an entry exactly when it occurs in the table, and no team has two |
| DataProcessing.CountOverCovers | data_processing.py:187-189 | over distinct teams that cover all rows, the per-team counts add up to the number of rows |
| DataProcessing.SumOfCounts | data_processing.py:187-189 | the player counts of the entries add up to the per-team counts |
| DataProcessing.TeamCountsPartition | data_processing.py:185-195 | the player counts of the team table add up to the number of rows |
| DataProcessing.PositionGroup | data_processing.py:199-204 | a position's entry holds the means of fantasy points, points, rebounds and assists over its rows |
| DataProcessing.GetPositionStats | data_processing.py:197-206 | one entry per distinct position, exactly, in ascending position order, each the aggregate of its position |
| Utils.CalculateFantasyPoints | utils.py:10-19 | the per-row score with weights 1, 1.2, 1.5, 2, 2, -1 |
| Utils.FantasyPointsScoringsDiffer | utils.py:10-19 | the per-row score is the loader's score minus 0.05·TRB, so it is lower exactly when the player has rebounds |
| Utils.CalculatePer | utils.py:21-23 | PER is the unit-weight score |
| Utils.PerAgreesWithLoader | utils.py:21-23 | the per-row PER equals the loader's PER column |
| Utils.CalculateUsageRate | utils.py:25-29 | 0 when MP is 0, else usage rate × MP = (FGA + 0.44·FTA + AST)·100 |
| Utils.UsageRateAgreesWithLoader | utils.py:25-29 | on rows with minutes, the per-row usage rate equals the loader's column |
| Utils.Summarize | utils.py:41-76 | the summary has exactly the listed keys |
| Utils.SummarizeEntry | utils.py:44-76 | with distinct keys, each key maps to the column's value or its fallback |
| Utils.GetPlayerSummary | utils.py:41-76 | the summary has exactly the 25 keys, each the column's value when present, else its default |
| Utils.SummaryKeysDistinct | utils.py:50-76 | the 25 summary keys are pairwise different |
| Utils.MissingColumnGivesFallback | utils.py:44-48 | a missing column yields the key's default |
| Utils.MinAge | utils.py:93 | the least age, attained by some row |
| Utils.MaxAge | utils.py:93 | the greatest age, attained by some row |
| Utils.MaxGames | utils.py:94 | the greatest games count, attained by some row |
| Utils.MaxPoints | utils.py:95 | the greatest points, attained by some row |
| Utils.GetFilterOptions | utils.py:87-106 | on an empty table, the fallback options; otherwise "All" then the sorted distinct positions and teams, and age, games and points ranges attained by rows and bounding every row |
| Utils.ValidateFilters | utils.py:108-122 | valid exactly when the age range is ordered, the games minimum is non-negative and the points range is ordered and non-negative |
| Utils.FilterOptionsAreValid | utils.py:87-122 | the options offered pass validation, and every row with at least one game passes the filters they describe |
| Utils.GetTopPerformers | utils.py:124-126 | min(n, rows) rows, descending by the metric, and no omitted row above a returned one; n defaults to 10 |
| Utils.GetBottomPerformers | utils.py:128-130 | min(n, rows) rows, ascending by the metric, and no omitted row below a returned one; n defaults to 10 |
| Utils.MeanOrNone | utils.py:135-139 | `None` exactly for no rows, else the mean |
| Utils.CalculateTeamEfficiency | utils.py:132-140 | player count, fantasy total, and means of fantasy points, age and games, each mean absent exactly for an empty team |
| Utils.TeamEfficiencyMatchesTeamStats | utils.py:132-140 | for a team in the table, its efficiency agrees with its entry in the team statistics |
| Utils.GetPositionRankings | utils.py:142-147 | a permutation of the position's rows, descending by fantasy points, ranked 1..n |
| Utils.PositionRankingsQualify | utils.py:144 | every ranked row is in the table and plays the position |
| Utils.GetPlayerArchetype | utils.py:156-167 | each archetype holds exactly under its own condition and the failure of the earlier ones |
| Utils.GetPercentileRank | utils.py:198-200 | `None` exactly for no data; otherwise 100 × the share of values below, in [0, 100] |
| Utils.CountBelowMonotone | utils.py:198-200 | a larger value has at least as many values below it |
| Utils.PercentileRankMonotone | utils.py:198-200 | the percentile rank does not decrease with the value |
| Utils.PercentileAgainstAverage | utils.py:208 | against a single average the rank is 100 when above it and 0 otherwise |
| Utils.CreatePlayerRating | utils.py:202-215 | one rating per averaged stat the player has, with the value, the average and that percentile |
| Chatbot.FirstGroup | ai_chatbot.py:26-54 | returns the first group with a keyword in the question, or `None` when no group has one |
| Chatbot.FirstGroupIff | ai_chatbot.py:26-54 | group k is returned exactly when it matches and no earlier group does |
| Chatbot.ProcessQuery | ai_chatbot.py:21-54 | any handler other than the general one is chosen only when one of its keywords occurs in the lower-cased, stripped question |
| Chatbot.RouteOrderDistinct | ai_chatbot.py:26-51 | the seven routed handlers are distinct |
| Chatbot.RoutePriority | ai_chatbot.py:21-54 | handler k is chosen exactly when its group matches the lower-cased, stripped question and no earlier group does |
| Chatbot.GeneralIffNoKeyword | ai_chatbot.py:53-54 | the general answer comes exactly when no group matches |
| Chatbot.PlayerKeywordWins | ai_chatbot.py:26-27 | any player keyword sends the question to the player handler |
| Chatbot.HelpHasNoPositionWord | ai_chatbot.py:45-51 | a question routed to help has no position keyword |
| Chatbot.NoPositionWordNoC | ai_chatbot.py:46 | without a position keyword, the letter c does not occur |
| Chatbot.HelpExcludesLetterC | ai_chatbot.py:46-51 | a question routed to help has no letter c |
| Chatbot.WhatCanHasC | ai_chatbot.py:50 | "what can" contains a c |
| Chatbot.WhatCanNeverReachesHelp | ai_chatbot.py:46-51 | a question containing "what can" is never routed to help |
| Chatbot.StatisticalTopic | ai_chatbot.py:128-165 | a chosen topic has one of its keywords in the question; no topic is chosen exactly when no topic's keyword occurs |
| Chatbot.FantasyTopicOf | ai_chatbot.py:167-203 | a chosen topic has one of its keywords in the question; no topic is chosen exactly when no topic's keyword occurs |
| Chatbot.StatisticalPriority | ai_chatbot.py:128-165 | topic k (fantasy, scorers, rebounders, assists) is chosen exactly when its keyword occurs and no earlier topic's does |
| Chatbot.FantasyPriority | ai_chatbot.py:167-203 | topic k (draft picks, sleepers, point guards) is chosen exactly when its keyword occurs and no earlier topic's does |
| Chatbot.PositionChoice | ai_chatbot.py:259-280 | a chosen position is one of PG, SG, SF, PF, C |
| Chatbot.PositionPriority | ai_chatbot.py:264-280 | position k is chosen exactly when one of its words occurs and no earlier position's does |
| Chatbot.StatisticsPreemptPositions | ai_chatbot.py:26-47 | a statistics keyword without a player keyword routes to statistics, whatever fantasy or position words follow |
| Chatbot.StatisticalGroupFirst | ai_chatbot.py:26-31 | in that case the statistics group is the first that matches |
| Chatbot.PointSelectsScorers | ai_chatbot.py:133-146 | "point" without "fantasy" selects the top scorers |
| Chatbot.SleeperList | ai_chatbot.py:181-186 | at most five rows, descending by fantasy points |
| Chatbot.SleepersQualify | ai_chatbot.py:181-186 | sleepers are table rows with 25 < FP < 35; there are min(5, such rows) of them; none left out scores higher than one listed |
| Chatbot.PositionList | ai_chatbot.py:283 | at most five rows, descending by fantasy points |
| Chatbot.PositionListQualify | ai_chatbot.py:283 | the position list holds table rows of that position, descending by fantasy points; it has min(5, rows at the position) rows, and no unlisted row at the position scores higher than a listed one |
| Chatbot.StripKeepsAbsence | ai_chatbot.py:374 | stripping a piece cannot create a separator |
| Chatbot.ExtractNames | ai_chatbot.py:369-387 | with " vs " or " versus " in the question, the names are non-empty, stripped and free of that separator; with neither and no "compare", no names |
| Chatbot.ExtractNamesShape | ai_chatbot.py:369-387 | with " vs ", the names are the cleaned pieces of splitting at " vs "; otherwise, with " versus ", those of splitting at " versus "; otherwise, with "compare", the names the regular expression gives; a separator makes that expression irrelevant |
| Chatbot.CleanedNames | ai_chatbot.py:374-377 | a name is kept exactly when it is the non-empty strip of some piece |
| Chatbot.SeparatedNames | ai_chatbot.py:372-377 | the names from splitting at a separator are non-empty, stripped and free of it |
| Chatbot.CleanedPieces | ai_chatbot.py:374 | the kept pieces are non-empty, stripped and free of the separator |
| Chatbot.FirstMatch | ai_chatbot.py:216-218 | a match is the first table row whose lower-cased name contains the name; there is none exactly when no row's does |
| Chatbot.FoundRows | ai_chatbot.py:213-218 | at most one row per name; every found row is the first match of some name, and every name's first match is found |
| Chatbot.FoundRowsInOrder | ai_chatbot.py:213-218 | one row per name that has a match, in the order of the names, each the first match of its name |
| Chatbot.BestIndex | ai_chatbot.py:232 | the first row with the most fantasy points |
| Chatbot.Compare | ai_chatbot.py:205-235 | fewer than two names, or fewer than two found rows, give the matching refusal, both ways; otherwise the winner is the first found row with the most fantasy points |
| Chatbot.FantasyImpact | ai_chatbot.py:118-124 | elite exactly above 40, strong exactly in (30, 40], role player exactly at or below 30 |
| Chatbot.ImpactMonotone | ai_chatbot.py:118-124 | more fantasy points never give a lower impact tier |
| Chatbot.ListedFrom | ai_chatbot.py:134-196 | every row of a top-n list comes from the listed table |
| Chatbot.Answer | ai_chatbot.py:21-288 | help, general, player and team replies come exactly from their handlers; a comparison reply comes exactly from the comparison handler and holds `Compare` of the extracted names; lists and suggestions come exactly from the statistics, fantasy and position handlers; a statistics topic lists the five largest of its column, draft picks the ten highest fantasy scorers, sleepers the sleeper list, point-guard picks and a named position the position list; a suggestion comes exactly when the handler finds no topic |
| Chatbot.AnswerListsTableRows | ai_chatbot.py:128-288 | every list the bot answers with has at most ten rows, all from the table |
| Chatbot.PositionAnswerRows | ai_chatbot.py:259-288 | a position question with a recognised position answers with that position's list, whose rows all play it |
| Strings.ContainsIff | ai_chatbot.py:26 | `word in q` holds exactly when the word occurs at some index |
| Strings.IndexOf | ai_chatbot.py:373 | the first index where the separator occurs, or none when it never does |
| Strings.Split | ai_chatbot.py:373 | `split(sep)`: at least one piece; joining the pieces with the separator gives back the string; no piece contains the separator; each cut is at the leftmost occurrence, since no occurrence starts inside a piece and runs into the separator after it |
| Strings.Lower | ai_chatbot.py:23 | `lower()`: same length, each letter lowered, no upper-case letter left |
| Strings.StripLeft | ai_chatbot.py:23 | removes exactly the leading whitespace |
| Strings.StripRight | ai_chatbot.py:23 | removes exactly the trailing whitespace |
| Strings.StripShape | ai_chatbot.py:23 | a stripped string is empty or starts and ends with non-space |
| Strings.StripIdempotent | ai_chatbot.py:374 | stripping twice equals stripping once |
| Strings.LessTransitive | utils.py:91-92 | the string order used by `sorted` is transitive |
| Strings.LessTotal | utils.py:91-92 | any two different strings are ordered |
| Strings.SortedDistinct | utils.py:91-92 | `sorted(unique(...))`: strictly ascending, with exactly the input's values |
| Strings.StrictlySortedUnique | utils.py:91-92 | two strictly ascending lists with the same values are equal |
| Seqs.MaskSubsequence | data_processing.py:105-111 | boolean-mask selection keeps an order-preserving subsequence |
| Seqs.FilterMembers | data_processing.py:134-145 | a filtered table holds exactly the rows that pass the test |
| Seqs.FilterFilter | data_processing.py:133-145 | two filters in a row equal one filter on their conjunction |
| Seqs.InsertDesc | data_processing.py:171 | inserting into a descending list keeps it descending and adds exactly one element |
| Seqs.SortDesc | data_processing.py:171 | `sort_values(ascending=False)`: descending and a permutation |
| Seqs.NLargest | data_processing.py:181 | `nlargest(n)`: min(n, size) rows, descending, drawn from the input, and no omitted row above a returned one |
| Seqs.NSmallest | utils.py:130 | `nsmallest(n)`: min(n, size) rows, ascending, drawn from the input, and no omitted row below a returned one |
| Seqs.SumPermutation | data_processing.py:188 | a sum does not depend on the order of the rows |

## Left out

- File reading (`pd.read_excel`) and the `try`/`except` around the loader: `LoadData` takes the rows as read, each with the set of its missing cells.
- NaN and infinity do not exist in the model.
  - A mean over no rows is `None`.
  - A missing summary column gives its default.
- DataProcessing.DeriveMetrics: requires MP ≠ 0. For a zero-minute row `load_data` divides by zero, and pandas yields an infinite usage rate, which exact reals cannot represent. `LoadData` and the lemmas about the loaded table therefore require MP ≠ 0 only of the rows the resolver keeps; rows it drops may have zero minutes.
- `.round(1)` on the aggregates, number formatting, and the text of every answer: the model keeps exact values and replaces the replies by the `Reply` datatype.
- Tie order: `sort_values`, `nlargest` and `nsmallest` are modelled as stable.
  - For rows with equal keys, the model's order may differ from the order pandas picks.
  - The contracts state only sortedness, permutation and selection.
- Duplicated names are resolved in ascending name order. The source visits them in `value_counts` order, and the result does not depend on the order.
- `Strings.Lower` lowers only ASCII letters. `str.lower` also lowers non-ASCII letters.
- The regular-expression name split after "compare" (ai_chatbot.py:379-385) is not modelled. Its result is the parameter `compareNames` of `Chatbot.ExtractNames`.
- Chatbot.FirstMatch: `str.contains(name, case=False)` treats the name as a regular expression. The model matches it as a literal lower-case substring.
- The player handler's name extraction and three-strategy lookup (ai_chatbot.py:56-126, 334-367) are not modelled, and neither are the team handler and its name extraction (ai_chatbot.py:237-257, 389-405). The model keeps their routing and the impact tiers of the player answer (`Chatbot.FantasyImpact`).
- The chatbot's `context` updates are not modelled.
- Formatting helpers, `get_stat_categories`, `calculate_league_averages` and `calculate_consistency_score` (which uses a square root) are not part of this model.
- The dashboard UI, the charts and the setup scripts are not part of this model. The scikit-learn imports are unused by the modelled code.
- `calculate_weighted_fantasy_score` (utils.py:31-39) is the same formula as the ranking's weighted score. It is defined once, as `DataProcessing.WeightedFantasyScore`.
- `Utils.GetTopPerformers` and `Utils.GetBottomPerformers` take the metric as a function rather than a column name. An unknown column (a `KeyError` in pandas) is not modelled.
