# robostat scoring core in Dafny

This project models the scoring layer of robostat, the results service for
robotics tournaments. There is one Dafny module per Python source file:

- **XSumo** (`robostat/rulesets/xsumo.py`) covers sumo matches:
  - the L/T/W result enum with its ASCII wire codes and its `opposite` table;
  - the XS and XM round kinds and their points;
  - match totals and `calc_results`;
  - the pairwise `validate`, which checks its conditions in order;
  - the `[result][nrounds]{round}` byte codec, written as a BytesIO cursor
    loop and a bytearray append loop;
  - `XSumoRank.from_scores` and its two orderings.
- **Rescue** (`robostat/rulesets/rescue.py`) covers the rescue course:
  - an obstacle category's score, codec and validation;
  - a repeatable obstacle's list score;
  - the weight and name tables, and the three tier shapes built from them;
  - a score's total, its minutes and seconds, and its ordering.
- **Tanssi** (`robostat/rulesets/tanssi.py`) covers dance judging:
  - one-byte categories bounded by a maximum;
  - a score's total and its ordering;
  - the 2019 category tables, sorted by name;
  - `get_dance_rulesets`.
- **Haastattelu** (`robostat/rulesets/haastattelu.py`) is the one-byte
  boolean interview codec.
- **Ruleset** (`robostat/ruleset.py`) holds `ValidationError`, `num_teams`,
  the abstract codec members and the default `validate`.
- **Tournament** (`robostat/tournament.py`) covers:
  - the block and ranking registries (a class over two duplicate-rejecting
    maps);
  - the `name or id` default;
  - the None-or-decode mapping of `decode_block_scores`;
  - `aggregate_scores` (two loops);
  - `sort_ranking`, a descending stable sort.
- **Util** (`robostat/util.py`) covers:
  - `udict`, a class whose `SetItem` rejects duplicate keys;
  - `enumerate_rank`, a loop that does competition numbering;
  - `noneflt`.
- **Rsx** (`robostat/rsx/crud.py` and `robostat/rsx/modify.py`) covers
  `_split_selectors` (a loop) and the selector classification in
  `query_named`.

Three helper modules support the rest:

- **Common** holds Option, Result and Outcome, bytes, and the Python
  exception kinds. A raised exception becomes an error value.
- **ByteIO** models an `io.BytesIO` read cursor and a `bytearray` as
  classes.
- **PyInt** models Python's `int(str)` on ASCII text: surrounding
  whitespace, a sign, and digit groups separated by single underscores.

Imperative code in the source becomes methods with loops. Each method is
proved equal to a specification function, and the properties are proved
about that function. Pure code becomes functions and lemmas.

The model follows the code as written, including these behaviours:

- `decode` of an xsumo score ignores bytes after the last round.
- A truncated XM round reads fewer results instead of failing.
- Any nonzero "first" byte decodes as `True`.
- Two rescue scores with equal totals compare by time, and the smaller time
  compares less.
- Tier 1 of the rescue course has seven obstacle fields after the time.
- An obstacle's `validate` rejects SUCCESS_2 even in a category that
  allows retries: the retry flag only chooses between the two messages.

## Model

| member | source | states |
|---|---|---|
| XSumo.XSumoResult.Opcode | robostat/rulesets/xsumo.py:23-25 | the wire code is the ASCII code of the result's letter |
| XSumo.OppositeIsInvolution | robostat/rulesets/xsumo.py:19-35 | `opposite` applied twice is the identity; T is the only result that is its own opposite and the only one whose opposite is T, so W and L swap |
| XSumo.ByOpcode | robostat/rulesets/xsumo.py:27-29 | only the bytes 76, 84 and 87 decode; the result's opcode is the byte; any other byte is a ValueError |
| XSumo.ByOpcodeOfOpcode | robostat/rulesets/xsumo.py:23-29 | `by_opcode(r.opcode) == r` for every result |
| XSumo.ResultOf | robostat/rulesets/xsumo.py:57-62 | W iff ns1 > ns2, L iff ns1 < ns2, T iff they are equal |
| XSumo.ResultOfSwapped | robostat/rulesets/xsumo.py:57-62 | swapping the totals gives the opposite result |
| XSumo.CreateScore | robostat/rulesets/xsumo.py:135-136 | a new score has no result and no rounds |
| XSumo.Scoring | robostat/rulesets/xsumo.py:207 | the whole `SCORING` table: a loss is worth 0, a tie 1 and a win 3 |
| XSumo.Points | robostat/rulesets/xsumo.py:213-214 | an XS round is worth between 0 and 4 points |
| XSumo.XSPointsRange | robostat/rulesets/xsumo.py:204-214 | an XS round is worth 0 to 4 points, and 4 exactly when it was first and won |
| XSumo.Total | robostat/rulesets/xsumo.py:45-46 | a match of n XS rounds totals between 0 and 4n |
| XSumo.TotalConcat | robostat/rulesets/xsumo.py:45-46 | a match total is additive over the rounds |
| XSumo.CalcResults | robostat/rulesets/xsumo.py:64-66 | rounds are kept; s1's result compares the two totals and s2's result is its opposite |
| XSumo.ExampleMatches | robostat/rulesets/xsumo.py:45-66 | worked matches: (first, W) against L is 4-0 and a win, (first, T) against T is 2-1, two crossed rounds are 4-4 and a tie, and XM pseudo-rounds (1,0), (2,2) are 3-2 |
| XSumo.CalcResultsSymmetric | robostat/rulesets/xsumo.py:64-66 | s2's result is also the comparison of s2's total with s1's |
| XSumo.RoundResultShapes | robostat/rulesets/xsumo.py:199-202 | `round_result_valid` holds exactly for L-L, W-L, T-T and L-W, and is symmetric |
| XSumo.PseudoroundShapes | robostat/rulesets/xsumo.py:261-271 | a pseudo-round pair is valid iff it is one of (3,0), (0,3), (1,0), (0,1) or (2,2) |
| XSumo.ValidateRound | robostat/rulesets/xsumo.py:232-302 | XS: both first fails with "Both marked first"; one first passes iff the results are compatible, else "Invalid result: (%s, %s)"; nobody first passes iff both lost, else "Invalid result: Expected L-L got (%s, %s)". XM: a length difference fails with "Result length mismatch: %d != %d"; otherwise passes iff every pseudo-round pair is valid |
| XSumo.ValidatePseudorounds | robostat/rulesets/xsumo.py:295-302 | passes iff every pair of pseudo-round results is valid; otherwise fails on the first invalid pair with "Invalid result: (a, b)" naming its two values |
| XSumo.XSRoundShapes | robostat/rulesets/xsumo.py:199-245 | an XS round pair passes iff it is one of the nine listed shapes |
| XSumo.ValidateRoundPairs | robostat/rulesets/xsumo.py:170-171 | passes iff every round pair passes; otherwise fails with the error of the first failing pair, every earlier pair having passed |
| XSumo.Validate | robostat/rulesets/xsumo.py:155-171 | passes iff the two scores are consistent; the checks run in order (unset, conflicting results, conflicting scores, round count, round pairs) and the first failing one decides the error, whose message carries the formatted results, totals or counts; a round-pair failure is the first failing pair's |
| XSumo.CalcResultsValidates | robostat/rulesets/xsumo.py:155-171 | after `calc_results`, validation passes iff the round counts agree and every round pair is valid |
| XSumo.ValidIsSymmetric | robostat/rulesets/xsumo.py:155-171 | a validated pair has opposite results, and s2's result matches s2's view of the totals |
| XSumo.DecodeRoundAt | robostat/rulesets/xsumo.py:224-289 | a decoded round consumes at least one byte, stays within the data and has the format's kind |
| XSumo.DecodeRoundsFrom | robostat/rulesets/xsumo.py:143-144 | decoding n rounds yields n more rounds and a position within the data |
| XSumo.Decoding | robostat/rulesets/xsumo.py:138-145 | a decoded score has a result, and as many rounds as its second byte says |
| XSumo.DecodedRoundsFit | robostat/rulesets/xsumo.py:143-144 | every decoded round has the ruleset's round kind |
| XSumo.DecodingFits | robostat/rulesets/xsumo.py:138-145 | a decoded score's rounds all have the ruleset's round kind |
| XSumo.DecodeRound | robostat/rulesets/xsumo.py:224-289 | reading a round from the stream returns the specified round and advances the cursor past it |
| XSumo.Decode | robostat/rulesets/xsumo.py:138-145 | the cursor loop computes the decoding specified by `Decoding` |
| XSumo.EncodeRound | robostat/rulesets/xsumo.py:228-293 | an encoded round is at least one byte |
| XSumo.EncodeRounds | robostat/rulesets/xsumo.py:151-152 | a successful encoding of the rounds has at least one byte per round |
| XSumo.EncodeRoundsSucceeds | robostat/rulesets/xsumo.py:151-152 | the rounds encode iff every round encodes |
| XSumo.Encoding | robostat/rulesets/xsumo.py:147-153 | starts with `[opcode][len(rounds)]`; fails iff the result is unset, the round count is not a byte, or a round does not encode |
| XSumo.EncodeRoundInto | robostat/rulesets/xsumo.py:228-293 | appends exactly the round's encoding, or reports its error |
| XSumo.EncodeStep | robostat/rulesets/xsumo.py:151-152 | appending one round's bytes moves the loop to the next round |
| XSumo.EncodeRoundsInto | robostat/rulesets/xsumo.py:151-152 | the loop appends exactly the rounds' encoding, or reports the error of the first round that does not encode |
| XSumo.Encode | robostat/rulesets/xsumo.py:147-153 | writing the header and then running the round loop computes the encoding specified by `Encoding` |
| XSumo.DecodeRoundOfEncoding | robostat/rulesets/xsumo.py:224-293 | decoding a round's encoding at any position restores the round and consumes exactly its bytes |
| XSumo.EncodeRoundsCons | robostat/rulesets/xsumo.py:151-152 | the encoding of the rounds is the first round's bytes followed by the rest |
| XSumo.DecodeRoundsStep | robostat/rulesets/xsumo.py:143-144 | one loop iteration decodes one round and moves on |
| XSumo.FirstRoundOfEncoding | robostat/rulesets/xsumo.py:143-153 | decoding encoded rounds starts by restoring the first round |
| XSumo.DecodeRoundsOfEncodingTo | robostat/rulesets/xsumo.py:143-153 | decoding the encoding of a round list restores it and stops at its end |
| XSumo.DecodeRoundsOfEncoding | robostat/rulesets/xsumo.py:143-153 | decoding the encoded rounds restores them, whatever precedes them |
| XSumo.DecodeOfEncoding | robostat/rulesets/xsumo.py:138-153 | `decode(encode(s) + extra) == s` for every encodable score, whatever bytes follow |
| XSumo.TruncatedXMRoundAccepted | robostat/rulesets/xsumo.py:284-286 | an XM round whose length byte overruns the data decodes to a shorter list |
| XSumo.NonzeroFirstByteAccepted | robostat/rulesets/xsumo.py:224-226 | any nonzero first byte decodes as `True` and re-encodes as 1 |
| XSumo.TallyOf | robostat/rulesets/xsumo.py:100-109 | a missing score is unplayed and nothing else is; a score without a result counts as a loss |
| XSumo.TalliesPartition | robostat/rulesets/xsumo.py:91-109 | wins, ties, losses and unplayed add up to the number of scores |
| XSumo.FromScores | robostat/rulesets/xsumo.py:95-111 | the counting loop gives the summed played totals and the four counts; played plus unplayed is the number of scores |
| XSumo.ScoreRankOrder | robostat/rulesets/xsumo.py:113-120 | ranking by score is a strict weak order |
| XSumo.ScoreRankEq | robostat/rulesets/xsumo.py:116-117 | `==` holds iff neither rank is below the other |
| XSumo.WinsRankOrder | robostat/rulesets/xsumo.py:122-131 | ranking by (wins, ties) is a strict weak order |
| XSumo.WinsRankLexicographic | robostat/rulesets/xsumo.py:128-131 | `<` is the lexicographic order on (wins, ties) |
| XSumo.WinsRankEq | robostat/rulesets/xsumo.py:125-126 | `==` holds iff neither rank is below the other |
| Rescue.ObstacleScore | robostat/rulesets/rescue.py:79-99 | the score is `(val*max)` floor-divided by 2: FAIL scores 0, SUCCESS_2 half of max, SUCCESS_1 max |
| Rescue.ObstacleDecode | robostat/rulesets/rescue.py:101-102 | returns the first byte and consumes one byte; empty data is an IndexError |
| Rescue.ObstacleEncode | robostat/rulesets/rescue.py:104-105 | appends exactly the value as one byte; a non-byte value is a ValueError and leaves the buffer unchanged |
| Rescue.ObstacleRoundTrip | robostat/rulesets/rescue.py:101-105 | decoding an encoded byte restores it and consumes one byte |
| Rescue.ObstacleValidate | robostat/rulesets/rescue.py:107-111 | accepts only FAIL and SUCCESS_1; SUCCESS_2 fails whether or not retries are allowed, and that flag only picks the message |
| Rescue.ValidatedObstacleScore | robostat/rulesets/rescue.py:98-111 | a validated obstacle scores 0 or its whole weight |
| Rescue.ListScore | robostat/rulesets/rescue.py:113-116 | an empty list scores 0; n valid judgements score between 0 and n times the weight |
| Rescue.ListScoreConcat | robostat/rulesets/rescue.py:113-116 | the list score is additive over the list |
| Rescue.MakeCat | robostat/rulesets/rescue.py:154-158 | an obstacle with the given weight that allows retries, wrapped in a list iff its name is in REPEAT |
| Rescue.TierViivaPrefixes | robostat/rulesets/rescue.py:38-77 | each tier's line obstacles extend those of the tier below |
| Rescue.CatOf | robostat/rulesets/rescue.py:161 | the category has the name's weight and allows retries, and is a list exactly for the REPEAT names |
| Rescue.GetCats | robostat/rulesets/rescue.py:160-164 | "time" comes first, then each name with its category, in order; an unknown name is a KeyError |
| Rescue.GetCatsTierShape | robostat/rulesets/rescue.py:160-164 | a built shape has the tier shape: time first, then the named categories |
| Rescue.Rescue1Shape | robostat/rulesets/rescue.py:166 | tier 1 builds, with the time and seven obstacle fields in the listed order |
| Rescue.Rescue2Shape | robostat/rulesets/rescue.py:167 | tier 2 builds, with 13 fields in the listed order |
| Rescue.Rescue3Shape | robostat/rulesets/rescue.py:168 | tier 3 builds, with 16 fields in the listed order |
| Rescue.FieldPoints | robostat/rulesets/rescue.py:129-131 | the time field adds nothing; a judged obstacle adds between 0 and its weight |
| Rescue.PointsIgnoreTime | robostat/rulesets/rescue.py:129-131 | changing a time field does not change the points |
| Rescue.TimeNeverCounts | robostat/rulesets/rescue.py:129-131 | a score's total does not depend on its time |
| Rescue.TimeMin | robostat/rulesets/rescue.py:121-123 | the minutes are the floor of time/60: minutes*60 <= time < minutes*60 + 60 |
| Rescue.TimeSec | robostat/rulesets/rescue.py:121-127 | seconds lie in 0..59, and minutes times 60 plus seconds is the time |
| Rescue.OrderingIsTotal | robostat/rulesets/rescue.py:136-144 | `<` is irreflexive, asymmetric and transitive; `==` holds iff neither is less |
| Rescue.Eq | robostat/rulesets/rescue.py:136-137 | `==` (equal totals and equal times) holds iff neither score is less |
| Rescue.SlowerIsGreater | robostat/rulesets/rescue.py:139-144 | with equal totals, the smaller time compares less |
| Tanssi.TableMaxima | robostat/rulesets/tanssi.py:4-58 | the interview maxima sum to 30 and the performance maxima to 50 |
| Tanssi.DecodeAt | robostat/rulesets/tanssi.py:67-68 | reads exactly one byte; at the end of the data it is an IndexError |
| Tanssi.Decode | robostat/rulesets/tanssi.py:67-68 | the stream returns the next byte and advances one position, or fails and stays put |
| Tanssi.Encode | robostat/rulesets/tanssi.py:70-71 | appends exactly the value as one byte; a non-byte value is a ValueError and leaves the buffer unchanged |
| Tanssi.Validate | robostat/rulesets/tanssi.py:73-77 | accepts v iff 0 <= v <= max; a negative value is reported before an over-max one |
| Tanssi.StrLess | robostat/rulesets/tanssi.py:98 | a proper prefix is less, and no string is less than itself |
| Tanssi.StrLessIrreflexive | robostat/rulesets/tanssi.py:97-98 | string order is irreflexive |
| Tanssi.StrLessTransitive | robostat/rulesets/tanssi.py:97-98 | string order is transitive |
| Tanssi.StrLessTotal | robostat/rulesets/tanssi.py:97-98 | any two distinct strings are ordered |
| Tanssi.Insert | robostat/rulesets/tanssi.py:97-98 | inserting into a name-sorted list keeps it sorted and adds exactly the item |
| Tanssi.SortByName | robostat/rulesets/tanssi.py:97-98 | the result is sorted by name and is a permutation of the input |
| Tanssi.Categories | robostat/rulesets/tanssi.py:97-98 | one category per table entry, carrying that entry's maximum |
| Tanssi.GetCats | robostat/rulesets/tanssi.py:97-98 | the categories of a table, sorted by name |
| Tanssi.MaxPointsConcat | robostat/rulesets/tanssi.py:4-58 | the sum of maxima is additive |
| Tanssi.MaxPointsInsert | robostat/rulesets/tanssi.py:97-98 | inserting a category adds its maximum |
| Tanssi.MaxPointsSorted | robostat/rulesets/tanssi.py:97-98 | sorting keeps the sum of maxima |
| Tanssi.MaxPointsOfTable | robostat/rulesets/tanssi.py:97-98 | the categories' maxima sum to the table's maxima |
| Tanssi.Blank | robostat/rulesets/tanssi.py:62 | a fresh score has every category at the default 0 |
| Tanssi.BlankTotal | robostat/rulesets/tanssi.py:62-83 | a blank score totals 0 |
| Tanssi.TotalOfUpdate | robostat/rulesets/tanssi.py:82-83 | setting one category changes the total by exactly the change in that value |
| Tanssi.BoundedSum | robostat/rulesets/tanssi.py:73-83 | values within their bounds sum to between 0 and the sum of the maxima |
| Tanssi.ValidTotalBounded | robostat/rulesets/tanssi.py:73-83 | a valid score totals between 0 and the sum of its maxima |
| Tanssi.Valid2019TotalsBounded | robostat/rulesets/tanssi.py:4-58 | a valid 2019 interview score is at most 30 and a performance score at most 50 |
| Tanssi.Eq | robostat/rulesets/tanssi.py:88-89 | `==` (equal totals) holds iff neither score is less |
| Tanssi.OrderingByTotal | robostat/rulesets/tanssi.py:88-92 | `<` is transitive and irreflexive |
| Tanssi.DecodeValues | robostat/rulesets/tanssi.py:67-68 | decoding n categories yields n values |
| Tanssi.DecodeValuesOfBytes | robostat/rulesets/tanssi.py:67-68 | decoding bytes one category at a time returns those bytes |
| Tanssi.ValuesRoundTrip | robostat/rulesets/tanssi.py:67-77 | a valid score whose maxima fit in a byte round-trips category by category |
| Tanssi.GetDanceRulesets | robostat/rulesets/tanssi.py:114-120 | succeeds iff `int(rev) == 2019`, with the two sorted 2019 shapes; otherwise a ValueError |
| Tanssi.Revision2019Accepted | robostat/rulesets/tanssi.py:114-116 | the revision "2019" is accepted |
| Haastattelu.CreateScore | robostat/rulesets/haastattelu.py:5-6 | a new score is False |
| Haastattelu.Encode | robostat/rulesets/haastattelu.py:11-12 | exactly one byte, 1 for True and 0 for False |
| Haastattelu.Decode | robostat/rulesets/haastattelu.py:8-9 | True iff the first byte is nonzero; empty data is an IndexError |
| Haastattelu.RoundTrip | robostat/rulesets/haastattelu.py:8-12 | `decode(encode(b) + rest) == b` for both booleans |
| Haastattelu.DecodeIgnoresTail | robostat/rulesets/haastattelu.py:8-9 | bytes after the first are ignored |
| Haastattelu.ReencodeNormalises | robostat/rulesets/haastattelu.py:8-12 | any byte decodes, and re-encodes as 0 or 1 |
| Ruleset.AbstractCreateScore | robostat/ruleset.py:8-9 | the base `create_score` raises NotImplementedError |
| Ruleset.AbstractDecode | robostat/ruleset.py:11-12 | the base `decode` raises NotImplementedError |
| Ruleset.AbstractEncode | robostat/ruleset.py:14-15 | the base `encode` raises NotImplementedError |
| Ruleset.DefaultValidate | robostat/ruleset.py:17-18 | the default `validate` accepts any number of scores |
| Tournament.NameOr | robostat/tournament.py:37-41 | a non-empty name is kept, and otherwise the id is used |
| Tournament.MakeBlock | robostat/tournament.py:37-41 | a block keeps its id and ruleset, and its name defaults to the id |
| Tournament.MakeRanking | robostat/tournament.py:100-104 | a ranking keeps its id and function, and its name defaults to the id |
| Tournament.NameDefaultsToId | robostat/tournament.py:100-104 | the name is the given name or the id, and is never empty for a non-empty id |
| Tournament.Tournament.constructor | robostat/tournament.py:17-19 | both registries start empty |
| Tournament.Tournament.AddBlock | robostat/tournament.py:21-24 | a new id adds the block; a known id is a DuplicateKeyError and leaves the registry unchanged |
| Tournament.Tournament.AddRanking | robostat/tournament.py:32-33 | a new id adds the ranking; a known id is a DuplicateKeyError and leaves the registry unchanged |
| Tournament.Tournament.RankingDecorator | robostat/tournament.py:26-30 | registers a ranking for `f` and returns `f`; a known id is a DuplicateKeyError and leaves the registry unchanged |
| Tournament.BlockMap | robostat/tournament.py:88 | every block is filed under its own id, and there are no more entries than blocks |
| Tournament.BlockMapKeys | robostat/tournament.py:88 | the id-to-block dict has exactly the blocks' ids |
| Tournament.BlockMapLastWins | robostat/tournament.py:88 | a repeated id maps to its last block |
| Tournament.DecodeRow | robostat/tournament.py:95 | an unjudged row gives (team, None); a judged row whose block is unknown is a KeyError; otherwise it succeeds iff the block's ruleset decodes the bytes, keeping the team |
| Tournament.DecodeRows | robostat/tournament.py:95-96 | succeeds iff every row decodes, one result per row in order; otherwise fails with the error of the first failing row, every earlier row having decoded |
| Tournament.DecodeBlockScores | robostat/tournament.py:87-96 | with no judged row it always succeeds, and a success has one entry per row |
| Tournament.DecodedRowTeam | robostat/tournament.py:95-96 | each result keeps its row's team, and an unscored row gives None |
| Tournament.DecodedRowUsesItsBlock | robostat/tournament.py:95-96 | a scored row is decoded by its own block's ruleset |
| Tournament.ScoredRowNeedsItsBlock | robostat/tournament.py:95-96 | a scored row whose block is not among the given blocks makes the whole mapping fail |
| Tournament.Group | robostat/tournament.py:115-116 | a team's group has no more entries than the input |
| Tournament.GroupComesFromInput | robostat/tournament.py:115-116 | a team's group holds only scores that the input pairs with that team |
| Tournament.Teams | robostat/tournament.py:113-120 | there are no more teams than scores |
| Tournament.TeamsAreDistinctInputTeams | robostat/tournament.py:112-116 | the teams are exactly the input's teams, each listed once |
| Tournament.GroupOfAbsent | robostat/tournament.py:115-116 | a team with no scores has an empty group |
| Tournament.PrefixStep | robostat/tournament.py:115-116 | each iteration appends the score to its team's group and adds a new team once |
| Tournament.NewTeamHasNoScores | robostat/tournament.py:115-116 | a team not yet seen has no scores |
| Tournament.GroupScores | robostat/tournament.py:112-116 | one key per distinct team, each holding that team's scores in input order |
| Tournament.AggregateScores | robostat/tournament.py:112-123 | one key per distinct team, each holding `aggregate` of that team's scores in input order |
| Tournament.GroupSizesStep | robostat/tournament.py:115-116 | one more score adds one to the group sizes iff its team is counted |
| Tournament.GroupsPartitionScores | robostat/tournament.py:112-116 | the group sizes add up to the number of scores |
| Tournament.InsertDesc | robostat/tournament.py:126 | insertion adds one entry, and the new first entry is the item or the old first entry |
| Tournament.SortRanking | robostat/tournament.py:125-126 | sorting keeps the number of entries |
| Tournament.InsertDescPermutes | robostat/tournament.py:125-126 | insertion adds exactly the item |
| Tournament.SortRankingPermutes | robostat/tournament.py:125-126 | the sorted ranking is a permutation of its input |
| Tournament.InsertDescDescending | robostat/tournament.py:125-126 | insertion keeps the list non-increasing by rank |
| Tournament.SortRankingDescending | robostat/tournament.py:125-126 | the sorted ranking is non-increasing by rank |
| Tournament.TiedWithConcat | robostat/tournament.py:125-126 | picking the entries tied with a rank is additive |
| Tournament.InsertDescStable | robostat/tournament.py:125-126 | insertion puts the item before the entries tied with it |
| Tournament.SortRankingStable | robostat/tournament.py:125-126 | entries with equal ranks keep their input order |
| Util.SetItemResult | robostat/util.py:6-9 | a known key is a DuplicateKeyError; a new key is added and every old binding is kept |
| Util.UDict.constructor | robostat/util.py:4 | a new dict is empty |
| Util.UDict.SetItem | robostat/util.py:6-9 | a known key is a DuplicateKeyError and changes nothing; a new key is inserted |
| Util.SetAll | robostat/util.py:6-9 | assignments succeed iff no key is already bound or repeated; then old bindings survive and every pair is bound, and otherwise the error is DuplicateKeyError |
| Util.RunStart | robostat/util.py:35-41 | the start of an item's run is at or before the item |
| Util.RunStartIsRunStart | robostat/util.py:35-41 | the run start has the item's key, and the item before it has a different key |
| Util.EnumerateRank | robostat/util.py:21-41 | one (rank, item) per item in input order; the rank is `start` plus the position where the item's run of equal keys begins |
| Util.RankSteps | robostat/util.py:32-41 | the first item ranks `start`; an equal key keeps the rank, and a new key takes its own position |
| Util.RanksNondecreasing | robostat/util.py:35-41 | ranks never decrease, and each is at most `start` plus the position |
| Util.CompetitionNumbering | robostat/util.py:21-41 | scores 10, 8, 8, 5 rank 1, 2, 2, 4 |
| Util.Somes | robostat/util.py:44 | removes exactly the None entries: every value is kept, the length drops by the number of Nones, and with no None the values come out in order |
| Util.SomesConcat | robostat/util.py:43-44 | filtering is additive over the input |
| Util.SomesSingle | robostat/util.py:44 | a single value passes the filter, and a None before it is dropped |
| Util.NoneFlt | robostat/util.py:43-44 | with nothing missing, `func` sees every value in order |
| Util.NoneFltIgnoresNone | robostat/util.py:43-44 | a None in the input does not change `func`'s result |
| Rsx.Split | robostat/rsx/crud.py:10-20 | the only failure is a ValueError; on success every selector goes to exactly one of the two lists |
| Rsx.SplitSelectors | robostat/rsx/crud.py:10-20 | the splitting loop computes the specified split |
| Rsx.SplitFailurePersists | robostat/rsx/crud.py:14-16 | once a selector fails to parse, the whole split fails with a ValueError |
| Rsx.NamesConcat | robostat/rsx/crud.py:17-18 | names are additive over the selectors |
| Rsx.Names | robostat/rsx/crud.py:17-18 | the names are input selectors that are not `%` selectors, no more of them than selectors |
| Rsx.Ids | robostat/rsx/crud.py:15-16 | there are no more ids than selectors |
| Rsx.IdsParseConcat | robostat/rsx/crud.py:15-16 | if all ids parse, then all ids of each part parse |
| Rsx.IdsConcat | robostat/rsx/crud.py:15-16 | ids are additive over the selectors |
| Rsx.NamesSnoc | robostat/rsx/crud.py:14-18 | a last `%` selector adds no name; any other last selector is appended to the names unchanged |
| Rsx.IdsSnoc | robostat/rsx/crud.py:14-18 | a last `%` selector appends `int(s[1:])` to the ids; any other adds none |
| Rsx.IdsParseSnoc | robostat/rsx/crud.py:15-16 | all ids parse iff those before the last do and the last one does |
| Rsx.SplitMeaning | robostat/rsx/crud.py:10-20 | succeeds iff every `%` selector parses; then the ids and names are the order-preserving split, and their lengths add up to the input's |
| Rsx.IdSelectorRoundTrip | robostat/rsx/crud.py:15-16 | `%` followed by the decimal form of n splits to the id n |
| Rsx.ClassifySelector | robostat/rsx/modify.py:9-21 | empty is "Missing identifier"; `@` selects by name; anything else succeeds iff `int(srch)` parses, and then selects exactly that id; otherwise "Not a valid id" |
| Rsx.NameSelectorRoundTrip | robostat/rsx/modify.py:13-14 | `@name` looks up `name` |
| Rsx.IdSearchRoundTrip | robostat/rsx/modify.py:16-21 | the decimal form of n looks up id n |
| Rsx.InvalidIdRefused | robostat/rsx/modify.py:16-19 | a non-integer selector is refused with "Not a valid id" |
| PyInt.StripLeft | robostat/rsx/crud.py:16 | removes leading whitespace only, and all of it |
| PyInt.StripRight | robostat/rsx/crud.py:16 | removes trailing whitespace only, and all of it |
| PyInt.Strip | robostat/rsx/crud.py:16 | the result is a slice of the text with only whitespace cut on either side, and it neither starts nor ends with whitespace |
| PyInt.DropUnderscores | robostat/rsx/crud.py:16 | takes out underscores only: the result is no longer than the text, has no underscore, and digits and underscores become digits only |
| PyInt.DropUnderscoresConcat | robostat/rsx/crud.py:16 | removing underscores is additive over concatenation |
| PyInt.DropUnderscoresChar | robostat/rsx/crud.py:16 | an underscore disappears and any other character is kept |
| PyInt.GroupedIsDigitGroups | robostat/rsx/crud.py:16 | two digit runs joined by one underscore are valid digit groups |
| PyInt.DropGroupUnderscore | robostat/rsx/crud.py:16 | dropping the underscore between two digit runs joins them |
| PyInt.Digits | robostat/rsx/crud.py:16 | the decimal form of a natural number is a non-empty digit string |
| PyInt.Decimal | robostat/rsx/crud.py:16 | `str(n)` starts with a minus sign exactly for negative n, followed by a non-empty digit string |
| PyInt.DigitsValueOfDigits | robostat/rsx/crud.py:16 | the value of a number's decimal digits is that number |
| PyInt.DropUnderscoresOfDigits | robostat/rsx/crud.py:16 | a digit string has no underscores to drop |
| PyInt.StripOfUnpadded | robostat/rsx/crud.py:16 | text without surrounding whitespace is unchanged by stripping |
| PyInt.ParseDigits | robostat/rsx/crud.py:16 | an unsigned decimal form parses back to its number |
| PyInt.ParseInt | robostat/rsx/modify.py:17 | text parses iff, once stripped, it is digit groups with an optional sign |
| PyInt.ParseOfUnpadded | robostat/rsx/modify.py:17 | unpadded text parses by its sign and its unsigned remainder |
| PyInt.ParseNonNegative | robostat/rsx/modify.py:17 | `int(str(n)) == n` for n >= 0 |
| PyInt.ParseMinus | robostat/rsx/modify.py:17 | a minus sign negates an unsigned number |
| PyInt.ParseMinusDigits | robostat/rsx/modify.py:17 | a minus sign before a decimal form gives the negated number |
| PyInt.ParseNegative | robostat/rsx/modify.py:17 | `int(str(n)) == n` for n < 0 |
| PyInt.ParseDecimal | robostat/rsx/modify.py:17 | `int(str(n)) == n` for every integer |
| PyInt.StripLeftSpace | robostat/rsx/crud.py:16 | leading whitespace is dropped one character at a time |
| PyInt.StripLeftOneSpace | robostat/rsx/crud.py:16 | one whitespace character before unpadded text is exactly what stripping removes |
| PyInt.ParseGrouped | robostat/rsx/crud.py:16 | an underscore between two digit runs does not change the value: "1_000" parses like "1000" |
| PyInt.ParseGroupedThousand | robostat/rsx/crud.py:16 | `int(" 1_000\n")` is 1000 |
| PyInt.ParseYear | robostat/rulesets/tanssi.py:115 | a four-digit year parses to its value |
| ByteIO.ReadAt | robostat/rulesets/xsumo.py:139-142 | `read(n)` returns at most n bytes, the ones at the cursor |
| ByteIO.ByteStream.constructor | robostat/rulesets/xsumo.py:139 | a new stream is at position 0 over the data |
| ByteIO.ByteStream.Read | robostat/rulesets/xsumo.py:141-142 | returns the bytes at the cursor and advances past them |
| ByteIO.ByteBuffer.constructor | robostat/rulesets/xsumo.py:148 | a new buffer is empty |
| ByteIO.ByteBuffer.Append | robostat/rulesets/xsumo.py:149-150 | appends one byte; a non-byte is a ValueError and leaves the buffer unchanged |
| ByteIO.ByteBuffer.Extend | robostat/rulesets/xsumo.py:293 | appends all the bytes, or none with a ValueError if any is not a byte |

## Left out

- Persistence, the command line and the terminal output are not part of
  this model. That covers the SQLAlchemy schema, the click commands, the
  timetable import, the query builders in `robostat/tournament.py`, the
  database lookups of `query_named` and `del_block`/`del_team`, and all
  `__str__`/`__repr__` formatting. A database lookup becomes the
  `Lookup` value that `ClassifySelector` returns.
- `cat_score`, `CategoryRuleset`, `IntCategory` and `ListCategory` are
  imported by the rescue and dance rules but are not part of this model.
  Their whole-score codec, defaults and validation are therefore modelled
  only per category. Left out with them are the unsigned time field's
  checks and the list category's codec and validation. The dance round
  trip is proved category by category over a list of values.
- `Ranking.__call__` and `Ranking.__getattr__` forward to the wrapped
  function. They are Python call plumbing, so a ranking only records `f`.
- `util.lazy` is an attribute-caching descriptor and is left out.
- The global `default_tournament` and its swap context manager are left
  out, because they are ambient state.
- XSumo.CalcResults: it returns the updated pair of scores instead of
  assigning the two `result` fields in place, so aliasing between the two
  arguments is not modelled.
- PyInt: the model accepts ASCII digits and ASCII whitespace only. Python's
  `int` also accepts other Unicode digits and spaces.
- The dance codec reads and writes one category at a time (`read(1)[0]`
  and `append`). The loop over a score's categories belongs to
  `CategoryRuleset`, so only the value-list round trip is modelled.
- The score rows of `decode_block_scores` are given as values. The
  database fetch that produces them is not modelled.
- Util.EnumerateRank: keys are compared with structural equality, while
  the source's `kk != k` uses the key type's own `__eq__` (the rank
  classes compare only some fields, e.g. `XSumoScoreRank` only the
  score). The model agrees with the source when the key function
  returns exactly the compared fields.
- Python's `sorted(..., reverse=True)` in `sort_ranking` is modelled as a
  stable insertion sort. The rank values' `<` is a parameter that must be a
  strict weak order, as the rank types' orderings are.
