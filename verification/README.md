# Sokar: verified models

Dafny models of the self-contained algorithms in Sokar's voice benches, seeds and
agent client, with proofs of what they promise. `dafny verify dfyconfig.toml` checks
the whole project.

| module | models |
|---|---|
| `EditDistance` | the two-row edit distance and the word error rate of normalised texts |
| `FrenchNumbers`, `SpelledLetters`, `SpokenTimes`, `TimePhrases`, `Normalizer`, `Phrases`, `KeyedPhrases`, `CanonicalTexts` | the transcript normaliser: spelled letters, number words, clock times, the pipeline, the phrase search on padded strings, and texts normalised twice |
| `TablePlacement`, `TableGroups` | greedy seating of reservations at tables, and the plans on which it is optimal |
| `WorkerPool` | workers that share a cursor, a result array and a stop flag |
| `FluxSession`, `TuningSession`, `FluxHistory`, `TuningHistory` | two streaming sessions as event machines around a settlement latch, and their outcomes told from the events alone |
| `StreamDecoder` | the incremental decoder of completion streams |
| `Segments`, `Turns` | speech segmentation and the attribution of caller segments to turns |
| `Alaw` | the A-law codec and a second encoder |
| `Bootstrap` | interpolated percentiles and the bootstrap interval |
| `WavHeader` | the RIFF chunk walk |
| `CompanionSeed` | thinning the anomaly day, and linking phone reservations to calls |
| `AgentRunner` | the multi-turn agent loop |
| `Texts`, `Sorting`, `Wrappers` | white space, words and transcripts; a stable sort; optional values |

Code that works step by step is a method, on a class where the source keeps shared
variables, and its `ensures` ties it to a function of its inputs or of the old state;
the lemmas then prove what the source promises about that function. Callbacks,
network chunks, timers, provider messages and session outcomes are arbitrary inputs,
so the results hold for every order of events and every interleaving.

Where the code does not do what its documentation suggests, the model follows the code:

- The normaliser is to write numbers as digits, but no list of words gives 77, 78 or 79
  (`AcceptedValues`, `SeventySevenIsSplit`): the branch at lines 70-75 of
  `nb-normalize.ts` accepts units 1 to 6 after `soixante dix`.
- The word error rate is 0 for an empty reference, however long the hypothesis
  (`WerZeroIff`).
- The cue `de l apres midi` moves the hour to the afternoon, stays in the list, and its
  `midi` is then written as 12:00 (`AfternoonCueIsRewritten`). `CueSurvivesIff` and
  `PartOfDayIsLeftIff` say exactly when the words of a part of the day stay as they are.
- The branches for minutes in words are never reached in the pipeline, because the
  numbers pass runs first (`NoWordMinutesReachTimes`).
- The word tables are objects, so they also hold the inherited key `constructor`: that word, also
  when it is spelled out, is written as the text of a function. Texts normalise stably exactly
  when they do not name it (`NormalizeTextIdempotentIff`), and without it a phrase is found exactly
  as a sublist of tokens (`ContainsIffSublist`). `FoundInsideConstructor` is an input where the
  search goes wrong, `SearchIsRightIff` says exactly when it does not.
- A part of the day moves a spoken hour to the afternoon, but not a glued one: `8 heures 30 du
  soir` and `8h30 du soir` differ (`SpokenAndGluedAgree` says exactly when the forms agree).
- First-fit seating is optimal on every list of reservations exactly when any two tables of
  the plan take the same sizes of party or none in common (`OptimalIffGraded`);
  `GreedyMayLoseAParty` is an input on which it is not.
- A stream whose last line lacks its newline loses that line: `LastFragmentIsLost` is an
  input, `LineIsLostIff` and `NothingLostIff` say exactly when something is lost.
- The chunk walk compares ids after the ASCII decoder has dropped each byte's top bit, so a
  chunk before the samples can be taken for them (`HighBitsReadAsData`); `SamplesFoundIff`
  says exactly when the samples are found.

## Model

| member | source | states |
|---|---|---|
| `EditDistance.TokenEditDistance` | apps/api/scripts/voice-stt-bench/nb-normalize.ts:252-270 | the two-row loop returns the Levenshtein number `Lev` of the two token lists |
| `EditDistance.LevIsShortestChain` | apps/api/scripts/voice-stt-bench/nb-normalize.ts:251-270 | some chain of `Lev` single edits (one token inserted, deleted or substituted anywhere) joins the lists, and no chain is shorter |
| `EditDistance.LevIsLowerBound` | apps/api/scripts/voice-stt-bench/nb-normalize.ts:261-265 | no alignment of the two lists has fewer edits than `Lev` |
| `EditDistance.BestAlignment` | apps/api/scripts/voice-stt-bench/nb-normalize.ts:261-265 | an alignment with exactly `Lev` edits exists |
| `EditDistance.LevTriangle` | apps/api/scripts/voice-stt-bench/nb-normalize.ts:252-270 | triangle inequality |
| `EditDistance.LevSymmetric` | apps/api/scripts/voice-stt-bench/nb-normalize.ts:252-270 | symmetry in reference and hypothesis |
| `EditDistance.LevZeroIffEqual` | apps/api/scripts/voice-stt-bench/nb-normalize.ts:252-270 | distance zero exactly for equal lists |
| `EditDistance.LevBounds` | apps/api/scripts/voice-stt-bench/nb-normalize.ts:252-270 | at least the difference of lengths, at most the longer length |
| `EditDistance.WordErrorRate` | apps/api/scripts/voice-stt-bench/nb-normalize.ts:279-288 | the rate, distance and reference length of the normalised tokens of two texts, as the scorer reports them |
| `EditDistance.WerIs` | apps/api/scripts/voice-stt-bench/nb-normalize.ts:279-288 | the distance is that of a shortest chain of single edits, the length that of the reference, and rate times length is the distance; the rate is 0 without a reference |
| `EditDistance.WordsAndFiguresScoreAlike` | apps/api/scripts/voice-stt-bench/nb-normalize.ts:4-8 | a number in words and in figures scores the same against any text, as reference and as hypothesis, and 0 against each other |
| `EditDistance.WerZeroIff` | apps/api/scripts/voice-stt-bench/nb-normalize.ts:272-288 | a rate of zero means equal lists or an empty reference, and nothing else |
| `EditDistance.WerAboveOne` | apps/api/scripts/voice-stt-bench/nb-normalize.ts:273-288 | a rate above one needs a longer hypothesis; a hypothesis over twice as long always has one |
| `FrenchNumbers.ParseNumber` | apps/api/scripts/voice-stt-bench/nb-normalize.ts:10-82 | accepted lists are non-empty, read as at most 99, and lists of two tokens or more as at least 17; the one other value is the function that the key `constructor` inherits, perhaps with a digit appended to its text |
| `FrenchNumbers.ParseIffDenotes` | apps/api/scripts/voice-stt-bench/nb-normalize.ts:41-82 | the recursive parser accepts exactly the lists of a finite grammar, with the values of that grammar |
| `FrenchNumbers.SpellingsAre` | apps/api/scripts/voice-stt-bench/nb-normalize.ts:41-82 | the parser reads a list as a number exactly when it is one of the spellings of that number, word by word |
| `FrenchNumbers.InheritedIsRead` | apps/api/scripts/voice-stt-bench/nb-normalize.ts:41-82 | it reads the inherited function exactly from the key `constructor`, alone or with a unit from 1 to 9 behind it |
| `FrenchNumbers.AcceptedValues` | apps/api/scripts/voice-stt-bench/nb-normalize.ts:41-82 | a number has an accepted spelling exactly when it is at most 99 and not 77, 78 or 79 |
| `FrenchNumbers.FourTokensSuffice` | apps/api/scripts/voice-stt-bench/nb-normalize.ts:215-223 | the longest accepted prefix of any length is found among the first four tokens |
| `FrenchNumbers.WidestMatch` | apps/api/scripts/voice-stt-bench/nb-normalize.ts:214-223 | the inner loop finds the longest accepted list at its position, of any length |
| `FrenchNumbers.MapNumbers` | apps/api/scripts/voice-stt-bench/nb-normalize.ts:212-228 | the scan replaces, at each position, the longest accepted list of any length by its value |
| `FrenchNumbers.NumbersLeaveNoWord` | apps/api/scripts/voice-stt-bench/nb-normalize.ts:212-228 | no number word and no inherited key is left after the scan |
| `FrenchNumbers.NumbersFixpoint` | apps/api/scripts/voice-stt-bench/nb-normalize.ts:212-228 | the scan changes a list exactly when it holds one of those |
| `FrenchNumbers.SpelledNumberIsRead` | apps/api/scripts/voice-stt-bench/nb-normalize.ts:212-228 | any accepted list before an ordinary word is read whole, whatever follows |
| `FrenchNumbers.SeventySevenIsSplit` | apps/api/scripts/voice-stt-bench/nb-normalize.ts:70-75 | `soixante dix sept` gives `70 7`, while `quatre vingt dix sept` gives `97` |
| `SpelledLetters.JoinSpelledLetters` | apps/api/scripts/voice-stt-bench/nb-normalize.ts:104-120 | the nested loops compute `Join` |
| `SpelledLetters.JoinAtWord` | apps/api/scripts/voice-stt-bench/nb-normalize.ts:104-120 | a token that is not a single letter stays and separates the two sides |
| `SpelledLetters.JoinLettersOnly` | apps/api/scripts/voice-stt-bench/nb-normalize.ts:103-119 | a list of single letters becomes one token if it has three or more, and is kept otherwise |
| `SpelledLetters.JoinKeepsCharacters` | apps/api/scripts/voice-stt-bench/nb-normalize.ts:104-120 | no character is lost, added or moved |
| `SpelledLetters.JoinFixpoint` | apps/api/scripts/voice-stt-bench/nb-normalize.ts:104-120 | joining changes a list exactly when three single letters stand in a row |
| `SpokenTimes.NormalizeTimes` | apps/api/scripts/voice-stt-bench/nb-normalize.ts:131-207 | the loop computes `Times` |
| `SpokenTimes.Rewrite` | apps/api/scripts/voice-stt-bench/nb-normalize.ts:133-205 | one iteration writes what is told at its position and moves past it |
| `SpokenTimes.ReadMinutes` | apps/api/scripts/voice-stt-bench/nb-normalize.ts:148-171 | the minutes after an hour word, and the position after them |
| `TimePhrases.LongestPhraseIsRead` | apps/api/scripts/voice-stt-bench/nb-normalize.ts:131-207 | at each place the pass reads exactly the longest time said there: a glued form, an hour word with its minutes, or noon; only a spoken morning hour before a part of the day is moved by 12 |
| `TimePhrases.SpokenTimeIsRead` | apps/api/scripts/voice-stt-bench/nb-normalize.ts:145-186 | any numeral, hour word, minute phrase and part of the day give the clock they mean, before anything that does not go on with the time; the part of the day stays in the list |
| `TimePhrases.HourIsMovedIff` | apps/api/scripts/voice-stt-bench/nb-normalize.ts:172-184 | after any numeral, hour word and minutes, a morning hour is moved by 12 exactly when the rest begins with `du soir`, `du soiree`, or `de l` and `apres`, `midi` or `midis` |
| `TimePhrases.MorningIsNotMoved` | apps/api/scripts/voice-stt-bench/nb-normalize.ts:172-184 | `du matin` does not move the hour, whatever follows |
| `TimePhrases.NoonIsRead` | apps/api/scripts/voice-stt-bench/nb-normalize.ts:188-202 | noon alone, with the quarter or with the half gives 12:00, 12:15 or 12:30, before anything that does not go on with it |
| `TimePhrases.GluedTimeIsRead` | apps/api/scripts/voice-stt-bench/nb-normalize.ts:136-143 | `20h30` and `20h` read as hour and minute |
| `TimePhrases.AfternoonCueIsRewritten` | apps/api/scripts/voice-stt-bench/nb-normalize.ts:176-202 | after a morning hour and any minutes, the cue `de l apres midi` is itself written as 12:00 |
| `TimePhrases.CueSurvivesIff` | apps/api/scripts/voice-stt-bench/nb-normalize.ts:172-202 | the words of a part of the day stay in the list, before anything, exactly when they are not `de l midi` |
| `TimePhrases.PartOfDayIsLeftIff` | apps/api/scripts/voice-stt-bench/nb-normalize.ts:145-202 | after a spoken time, the part of the day and the rest stay as they are exactly when that part is not `de l midi` and no time is in the rest |
| `SpokenTimes.TimesLeaveNoTime` | apps/api/scripts/voice-stt-bench/nb-normalize.ts:131-207 | no glued time, no noon and no numeral before an hour word is left |
| `SpokenTimes.TimesFixpoint` | apps/api/scripts/voice-stt-bench/nb-normalize.ts:131-207 | the pass changes a list exactly when it holds one of those |
| `Normalizer.NormalizeTokens` | apps/api/scripts/voice-stt-bench/nb-normalize.ts:210-230 | the three passes in their order |
| `Normalizer.NormalizeIsCanonical` | apps/api/scripts/voice-stt-bench/nb-normalize.ts:210-230 | the result holds nothing any pass would change |
| `Normalizer.NormalizeFixpoint` | apps/api/scripts/voice-stt-bench/nb-normalize.ts:210-230 | a list is unchanged exactly when it is canonical |
| `Normalizer.NormalizeIdempotent` | apps/api/scripts/voice-stt-bench/nb-normalize.ts:210-230 | normalising twice is normalising once, for every token list |
| `Normalizer.WordsAndFiguresAgree` | apps/api/scripts/voice-stt-bench/nb-normalize.ts:4-8 | every accepted spelling of a number, with `et` or `une` too, and its figures normalise alike, before anything that does not go on with the number |
| `Normalizer.SpokenAndGluedAgree` | apps/api/scripts/voice-stt-bench/nb-normalize.ts:4-8 | every spelling of an hour, any hour word and every spelling of minutes, like `20h30`, give the clock whatever follows; the two forms agree exactly when no part of the day follows a morning hour |
| `Normalizer.FractionAndGluedAgree` | apps/api/scripts/voice-stt-bench/nb-normalize.ts:4-8 | the same for a sharp hour, the quarter and the half: `vingt heures` against `20h`, `vingt heures et demie` against `20h30` |
| `Normalizer.NoonAndGluedAgree` | apps/api/scripts/voice-stt-bench/nb-normalize.ts:4-8 | `midi`, `midi et quart` and `midi et demi` normalise as `12h00`, `12h15` and `12h30`, before any rest that does not go on with them |
| `Normalizer.NoWordMinutesReachTimes` | apps/api/scripts/voice-stt-bench/nb-normalize.ts:159-167 | in the pipeline no list reaches the branches for minutes in words |
| `Phrases.SplitJoin` | apps/api/scripts/voice-stt-bench/nb-normalize.ts:93-101 | splitting undoes joining with blanks |
| `Phrases.SplitAt` | apps/api/scripts/voice-stt-bench/nb-normalize.ts:93-101 | a character other than a to z, 0 to 9 and the colon separates the tokens before it from those after it |
| `Phrases.SplitWord` | apps/api/scripts/voice-stt-bench/nb-normalize.ts:93-101 | a text of those characters only is one token, an empty one none |
| `Phrases.NormalizeKeepsTokens` | apps/api/scripts/voice-stt-bench/nb-normalize.ts:210-230 | normalised tokens are non-empty and over the token alphabet, exactly when `constructor` is not among the joined tokens |
| `Phrases.ContainsIffSublist` | apps/api/scripts/voice-stt-bench/nb-normalize.ts:237-242 | unless the transcript names `constructor`, the padded string search succeeds exactly when the phrase is a non-empty contiguous sublist of the transcript tokens |
| `Phrases.ContainsIffWords` | apps/api/scripts/voice-stt-bench/nb-normalize.ts:237-242 | for all texts, the search succeeds exactly when the words of the normalised phrase stand side by side, in order, among those of the normalised transcript |
| `KeyedPhrases.FoundInsideConstructor` | apps/api/scripts/voice-stt-bench/nb-normalize.ts:237-242 | `function` is found in `constructor` |
| `KeyedPhrases.ContainsIffStarts` | apps/api/scripts/voice-stt-bench/nb-normalize.ts:237-242 | for all texts, a phrase is found exactly when its tokens stand side by side, in order, where a last `function` may also stand for the text of the inherited function |
| `KeyedPhrases.SearchIsRightIff` | apps/api/scripts/voice-stt-bench/nb-normalize.ts:237-242 | the search agrees with the sublist search exactly when the phrase is a sublist, or does not end where that text begins |
| `Phrases.MatchAnywhere` | apps/api/scripts/voice-stt-bench/nb-normalize.ts:241 | a match never starts or ends inside a word |
| `CanonicalTexts.NormalizeTextIdempotent` | apps/api/scripts/voice-stt-bench/nb-normalize.ts:233-235 | the canonical text of a text that does not name `constructor` is its own canonical text |
| `CanonicalTexts.NormalizeTextIdempotentIff` | apps/api/scripts/voice-stt-bench/nb-normalize.ts:233-235 | with lower-casing on ASCII text free of `^` and the grave accent, this holds exactly for those texts |
| `CanonicalTexts.SourceFolds` | apps/api/scripts/voice-stt-bench/nb-normalize.ts:84-97 | the folding of ASCII text, lower case without diacritics, is one of those that the previous row speaks of |
| `TablePlacement.PlaceTables` | apps/api/seed.ts:211-232 | each reservation, in order of start, gets the first table available at its turn; the bookings are those of the seats given |
| `TablePlacement.SortIsSorted` | apps/api/seed.ts:218-220 | the processing order is by start, a permutation, and keeps reservations with one start in their order |
| `Sorting.SortSorts` | apps/api/seed.ts:218-220 | for any key: ordered, a permutation, equal keys in their order |
| `Sorting.OneResult` | apps/api/seed.ts:218-220 | those laws leave exactly one result |
| `TablePlacement.PlacementIsFeasible` | apps/api/seed.ts:216-231 | no table is ever given twice at overlapping times, and parties fit |
| `TablePlacement.RefusedIffAllHeld` | apps/api/seed.ts:223-229 | a reservation is left out exactly when every table that fits is held at its start |
| `TablePlacement.SeatIsFirstOpen` | apps/api/seed.ts:223-229 | a reservation gets a table exactly when it is the first of the plan that takes the party and that no earlier reservation has had for less than two hours |
| `TablePlacement.GroupStaysAhead` | apps/api/seed.ts:218-231 | among the tables of one group, the seated starts are at every point as many as, and pairwise no later than, those of any assignment |
| `TablePlacement.SmallestFreeTable` | apps/api/seed.ts:210-228 | the table given is a smallest one among those that fit and are free |
| `TablePlacement.GreedyStaysAhead` | apps/api/seed.ts:218-231 | with interchangeable tables, the seated starts are at every point as many as, and pairwise no later than, those of any assignment |
| `TablePlacement.GreedyIsOptimal` | apps/api/seed.ts:218-231 | with interchangeable tables, no assignment of the list seats more parties |
| `TablePlacement.NobodySkippedIff` | apps/api/seed.ts:218-231 | with tables that fit everyone, all are seated exactly when no instant is covered by more parties than tables |
| `TablePlacement.GreedyMayLoseAParty` | apps/api/seed.ts:223-228 | on a plan of two tables and a list of two parties the loop seats one and another assignment both |
| `TableGroups.OptimalIffGraded` | apps/api/seed.ts:218-231 | the loop seats as many parties as any assignment, on every list, exactly when any two tables of the plan take the same sizes of party or none in common |
| `TableGroups.GradedIffSizesAgree` | apps/api/seed.ts:225-226 | that condition on tables, said of sizes: two sizes that share a table share all their tables |
| `TableGroups.ClosedIsOptimal` | apps/api/seed.ts:218-231 | on such a plan no group of tables seats fewer parties than in any assignment, nor does any union of groups |
| `TableGroups.LoopLoses` | apps/api/seed.ts:218-231 | on any other plan, a list of reservations on which the loop seats fewer parties than another assignment |
| `WorkerPool.StepKeepsInv` | apps/api/scripts/voice-stt-bench/nb-flux-bench.ts:392-401 | each step of a worker keeps the invariant: own slots, one carrier for each claimed task, counters, flag |
| `WorkerPool.EveryRunKeepsInv` | apps/api/scripts/voice-stt-bench/nb-flux-bench.ts:388-402 | the invariant holds in every interleaving |
| `WorkerPool.ClaimedOnce` | apps/api/scripts/voice-stt-bench/nb-flux-bench.ts:393-394 | along any run exactly the tasks the cursor passes are claimed, each once |
| `WorkerPool.ResultsAreFinal` | apps/api/scripts/voice-stt-bench/nb-a3-bench.ts:367-381 | a stored result is never replaced |
| `WorkerPool.FewFinishAfterFlag` | apps/api/scripts/voice-stt-bench/nb-flux-bench.ts:393-398 | after the credit flag no task starts, and at most one less than there are workers finish |
| `WorkerPool.FinalResults` | apps/api/scripts/voice-stt-bench/nb-flux-bench.ts:402-407 | at the end the kept results are those of a prefix of the tasks, in order; the whole list unless a credit refusal is among them |
| `WorkerPool.RunsAreShort` | apps/api/scripts/voice-stt-bench/nb-a3-bench.ts:371-383 | no run has more than two steps a task and one a worker |
| `WorkerPool.NoDeadlock` | apps/api/scripts/voice-stt-bench/nb-a3-bench.ts:371-383 | until all workers have stopped one of them can go on |
| `WorkerPool.RunPool` | apps/api/scripts/voice-stt-bench/nb-flux-bench.ts:388-402 | under any scheduler and any session outcomes the pool ends with all workers stopped |
| `Texts.CleanIsWords` | apps/api/scripts/voice-stt-bench/nb-flux-bench.ts:202 | collapsing white space and trimming leaves the words, one blank apart |
| `Texts.WordsOfJoin` | apps/api/scripts/voice-stt-bench/nb-flux-bench.ts:202 | joining parts with blanks keeps the words of each, in order |
| `Texts.FiguresRoundTrip` | apps/api/scripts/voice-stt-bench/nb-flux-bench.ts:216 | a number written in figures reads as itself, without needless zeros |
| `FluxSession.Stream.FinishWith` | apps/api/scripts/voice-stt-bench/nb-flux-bench.ts:183-209 | the latch: the first call fixes the outcome, later calls change nothing |
| `FluxSession.Stream.SendChunk` | apps/api/scripts/voice-stt-bench/nb-flux-bench.ts:225-235 | one turn of the sending loop |
| `FluxSession.Stream.EndAudio` | apps/api/scripts/voice-stt-bench/nb-flux-bench.ts:236-268 | the control message after the audio |
| `FluxSession.Stream.Receive` | apps/api/scripts/voice-stt-bench/nb-flux-bench.ts:273-321 | the message callback, for both models |
| `FluxSession.Stream.Fire` | apps/api/scripts/voice-stt-bench/nb-flux-bench.ts:211-217 | the socket and timer callbacks |
| `FluxSession.SettlesOnce` | apps/api/scripts/voice-stt-bench/nb-flux-bench.ts:182-209 | once settled, any later events leave the outcome as it is |
| `FluxSession.AlwaysSettles` | apps/api/scripts/voice-stt-bench/nb-flux-bench.ts:211-325 | the deadline, an error, a refusal or the close of the socket leave the session settled, whatever else happens |
| `FluxSession.SessionInv` | apps/api/scripts/voice-stt-bench/nb-flux-bench.ts:161-329 | for every event order: a null error has a non-empty transcript and a trigger, bytes sent match chunks sent, a latency needs all the audio sent |
| `FluxSession.ErrorNamesCause` | apps/api/scripts/voice-stt-bench/nb-flux-bench.ts:161-329 | for either model and every event order, each error name stands for one kind of settling event, and says whether final words had been heard |
| `FluxSession.FluxTranscript` | apps/api/scripts/voice-stt-bench/nb-flux-bench.ts:285-294 | a successful Flux transcript is exactly the words of the first end of turn; a session that saw one is settled |
| `FluxSession.FluxOutcome` | apps/api/scripts/voice-stt-bench/nb-flux-bench.ts:285-294 | a Flux session succeeds exactly when the event that settles it is an end of turn with words; the latency runs to that event |
| `FluxSession.SpeechEndsInChunk` | apps/api/scripts/voice-stt-bench/nb-flux-bench.ts:231-233 | the end of speech lies within the 80 ms of the chunk that sets it |
| `FluxSession.NovaTranscript` | apps/api/scripts/voice-stt-bench/nb-flux-bench.ts:296-320 | a successful Nova-3 transcript is the words of all final results up to settlement, in order |
| `FluxSession.NovaOutcome` | apps/api/scripts/voice-stt-bench/nb-flux-bench.ts:246-320 | a Nova-3 session succeeds exactly when final words have been received and the settling event is a final of speech, final words after Finalize, an utterance end, or a close request that cannot be sent |
| `FluxHistory.OutcomeIsExpected` | apps/api/scripts/voice-stt-bench/nb-flux-bench.ts:161-329 | for either model and every event order, the outcome is the one that the events call for, in every field: the words heard, the error and trigger of the event that settles, the latency from the end of speech to it, what was sent; and no event settles before |
| `TuningSession.Stream.FinishWith` | apps/api/scripts/voice-stt-bench/nb-a3-bench.ts:243-259 | the latch |
| `TuningSession.Stream.SendChunk` | apps/api/scripts/voice-stt-bench/nb-a3-bench.ts:279-289 | one turn of the sending loop; a send that throws ends it without settling the session |
| `TuningSession.Stream.EndAudio` | apps/api/scripts/voice-stt-bench/nb-a3-bench.ts:290-297 | the finalize message |
| `TuningSession.Stream.Receive` | apps/api/scripts/voice-stt-bench/nb-a3-bench.ts:299-318 | the message callback |
| `TuningSession.Stream.Fire` | apps/api/scripts/voice-stt-bench/nb-a3-bench.ts:261-267 | the socket and timer callbacks |
| `TuningSession.AlignedIsWhole` | apps/api/scripts/voice-stt-bench/nb-a3-bench.ts:269-277 | padding is shorter than a chunk and makes the payload whole chunks |
| `TuningSession.SessionState` | apps/api/scripts/voice-stt-bench/nb-a3-bench.ts:226-323 | for every event order: only whole chunks are sent, the end of speech is known exactly from the chunk that holds it, the finals are the final results received |
| `TuningSession.SettlesOnce` | apps/api/scripts/voice-stt-bench/nb-a3-bench.ts:243-259 | once settled, any later events leave the outcome as it is |
| `TuningSession.AlwaysSettles` | apps/api/scripts/voice-stt-bench/nb-a3-bench.ts:261-321 | the deadline, an error, a refusal or the close of the socket leave the session settled |
| `TuningSession.OutcomeExplained` | apps/api/scripts/voice-stt-bench/nb-a3-bench.ts:242-321 | the error is null exactly when finals exist and the settling event is the deadline or a final of speech; the transcript is the words of the finals |
| `TuningHistory.OutcomeIsExpected` | apps/api/scripts/voice-stt-bench/nb-a3-bench.ts:226-323 | for every event order, the outcome is the one that the events call for, in every field, and no event settles before |
| `StreamDecoder.Reader.Feed` | scripts/_archive/benchmark-voice-llms.ts:460-464 | one chunk: the complete lines are folded in order, the rest is kept |
| `StreamDecoder.Reader.TakeText` | scripts/_archive/benchmark-voice-llms.ts:466-514 | one line: usage, content and tool calls updated, or the reading fails |
| `StreamDecoder.Reader.MergeCall` | scripts/_archive/benchmark-voice-llms.ts:498-513 | one fragment merged into its slot |
| `StreamDecoder.Read` | scripts/_archive/benchmark-voice-llms.ts:457-515 | the read loop over all chunks |
| `StreamDecoder.DataLineIsRead` | scripts/_archive/benchmark-voice-llms.ts:467-470 | a payload is read exactly from `data: ` and that payload with any white space around, unless it is the end marker |
| `StreamDecoder.OtherLinesAreSkipped` | scripts/_archive/benchmark-voice-llms.ts:468-469 | a line carries nothing exactly when it is no data line, or holds the end marker |
| `StreamDecoder.LinesAcrossCut` | scripts/_archive/benchmark-voice-llms.ts:462-464 | lines and leftover of a text cut anywhere |
| `StreamDecoder.FeedAllIsDecode` | scripts/_archive/benchmark-voice-llms.ts:457-515 | feeding the pieces of a text is one fold over its newline-terminated lines, and leaves its tail |
| `StreamDecoder.CuttingDoesNotMatter` | scripts/_archive/benchmark-voice-llms.ts:457-515 | two ways of cutting one text give the same answer and leftover |
| `StreamDecoder.UnfinishedLineIsDropped` | scripts/_archive/benchmark-voice-llms.ts:463-515 | what follows the last newline is never decoded |
| `StreamDecoder.LineIsLostIff` | scripts/_archive/benchmark-voice-llms.ts:463-515 | something is lost exactly when nothing failed before, the unfinished line is a data line, and what it says would change the answer |
| `StreamDecoder.NothingLostIff` | scripts/_archive/benchmark-voice-llms.ts:463-515 | whatever lines may say, nothing is lost exactly when the text does not end in an unfinished data line |
| `StreamDecoder.LastFragmentIsLost` | scripts/_archive/benchmark-voice-llms.ts:463-515 | one fragment sent without its newline: the answer stays empty |
| `StreamDecoder.FailedIff` | scripts/_archive/benchmark-voice-llms.ts:470-538 | reading fails exactly when some data line is malformed |
| `StreamDecoder.AnswerReassembles` | scripts/_archive/benchmark-voice-llms.ts:483-514 | content is all fragments in order, usage the last reported, and each tool call the fragments of its own slot in order |
| `StreamDecoder.OtherCallsStay` | scripts/_archive/benchmark-voice-llms.ts:499-512 | a fragment leaves every call but the one it names as it is |
| `StreamDecoder.FragmentsCommute` | scripts/_archive/benchmark-voice-llms.ts:499-512 | fragments for different calls may come in either order |
| `Segments.FindRuns` | apps/api/scripts/voice-stt-bench/eot_pauses.py:27-31 | the scan with a start cursor computes the runs of active frames |
| `Segments.FindSegments` | apps/api/scripts/voice-stt-bench/eot_pauses.py:26-36 | runs, merge and filter in one pass each |
| `Segments.RunsCover` | apps/api/scripts/voice-stt-bench/eot_pauses.py:27-31 | runs are separated and cover exactly the active frames |
| `Segments.PaintRuns` | apps/api/scripts/voice-stt-bench/eot_pauses.py:27-31 | painting the runs of a mask gives the mask |
| `Segments.RunsPaint` | apps/api/scripts/voice-stt-bench/eot_pauses.py:27-31 | the runs of painted segments are the segments |
| `Segments.MergeShape` | apps/api/scripts/voice-stt-bench/eot_pauses.py:32-35 | merged stretches are in order and at least the threshold apart |
| `Segments.MergeEnds` | apps/api/scripts/voice-stt-bench/eot_pauses.py:32-35 | they begin and end where runs do |
| `Segments.MergeCovers` | apps/api/scripts/voice-stt-bench/eot_pauses.py:32-35 | they cover the active frames and exactly the gaps below the threshold |
| `Segments.MergeIdempotent` | apps/api/scripts/voice-stt-bench/eot_pauses.py:32-35 | merging again changes nothing |
| `Segments.KeepIff` | apps/api/scripts/voice-stt-bench/eot_pauses.py:36 | a stretch is kept exactly when it is long enough |
| `Segments.SegmentsSpaced` | apps/api/scripts/voice-stt-bench/eot_pauses.py:26-36 | the segments of any mask are in order, long enough and far enough apart |
| `Segments.SpeechIs` | apps/api/scripts/voice-stt-bench/eot_pauses.py:26-36 | the segments are exactly the stretches, long enough, that begin and end with speech, hold no silence of the threshold and are kept apart from other speech by one |
| `Turns.GroupUtterances` | apps/api/scripts/voice-stt-bench/eot_pauses.py:50-54 | the loop that extends or appends utterances |
| `Turns.UtterancesGrouped` | apps/api/scripts/voice-stt-bench/eot_pauses.py:50-54 | utterances are in order, last 150 ms or more, and are apart by 900 ms or by the voice of the caller |
| `Turns.SplitIffApart` | apps/api/scripts/voice-stt-bench/eot_pauses.py:52-54 | two neighbouring agent segments are in different utterances exactly when 900 ms or the voice of the caller keeps them apart |
| `Turns.UtteranceIs` | apps/api/scripts/voice-stt-bench/eot_pauses.py:50-54 | each utterance runs from the first to the last of a group of agent segments that are not apart, and is apart from its neighbours |
| `Turns.Analyse` | apps/api/scripts/voice-stt-bench/eot_pauses.py:47-85 | segments, utterances and one row for each utterance with a window |
| `Turns.WindowIff` | apps/api/scripts/voice-stt-bench/eot_pauses.py:65 | which caller segments a window holds |
| `Turns.NoSegmentTwice` | apps/api/scripts/voice-stt-bench/eot_pauses.py:47-85 | for any two masks, no caller segment is in the windows of two utterances |
| `Turns.NoTurnIff` | apps/api/scripts/voice-stt-bench/eot_pauses.py:47-85 | a caller segment is in no window exactly when it ends more than 60 ms into every utterance, or overlaps one by more than the tolerances |
| `Turns.SegmentWithoutTurn` | apps/api/scripts/voice-stt-bench/eot_pauses.py:47-85 | the same for the segments and utterances of any two masks |
| `Turns.ToleranceNeedsLength` | apps/api/scripts/voice-stt-bench/eot_pauses.py:65 | with shorter segments the tolerances would overlap |
| `Turns.WindowIsSlice` | apps/api/scripts/voice-stt-bench/eot_pauses.py:65-68 | a window holds neighbouring segments, none passed over |
| `Turns.RowIsSound` | apps/api/scripts/voice-stt-bench/eot_pauses.py:64-79 | gap of -60 ms or more, speech of 100 ms or more, pauses of 120 ms or more |
| `Turns.RowsReportTurns` | apps/api/scripts/voice-stt-bench/eot_pauses.py:60-84 | for any two masks, one row for each utterance that a caller segment precedes, in order: exactly those segments, the gap from their latest end, the speech from their earliest start, the pauses between neighbours, and whether the caller breaks in or speaks on |
| `Turns.OverlapsAreFlagged` | apps/api/scripts/voice-stt-bench/eot_pauses.py:70-78 | the row says whether and when the caller first breaks in, and whether the caller speaks on over the beginning |
| `Turns.OverlapsAreNoTurn` | apps/api/scripts/voice-stt-bench/eot_pauses.py:65-71 | no segment that breaks in or speaks on is in the window of that utterance |
| `Alaw.AlawEncode` | apps/api/scripts/voice-stt-bench/nb-dsp.ts:161-175 | the encoder on a buffer of any length |
| `Alaw.FindExponent` | apps/api/scripts/voice-stt-bench/nb-dsp.ts:169-170 | the mask loop finds the segment |
| `Alaw.AlawDecode` | apps/api/scripts/voice-stt-bench/nb-dsp.ts:178-190 | the decoder on a buffer of any length |
| `Alaw.Pcm16ToAlaw` | apps/api/scripts/voice-stt-bench/nb-cartesia.ts:42-55 | the second encoder on a buffer of any length |
| `Alaw.XorFlipsEvenBits` | apps/api/scripts/voice-stt-bench/nb-dsp.ts:172 | exactly the even bits are inverted |
| `Alaw.CellIff` | apps/api/scripts/voice-stt-bench/nb-dsp.ts:171 | segment and mantissa name the one quantisation cell that holds a magnitude |
| `Alaw.LevelIsMiddle` | apps/api/scripts/voice-stt-bench/nb-dsp.ts:182-186 | decoded levels are the middles of the cells |
| `Alaw.WidthDoubles` | apps/api/scripts/voice-stt-bench/nb-dsp.ts:169-171 | cells are 16 wide in the first two segments, and twice as wide from each segment to the next |
| `Alaw.CodeIs` | apps/api/scripts/voice-stt-bench/nb-dsp.ts:161-175 | a sample has exactly the code of its sign and of the cell that its magnitude, up to 32635, lies in |
| `Alaw.CodeDecodes` | apps/api/scripts/voice-stt-bench/nb-dsp.ts:178-190 | a code is decoded to the middle of its cell, with its sign |
| `Alaw.SampleIs` | apps/api/scripts/voice-stt-bench/nb-dsp.ts:51-55 | the low byte comes first, and the two bytes are the sample modulo 65536 |
| `Alaw.EncodeDecode` | apps/api/scripts/voice-stt-bench/nb-dsp.ts:161-190 | encoding a decoded byte gives the byte, with either encoder |
| `Alaw.BufferComesBack` | apps/api/scripts/voice-stt-bench/nb-dsp.ts:161-190 | the same for buffers of any length, through 16-bit little-endian bytes |
| `Alaw.SamplesOfPcm` | apps/api/scripts/voice-stt-bench/nb-dsp.ts:51-65 | samples written to bytes are read back |
| `Alaw.ErrorBound` | apps/api/scripts/voice-stt-bench/nb-dsp.ts:192-195 | the round trip moves a sample by at most 8 or a thirty-second of it |
| `Alaw.RoundTripIdempotent` | apps/api/scripts/voice-stt-bench/nb-dsp.ts:192-195 | a second round trip changes nothing |
| `Alaw.OrderPreserved` | apps/api/scripts/voice-stt-bench/nb-dsp.ts:192-195 | the round trip keeps the order of samples |
| `Alaw.BufferRoundTrip` | apps/api/scripts/voice-stt-bench/nb-dsp.ts:192-195 | both on buffers of any length |
| `Alaw.SilenceByte` | apps/api/scripts/voice-stt-bench/nb-flux-bench.ts:221 | 0xd5, the padding of both benches, is the code of zero |
| `Alaw.SecondIsShifted` | apps/api/scripts/voice-stt-bench/nb-cartesia.ts:45-47 | the encoders agree from -1 up; below, the second encodes the sample above |
| `Alaw.SecondIsMirrored` | apps/api/scripts/voice-stt-bench/nb-cartesia.ts:46-47 | the second encoder treats a sample and its complement alike up to sign |
| `Alaw.EncodersDifferIff` | apps/api/scripts/voice-stt-bench/nb-cartesia.ts:42-55 | the encoders differ exactly on negative samples whose magnitude opens a cell, below the clamp |
| `Bootstrap.OrderDoesNotMatter` | apps/api/scripts/voice-stt-bench/nb-flux-stats.ts:8-17 | the percentile depends on the values, not their order |
| `Bootstrap.PercentileMonotone` | apps/api/scripts/voice-stt-bench/nb-flux-stats.ts:11-16 | a larger quantile never gives a smaller value |
| `Bootstrap.PercentileWithin` | apps/api/scripts/voice-stt-bench/nb-flux-stats.ts:8-17 | percentiles stay within any bounds on the values |
| `Bootstrap.PercentileAtKnot` | apps/api/scripts/voice-stt-bench/nb-flux-stats.ts:11-14 | at the knots it is the value of that rank |
| `Bootstrap.PercentileIsLinear` | apps/api/scripts/voice-stt-bench/nb-flux-stats.ts:8-17 | with the values in ascending order, the percentile is on the straight line between the two whose ranks enclose its position |
| `Bootstrap.PercentileOutside` | apps/api/scripts/voice-stt-bench/nb-flux-stats.ts:11 | below 0 and above 1 it is the least and the greatest value |
| `Bootstrap.PercentileSplits` | apps/api/scripts/voice-stt-bench/nb-flux-stats.ts:8-17 | no more than its share of the values, rounded up, lies below the percentile, and no more than the rest above |
| `Bootstrap.BootstrapInterval` | apps/api/scripts/voice-stt-bench/nb-flux-stats.ts:20-42 | the loops compute the two percentiles of the finite estimates, or nothing |
| `Bootstrap.EstimatesAre` | apps/api/scripts/voice-stt-bench/nb-flux-stats.ts:28-37 | the estimates are the finite values of the statistic on the resamples, which use the random numbers one after another, each once |
| `Bootstrap.PickIff` | apps/api/scripts/voice-stt-bench/nb-flux-stats.ts:33 | each draw takes the cluster whose equal part of the range holds the random bits |
| `Bootstrap.FirstBits` | apps/api/scripts/voice-stt-bench/nb-dsp.ts:17-26 | state and output of the generator on three seeds |
| `Bootstrap.IntervalIsOrdered` | apps/api/scripts/voice-stt-bench/nb-flux-stats.ts:38-41 | lower is at most upper, whatever the statistic and the seed |
| `Bootstrap.IntervalCovers` | apps/api/scripts/voice-stt-bench/nb-flux-stats.ts:38-41 | fewer than one and a fortieth of the estimates less one lie below the interval, and as few above it |
| `Bootstrap.IntervalIsSound` | apps/api/scripts/voice-stt-bench/nb-flux-stats.ts:38-41 | the interval is within any bounds the statistic respects on resamples |
| `WavHeader.StripWavHeader` | apps/api/scripts/voice-stt-bench/nb-tts.ts:60-69 | the walk ends on any bytes |
| `WavHeader.Strip` | apps/api/scripts/voice-stt-bench/nb-tts.ts:60-69 | the result is the whole buffer or a slice of it |
| `WavHeader.FindsData` | apps/api/scripts/voice-stt-bench/nb-tts.ts:60-69 | any header, any padded chunks that do not read as data, a data chunk, any trailing bytes: exactly the data body is returned |
| `WavHeader.FirstReadWins` | apps/api/scripts/voice-stt-bench/nb-tts.ts:60-69 | on any list of chunks, the body of the first one that reads as data |
| `WavHeader.NothingReads` | apps/api/scripts/voice-stt-bench/nb-tts.ts:60-69 | with no chunk that reads as data, the whole buffer |
| `WavHeader.CutShort` | apps/api/scripts/voice-stt-bench/nb-tts.ts:60-69 | of a data chunk that the buffer cuts short, what there is |
| `WavHeader.SamplesFoundIff` | apps/api/scripts/voice-stt-bench/nb-tts.ts:60-69 | the body of the chunk named data is returned exactly when no earlier chunk with another body reads as data |
| `WavHeader.HighBitsReadAsData` | apps/api/scripts/voice-stt-bench/nb-tts.ts:63 | a chunk named E4 61 74 61 before the samples is returned in their place |
| `CompanionSeed.ThinAnomaly` | packages/database/prisma/seed-companion.ts:376-398 | the backward splice loop |
| `CompanionSeed.AnomalyIsHalved` | packages/database/prisma/seed-companion.ts:374-398 | the day ends at half the average of its four previous weeks or less; every other reservation stays in its place, and the shortest sufficient tail of the day is gone |
| `CompanionSeed.Generator.PhoneBookings` | packages/database/prisma/seed-companion.ts:405-408 | the phone reservations created on a day, in order |
| `CompanionSeed.Generator.SendToWeb` | packages/database/prisma/seed-companion.ts:409-411 | those beyond the fifteenth become web reservations, nothing else changes |
| `CompanionSeed.Generator.PlaceCalls` | packages/database/prisma/seed-companion.ts:412-431 | the kept reservations get the next calls in order, each at its creation instant; the other calls are fillers |
| `CompanionSeed.Generator.LinkDay` | packages/database/prisma/seed-companion.ts:403-433 | one day: its first fifteen phone reservations are linked to the next calls in order, the others go to the web, nothing else changes; filler calls bring the number up to the drawn volume |
| `CompanionSeed.Generator.LinkAll` | packages/database/prisma/seed-companion.ts:400-433 | after all days, the first fifteen phone reservations created on each day have a call of their own, the others on it are web reservations, all else is as before |
| `CompanionSeed.OneCallEach` | packages/database/prisma/seed-companion.ts:400-433 | when all are linked, phone reservations and reserved calls are in bijection |
| `CompanionSeed.CallsForTheFirst` | packages/database/prisma/seed-companion.ts:400-433 | when all reservations were created on linked days, the reserved calls are as many as the reservations that were among the first fifteen by phone on their day |
| `AgentRunner.Run` | packages/agent-client/src/runner.ts:22-91 | the loop with its tool calls, and how often the model is called |
| `AgentRunner.RunCallsGrows` | packages/agent-client/src/runner.ts:72-87 | the calls of a turn add one answer each, in order, and nothing else changes |
| `AgentRunner.CallsAreExecuted` | packages/agent-client/src/runner.ts:78-86 | each answer is what the tool returned for its own call |
| `AgentRunner.RunIsSound` | packages/agent-client/src/runner.ts:41-90 | a finished run extends the past by the user message and well-formed turns, counts their tool results, asks at most maxToolTurns times, and returns a system message exactly when one came after the first input message |
| `AgentRunner.RunFinishesIff` | packages/agent-client/src/runner.ts:41-92 | a run finishes with a history exactly when it holds the past without a leading system message, the user message, and a replay: each assistant message is what the model answers to the log before, system message included, each result what the tool returns |
| `AgentRunner.ConversationIsSound` | packages/agent-client/src/runner.ts:59-63 | chains of runs keep the history well formed and only ever longer, after any leading system message, and once a run has finished no system message is left |

## Left out

- Lower-casing and accent removal: a function parameter (`fold`), the identity on texts of token characters and blanks, and for `CanonicalTexts.NormalizeTextIdempotentIff` lower-casing on ASCII text without the two ASCII diacritics, which the source's folding meets (`SourceFolds`).
- The text of the inherited function is the one that V8 gives; other engines may put line breaks in it.
- `digitSequence`: a filter over the normalised tokens.
- Provider error codes: whether a code reads as a credit refusal, and which class it falls in, are inputs.
- TuningSession.Stream.SendChunk: a send that throws in the audio loop is not caught; the model lets the session run on, while the unhandled rejection may end the process.
- WorkerPool.EveryRunKeepsInv: a worker's continuation is split into smaller steps, so more interleavings are covered than one thread can produce; a session that throws instead of settling is not modelled.
- JSON parsing and byte decoding of the stream: a function from a line to its content, and chunks of text; latency timestamps are not modelled.
- Voice-activity masks: inputs; the echo test, the level filters and the matching of rows to database turns are not modelled.
- Shifts and masks in the codec: written as division and remainder; exclusive or with 0x55 as one in each base-4 digit. Filters, noise and packet loss are not modelled.
- Bootstrap.PercentileMonotone: over exact reals; the rounding of doubles is not modelled.
- Bootstrap.PercentileWithin: over exact reals, as above.
- Bootstrap.PercentileAtKnot: over exact reals; in doubles the position may miss a knot by a rounding error.
- Bootstrap.PercentileIsLinear: over exact reals, as above.
- Bootstrap.PercentileSplits: over exact reals, as above.
- Bootstrap.IntervalIsOrdered: over exact reals, as above.
- Bootstrap.IntervalCovers: over exact reals, as above.
- Bootstrap.IntervalIsSound: over exact reals, as above.
- Floating-point rounding in rates and latencies: exact reals too.
- Bootstrap.BootstrapInterval: the generator is modelled bit by bit, but nothing is claimed about the quality of its numbers.
- `sort`: a stable insertion sort; `Sorting.OneResult` shows that any stable sort has the same result.
- In-place fields of reservations and tool-call entries: `CompanionSeed` and `StreamDecoder` keep them in a sequence and a map that the methods reassign, so sharing between lists is not captured.
- Random identifiers: call ids are positions in the list of calls; the idempotency key added to `create_reservation` is part of what `execute` may do.
- The rest of the companion generator (drawing reservations, waitlist, feedback), command lines, cost estimates, reports and all input and output.
