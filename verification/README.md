# Denial, verified

A Dafny model of the parts of the Denial compositor whose correctness is hardest to see by
reading them, with proofs of what they are for. `dafny verify dfyconfig.toml` checks all of it.

- **Text prediction.** `Merge` folds the lines of several word lists into one entry per written
  form. `Lexicon` builds the preorder-numbered trie over them (`Trie` is its shape, `TrieGrowth`
  one step of building it). `Distance` is the weighted edit distance, `Search` the pruned walk
  that shares one buffer of rows, `Completion` the best-first completion of a prefix,
  `Prediction` the way from word lists to the words within reach of what was typed, and `Ranking`
  the candidates made of both. `WordForms` is a word list that makes a count wrap.
- **Polkit agent.** `Agent` is its event loop as a transition system in which every read of the
  lock flag may differ; `AgentSafety`, `AgentCookies`, `AgentDiscipline`, `AgentRuns` and
  `AgentFairness` prove what every run keeps and `AgentService` what each call does;
  `AgentController` is the object itself, field by field, proved to follow `Agent`.
- **Commit scheduler.** `Scheduler` has producers, channel, deadline heap and worker as
  interleaved steps; `SchedulerSafety` proves what every interleaving keeps, `SchedulerEvents` that
  each job is told what the device said, `SchedulerProgress` that the work gets done and
  `SchedulerShutdown` that it begins and ends.
- **Outputs.** `Projection` has the eight orientations and the affine maps, `Topology` the
  hotplug transactions, `Atlas` the packing of all outputs into one desktop image.
- **Small protocols.** `Poller` (the notifier of the event poller), `Budget` (message quota and
  storage pool), `Framing` (newline-delimited messages), `Quoting` (showing a command line).
- `Wrappers`, `Basics`, `Sorting`, `Order` and `Text` hold what these share: option and result
  types, bytes and counting, a stable sort, the order of byte strings, blanks, controls and UTF-8
  sizes.

Objects that the source updates in place are classes whose methods are proved against functions;
concurrent protocols are state machines whose runs are arbitrary sequences of steps, where a step
that is not possible changes nothing. Floating-point numbers are exact reals, integers are
unbounded unless a width matters, and then the wrap-around is written out (8-bit counts of
failures, 16-bit form counts, 64-bit epochs, arrival orders and counters, 32-bit pixel edges).

What the proofs turned up, each with an input and the exact condition:

- The pruned search is exact for every lexicon, touch and radius if and only if a swap costs at
  least as much as skipping any letter (`Distance.SearchIsExactIff`). The shipped tuning (swap
  0.45, skipping a doubled letter 0.6) does not meet that: `Distance.DefaultTuningLosesWord` has
  a word within the radius that is abandoned on the way.
- A node counts its forms in 16 bits, which wrap where overflow is not checked, so the range of a
  key is exact if and only if it has fewer than 65536 forms (`Lexicon.Entries`,
  `Lexicon.AllVisibleIff`). A list of all spellings of sixteen letters "a", small and capital, has
  65536 and leaves the key's node empty (`WordForms.LoadSixteen`).
- A recorded command line comes back with exactly its arguments if and only if the last one is
  not empty (`Quoting.ArgumentsRecovered`); `Quoting.EmptyArgumentExample` has one that does not.
- The command in the dialog reads back as the command if and only if no argument holds a control
  character and the quoted line is at most 4096 bytes long (`Quoting.ShownReadsBack`);
  `Quoting.TabShownAsSpace` has two commands that are shown alike.
- Source rectangles of outputs far apart are clamped to 32 bits. One is sound if and only if it
  starts before the last edge that fits (`Atlas.EverySourceFits`), and two share a pixel if and
  only if both are clamped onto that edge, one way, and the other way too or their rounded edges
  meet there (`Atlas.NoTwoSourcesMeet`); `Atlas.FarApartCollide` has outputs that do.
- A conversation that completes a second time, once the dialog is closing, makes the request
  return early if it succeeds (`AgentRuns.SecondCompletionReturns`), and if it fails for the 256th
  time wraps the 8-bit count of failures and starts a fourth conversation in the closing dialog
  (`AgentRuns.CountWrapReopens`). `AgentRuns.ReturnsOnlyIff` says exactly which calls return a
  request early, and `AgentRuns.EveryRunDisciplined` that a run keeps its discipline throughout if
  and only if no failure is the 256th or comes before the first conversation, which panics.

## Model

| member | source | states |
|---|---|---|
| `Distance.DistIsCheapestScript` | compositor/text-prediction/src/predict.rs:181-219 | the value of a cell of the dynamic program is the cost of the cheapest script of substitutions, deletions, insertions and swaps of neighbours that rewrites the word prefix into the typed prefix: no script is cheaper and one attains it |
| `Distance.CellFollows` | compositor/text-prediction/src/predict.rs:186-217 | every cell of a row follows from the two rows above it by the four alternatives of the code, first column included |
| `Distance.SymbolsAreColumns` | compositor/text-prediction/src/predict.rs:135-150 | the 27 columns of a substitution row are the 26 letters and the apostrophe, one each |
| `Distance.MinimumTellsAlive` | compositor/text-prediction/src/predict.rs:201-218 | comparing the row minimum with the radius tells whether any cell of the row is within it |
| `Distance.RowsOnlyGrow` | compositor/text-prediction/src/predict.rs:230-238 | if swaps dominate, a row out of reach stays out of reach for every longer word |
| `Distance.SwapDominatesSuffices` | compositor/text-prediction/src/predict.rs:230-238 | if swaps dominate, the walk reaches a word exactly when its own row is within reach |
| `Distance.SearchIsExactIff` | compositor/text-prediction/src/predict.rs:181-243 | pruning loses no word, for any typed word, touch and radius, if and only if the swap costs at least every deletion cost |
| `Distance.DefaultTuningLosesWord` | compositor/text-prediction/src/tuning.rs:45-60 | the shipped costs do not dominate, and a concrete word at distance 0.97 from a two-letter input is abandoned although the radius is 1.0 |
| `Distance.BaTyped` | compositor/text-prediction/src/tuning.rs:45-60 | a touch that meets the assumptions of that example exists |
| `Trie.Trie.BelowContinues` | compositor/text-prediction/src/lexicon.rs:206-243 | everything in the index range below a node continues its key |
| `Trie.Trie.ContinuesBelow` | compositor/text-prediction/src/lexicon.rs:206-243 | every key that continues a node's key lies in the index range below it |
| `Trie.Trie.SubtreeEnds` | compositor/text-prediction/src/lexicon.rs:206-243 | where a subtree ends, told from first-child and next-sibling links |
| `TrieGrowth.Grow` | compositor/text-prediction/src/lexicon.rs:217-238 | hooking a new last child onto the open path keeps preorder numbering, sibling threading with strictly increasing bytes, and distinct keys |
| `TrieGrowth.SiblingBytes` | compositor/text-prediction/src/lexicon.rs:207-209 | bytes increase along the children of a node |
| `Lexicon.Turn` | compositor/text-prediction/src/lexicon.rs:213-216 | because keys arrive sorted, the next key branches off to the right of the one before |
| `Lexicon.Extend` | compositor/text-prediction/src/lexicon.rs:217-238 | the loop over the new bytes of a key adds exactly the missing branch and leaves the rest of the trie as it was |
| `Lexicon.Store` | compositor/text-prediction/src/lexicon.rs:213-244 | storing one more sorted entry keeps the trie valid and every key's run of forms exact modulo the 16-bit count |
| `Lexicon.BuildNodes` | compositor/text-prediction/src/lexicon.rs:194-244 | all nodes from sorted entries: every key has a node, every node leads to a key, every run is counted |
| `Lexicon.FillBest` | compositor/text-prediction/src/lexicon.rs:256-268 | one pass from the last node to the first leaves in each node the maximum over its subtree |
| `Lexicon.Build` | compositor/text-prediction/src/lexicon.rs:194-277 | the finished index of the entries: shape, runs and maxima together |
| `Lexicon.FormsAdjacent` | compositor/text-prediction/src/lexicon.rs:325-333 | in sorted entries the forms of a key are exactly one contiguous range |
| `Lexicon.BestIsSubtreeMaximum` | compositor/text-prediction/src/lexicon.rs:256-268 | for every lexicon: `best` bounds every inoffensive entry whose key continues the node's key, as far as its node's count still shows it, and is attained by one, or is 0 |
| `Lexicon.AllVisibleIff` | compositor/text-prediction/src/lexicon.rs:239-243 | the count shows all forms of a key if and only if there are fewer than 65536 |
| `Lexicon.FindChild` | compositor/text-prediction/src/lexicon.rs:314-322 | walking the sibling list finds the child for a byte, or there is none |
| `Lexicon.Find` | compositor/text-prediction/src/lexicon.rs:314-322 | the node of a key, or none exactly if the trie has no such key |
| `Lexicon.Entries` | compositor/text-prediction/src/lexicon.rs:325-333 | the returned range is exactly the entries with the key, as a linear scan would find them, if and only if there are fewer than 65536; always of that size modulo 65536 and inside the entries |
| `WordForms.SpellingsFromWords` | compositor/text-prediction/src/lexicon.rs:60-80 | a word list can hold the spellings: each is made of characters that keys may contain, and folds to its key |
| `WordForms.CasedInOrder` | compositor/text-prediction/src/lexicon.rs:136-146 | the spellings of n letters, numbered by their capitals, ascend strictly in the order of their numbers, so all 2^n are different and already sorted |
| `WordForms.KeptAsTheyAre` | compositor/text-prediction/src/lexicon.rs:136-146 | merging gives them back unchanged |
| `WordForms.ManyFormsLost` | compositor/text-prediction/src/lexicon.rs:325-333 | any index of 65536 spellings has an empty range for the key that holds them all |
| `WordForms.LoadSixteen` | compositor/text-prediction/src/lexicon.rs:120-277 | loading the list of all spellings of sixteen letters "a" gives 65536 entries with different words that fold to the key, and a node for the key that shows none of them |
| `Sorting.SortSorts` | compositor/text-prediction/src/lexicon.rs:137-146 | sorting orders the lines and keeps their multiset |
| `Sorting.SortIsStable` | compositor/text-prediction/src/predict.rs:356-363 | elements the order does not tell apart keep their places: the sorted list is the one of any finer order that agrees with the list there |
| `Merge.Dedup` | compositor/text-prediction/src/lexicon.rs:137-145 | folding runs of equal words in place leaves each written form once, with maximum frequency, union of languages, and offensive only if every list says so |
| `Merge.MergeAll` | compositor/text-prediction/src/lexicon.rs:123-148 | the same for all lines of all lists, in the order the builder needs |
| `Merge.MergeIsCanonical` | compositor/text-prediction/src/lexicon.rs:123-148 | the merged entries depend only on the set of lines, not on their order or repetition |
| `Merge.MergeRelabels` | compositor/text-prediction/src/lexicon.rs:123-148 | permuting the lists permutes the language bits of the merged entries and changes nothing else |
| `Merge.MergedFitsBuilder` | compositor/text-prediction/src/lexicon.rs:146-147 | merged entries are in key order without empty keys, the forms of a key by falling frequency and then byte by byte |
| `Search.Search.Step` | compositor/text-prediction/src/predict.rs:181-219 | fills exactly the next row in the shared buffer, leaves the rows above alone, and returns the row's minimum and last cell |
| `Search.Search.Enter` | compositor/text-prediction/src/predict.rs:228-231 | putting a child on the path in place of an elder sibling restores rows and path for that child |
| `Search.Search.Descend` | compositor/text-prediction/src/predict.rs:221-242 | the recursive walk appends exactly the found nodes and seeds of the parent's index range, in order, whatever siblings left in the buffer |
| `Search.Task.SubtreeAbandoned` | compositor/text-prediction/src/predict.rs:232-240 | skipping an abandoned or too deep child skips nothing that the walk could have found below it |
| `Search.Search.Fill` | compositor/text-prediction/src/predict.rs:199-216 | one cell of the next row from the cells around it in the shared buffer, all other rows as they were |
| `Search.Task.PruningIsExact` | compositor/text-prediction/src/predict.rs:221-242 | when swaps dominate, the pruned walk equals the scan of all nodes with the brute-force distance, for words and for seeds |
| `Search.FindAll` | compositor/text-prediction/src/predict.rs:300-331 | the whole search: each key node within reach once, with its exact distance, and equal to brute force when swaps dominate |
| `Completion.PopMax` | compositor/text-prediction/src/predict.rs:245-251 | the heap gives a greatest item by frequency, words before subtrees |
| `Completion.BelowIsByRank` | compositor/text-prediction/src/predict.rs:245-252 | the heap compares frequency, then kind (a word above a subtree), then number |
| `Completion.Children` | compositor/text-prediction/src/lexicon.rs:291-365 | the sibling iterator yields all children once, by increasing byte |
| `Completion.Complete` | compositor/text-prediction/src/predict.rs:364-408 | best-first completion is top-k for every lexicon: distinct inoffensive words strictly below the seed, as far as the counts show them, by nonincreasing frequency, none missed that beats a reported one, all reported if fewer than asked for |
| `Prediction.Load` | compositor/text-prediction/src/lexicon.rs:123-148 | word lists to lexicon: merged entries and a trie that indexes them |
| `Prediction.InsertCosts` | compositor/text-prediction/src/predict.rs:305-312 | dropping a typed byte costs less exactly when it repeats the one before |
| `Prediction.Suggest` | compositor/text-prediction/src/predict.rs:300-331 | from index to entries: an entry is found, with its exact distance under the tuning's own insert, delete and swap costs, if and only if its count shows it, it is at most six letters longer than what was typed, within the short radius for up to three letters typed, the middle one for four and five and the long one for more, and the swap dominates or no prefix of its key is out of reach; and the seeds are exactly the nodes so reached within the completion radius for up to two, for three and four, and for more letters, by brute force when the swap dominates |
| `Ranking.TakeKeeps` | compositor/text-prediction/src/predict.rs:334-342 | after any offers the map holds, for every entry offered, the first of its highest offers |
| `Ranking.OfferExact` | compositor/text-prediction/src/predict.rs:343-353 | the nested loop offers every form of every node found, at the node's distance |
| `Ranking.OffersAreFound` | compositor/text-prediction/src/predict.rs:343-353 | what it offers are the entries found and nothing else |
| `Ranking.ExactAreDue` | compositor/text-prediction/src/predict.rs:289-353 | so an entry is offered as itself, scored at its exact distance, if and only if it is due |
| `Ranking.Nearest` | compositor/text-prediction/src/predict.rs:355-364 | the seeds completed are the first by distance, then by best word below, then by place in the trie, as many as the tuning says: none left out comes before one of them |
| `Ranking.OfferCompleted` | compositor/text-prediction/src/predict.rs:364-408 | each of them offers its most frequent completions, with its own distance and the letters each word has beyond its depth |
| `Ranking.Ordered` | compositor/text-prediction/src/predict.rs:410-417 | the values of the map, in whatever order it gives them, are sorted by score and then by entry |
| `Ranking.Candidates` | compositor/text-prediction/src/predict.rs:289-418 | search, offers, completion and sort together: the result has the first of the highest offers for every word due and every top completion of the nearest seeds, by score and then by entry |
| `Ranking.ShownExactly` | compositor/text-prediction/src/predict.rs:333-418 | an entry is a candidate if and only if it is due or a top completion of a chosen seed |
| `Ranking.WordIsItself` | compositor/text-prediction/src/predict.rs:289-342 | with nonnegative weights a word within reach is a candidate as itself, at its own distance, unless it completes a prefix that is nearer |
| `Ranking.OneRanking` | compositor/text-prediction/src/predict.rs:410-417 | the offers determine the result: the order in which the hash map gives its values makes no difference |
| `Ranking.CandidateScored` | compositor/text-prediction/src/predict.rs:289-298 | every candidate is a word within reach at its own distance, scored by its frequency less what the distance costs and, at distance 0, the whole bonus more; or completes a chosen prefix at its distance, the penalty and so much for each letter beyond its depth less |
| `Ranking.WordsInOrder` | compositor/text-prediction/src/predict.rs:410-417 | of two words within reach at one distance the more frequent comes first, and of two equally frequent ones the nearer |
| `Ranking.ShorterFirst` | compositor/text-prediction/src/predict.rs:289-298 | of two equally frequent completions at one distance the one with fewer letters more comes first |
| `Ranking.ShippedScores` | compositor/text-prediction/src/tuning.rs:66-76 | with the shipped weights a word of frequency 200 scores 235 as typed, 158 at distance 0.4, and 182 as a completion with two letters more |
| `Ranking.LettersAreCharacters` | compositor/text-prediction/src/predict.rs:377-382 | the letters counted are the characters of the text the word encodes |
| `AgentSafety.EveryRunBalanced` | compositor/polkit-agent/src/main.rs:71-123 | over every run: begun = answered + queued + active for each request, at most eight queued, none queued while none is active, however the lock flag changes between reads |
| `AgentSafety.ReactConserves` | compositor/polkit-agent/src/main.rs:146-294 | each event handler answers exactly the requests it removes |
| `AgentSafety.TickBalanced` | compositor/polkit-agent/src/main.rs:295-316 | so does the clock |
| `AgentCookies.EveryRunTidy` | compositor/polkit-agent/src/main.rs:157-211 | over every run: cookies of active and queued requests are pairwise distinct, remembered cookies distinct, at most 32, and none of a live request |
| `AgentCookies.CancellationSurvives` | compositor/polkit-agent/src/main.rs:203-210 | a remembered cancellation survives every run in which fewer than 32 come to stand behind it |
| `AgentCookies.BeginRefused` | compositor/polkit-agent/src/main.rs:157-168 | a request whose cookie is remembered is answered at once and no dialog is opened |
| `AgentCookies.CancelBeforeBeginIsHonoured` | compositor/polkit-agent/src/main.rs:157-211 | cancel first, begin after any run with fewer than 32 further recorded cancellations: refused without a dialog |
| `AgentRuns.EveryRunDisciplined` | compositor/polkit-agent/src/main.rs:124-290 | every run is disciplined throughout if and only if none of its events fails a conversation before the first, which panics, or for the 256th time in its dialog: a live session is attempt failures + 1 for an offered identity, there are at most three, none is live or starts once closing, and closing comes after three |
| `AgentRuns.EveryRunThriceIff` | compositor/polkit-agent/src/main.rs:276-282 | over every run that keeps the discipline: a closing dialog has failed exactly three times, all along, if and only if no dialog fails once more while closing |
| `AgentRuns.EveryRunFailsThrice` | compositor/polkit-agent/src/main.rs:265-282 | in particular, if conversations complete only once, the discipline is kept and a closing dialog has failed exactly three times |
| `AgentDiscipline.HandleDisciplined` | compositor/polkit-agent/src/main.rs:219-290 | whatever conversations do: an event keeps the discipline if and only if it neither panics nor makes the count of failures wrap, and lets nobody return normally but the active request, on the successful completion of the live session's current attempt, if and only if it is not the completion of a session that is not live and either succeeds or comes before the first |
| `AgentDiscipline.TickDisciplined` | compositor/polkit-agent/src/main.rs:295-316 | the clock lets nobody return normally but the active request, and that only past the deadline of a dialog that is closing after three failures |
| `AgentRuns.ReturnsOnlyIff` | compositor/polkit-agent/src/main.rs:250-316 | the same of the next call, event or tick, after any run that has not left the discipline |
| `AgentRuns.FailuresClose` | compositor/polkit-agent/src/main.rs:265-286 | a run of begin, select and failed conversations, for any request and offered identity, is in its next conversation after one and two failures, closing at attempt 3 after the third, and still closing after any further one up to the 255th |
| `AgentRuns.SecondCompletionReturns` | compositor/polkit-agent/src/main.rs:265-275 | completing with success after the third failure in such a run, or a later one, returns the request before its deadline and without a live session |
| `AgentRuns.CountWrapReopens` | compositor/polkit-agent/src/main.rs:271-286 | the 256th failure in such a run starts a fourth conversation while the dialog is closing |
| `AgentRuns.NeverPanics` | compositor/polkit-agent/src/main.rs:283-286 | over every run in which completions are numbered from 1 there is an identity to try again with where the code unwraps one |
| `AgentDiscipline.HandleSays` | compositor/polkit-agent/src/main.rs:219-290 | whatever an event starts, ends or responds is the active dialog's own (the next attempt for an offered identity, the end of the current one, or a response to the prompt that is showing) if and only if it does not make the count of failures wrap into a new conversation |
| `AgentDiscipline.PromptAnsweredOnce` | compositor/polkit-agent/src/main.rs:234-247 | a prompt once answered is not answered again |
| `AgentDiscipline.OldEventsDoNothing` | compositor/polkit-agent/src/main.rs:219-255 | events of an earlier dialog or attempt change nothing but what the lock check changes |
| `AgentFairness.PromptIsAnswered` | compositor/polkit-agent/src/main.rs:234-260 | after any run with a live session, its prompt and then the response to the number shown log just that prompt and one response, and the number is above all shown or answered before |
| `AgentFairness.EveryRunTimed` | compositor/polkit-agent/src/main.rs:95-120 | over every run the active dialog has until 300 seconds after its opening, or four after it began to close |
| `AgentFairness.EveryRunInTurn` | compositor/polkit-agent/src/main.rs:84-123 | over every run dialogs open in the order in which their requests came |
| `AgentService.OpensFirst` | compositor/polkit-agent/src/main.rs:84-123 | the queue is tried from its front: requests whose dialog cannot be started are answered as failed, and the first whose dialog can has it, under a new number |
| `AgentService.PromptIsShown` | compositor/polkit-agent/src/main.rs:256-260 | a prompt of the current attempt is shown under the next number |
| `AgentService.ResponseIsPassed` | compositor/polkit-agent/src/main.rs:234-247 | a response reaches the session if and only if it is live, the prompt is the one showing and the session takes it; otherwise nothing changes |
| `AgentService.SelectionStarts` | compositor/polkit-agent/src/main.rs:124-145 | an offered identity, chosen when no conversation is live or closing, gets the next attempt; if it cannot start, the request has failed |
| `AgentService.SuccessReturns` | compositor/polkit-agent/src/main.rs:265-275 | a conversation that succeeds ends and its request returns normally |
| `AgentService.FailureGoesOn` | compositor/polkit-agent/src/main.rs:265-287 | the first and second failure are followed by an attempt for the same identity, the third by four seconds of closing |
| `AgentService.OverIsCancelled` | compositor/polkit-agent/src/main.rs:184-233 | a dialog cancelled or closed by its user, cancelled by its caller, gone by itself or past its time has its request answered as cancelled before anything else |
| `AgentService.ClosedReturns` | compositor/polkit-agent/src/main.rs:300-306 | past the deadline of a closing dialog its request returns normally |
| `AgentService.ClockLeavesAlone` | compositor/polkit-agent/src/main.rs:295-316 | before its deadline the clock changes nothing of a dialog that is there |
| `AgentService.BeginDecides` | compositor/polkit-agent/src/main.rs:157-183 | a request is refused as cancelled if its cancellation was remembered, the session is locked or eight wait, fails if its cookie is taken, and otherwise queues last |
| `AgentService.CancelDecides` | compositor/polkit-agent/src/main.rs:184-211 | a cancellation answers the one request with its cookie and nothing else, or is remembered as the latest of at most 32 |
| `AgentService.LockClears` | compositor/polkit-agent/src/main.rs:146-156 | a lock, an unavailable service or the end answer the active request and then the queue, in order, as cancelled |
| `AgentService.SeenLockClears` | compositor/polkit-agent/src/main.rs:76-83 | so does the lock seen by any other call |
| `AgentController.Controller.Finish` | compositor/polkit-agent/src/main.rs:71-75 | answers the active request, if any, and clears it |
| `AgentController.Controller.CancelAll` | compositor/polkit-agent/src/main.rs:76-83 | drains active and queue, each answered as cancelled |
| `AgentController.Controller.StartNext` | compositor/polkit-agent/src/main.rs:84-123 | the loop opens a dialog for the first queued request for which that works and fails those before it |
| `AgentController.Controller.StartSession` | compositor/polkit-agent/src/main.rs:124-145 | starts the next attempt for an offered identity, or fails the request |
| `AgentController.Controller.Begin` | compositor/polkit-agent/src/main.rs:157-183 | remembered, locked or full, duplicate, or queued, in this order |
| `AgentController.Controller.Cancel` | compositor/polkit-agent/src/main.rs:184-211 | cancels active and queued requests with the cookie, or remembers it, dropping the oldest of 32 |
| `AgentController.Controller.UserInput` | compositor/polkit-agent/src/main.rs:219-249 | follows the transition system on input from the dialog |
| `AgentController.Controller.Talk` | compositor/polkit-agent/src/main.rs:250-290 | follows it on what a conversation says, the unwrapped identity included |
| `AgentController.Controller.HandleEvent` | compositor/polkit-agent/src/main.rs:146-294 | follows it on every event, and says when to leave |
| `AgentController.Controller.Tick` | compositor/polkit-agent/src/main.rs:295-316 | follows it on the clock, which it reads twice |
| `AgentController.Serve` | compositor/polkit-agent/src/main.rs:386-409 | the event loop, event and tick in turn until told to leave, is a run of the transition system; the controller it returns has every request accounted for, cookies and queue in order, and the dialog too if no call broke its discipline, as none does when no conversation completes twice |
| `Scheduler.NotBefore` | compositor/src/volition/mod.rs:534-543 | the submit time is the target less the lead, but never in the past |
| `SchedulerSafety.OrderMeansBefore` | compositor/src/volition/mod.rs:262-273 | the reversed comparison makes the greatest the earliest deadline and then the oldest arrival |
| `SchedulerSafety.QuotaIsExact` | compositor/src/volition/mod.rs:322-352 | in every state of every run the counter is jobs being sent + in the channel + in the heap + in hand, within the capacity; so the channel is never full for a job that has a place, and the counter is positive whenever lowered |
| `SchedulerSafety.SubmissionDecides` | compositor/src/volition/mod.rs:322-352 | a submission gets a place if and only if there is no shutdown and fewer jobs are under way than the capacity, and with it a place in the channel |
| `SchedulerSafety.NoJobLost` | compositor/src/volition/mod.rs:383-492 | each accepted job is reported, or is in the channel, the heap or the worker's hand, exactly as often as it was accepted |
| `SchedulerSafety.AllReportedAtRest` | compositor/src/volition/mod.rs:413-428 | a worker that leaves on its own, or waits for a job with an empty channel, has reported every accepted job exactly as often as it was accepted |
| `SchedulerSafety.LostOnlyByShutdown` | compositor/src/volition/mod.rs:354-365 | jobs are left unreported only after a cancellation or a crash |
| `SchedulerEvents.TriedMeans` | compositor/src/volition/mod.rs:446-496 | an answer of busy less than 100 ms after the first attempt puts the job back for 100 us; any other settles it with the event it calls for, by its error number |
| `SchedulerEvents.EventsFollowAnswers` | compositor/src/volition/mod.rs:442-496 | over every run: a job is attempted again only after such an answer and 100 us, every answer is to the attempt before it, and the event reported is submitted if and only if the last answer was success, stalled if and only if it was busy past the window or one of seven recoverable errors, and otherwise failed |
| `SchedulerEvents.AnswerDecides` | compositor/src/volition/mod.rs:442-496 | at any point of any run, a job with such an answer waits in the heap for its next attempt, one with another is about to be reported, and one reported is gone |
| `SchedulerEvents.OldestFirst` | compositor/src/volition/mod.rs:373-381 | of jobs due at one time the one that came first goes first, if and only if no multiple of 2^64 lies between their numbers |
| `SchedulerShutdown.OneJobServed` | compositor/src/volition/mod.rs:403-462 | from the start: a job submitted to a device that accepts it is attempted once, at its time, and reported as submitted, and its place is free |
| `SchedulerShutdown.ShutdownStops` | compositor/src/volition/mod.rs:403-448 | after a shutdown, from any state of any run and whatever the device answers, the worker leaves within seven steps and one for each job in the channel |
| `SchedulerShutdown.ChannelGoesFirst` | compositor/src/volition/mod.rs:410-424 | before a job is taken from the heap, every job that was in the channel when the worker last began anew is in the heap |
| `SchedulerSafety.WakesForTheEarliest` | compositor/src/volition/mod.rs:419-442 | a waiting worker wakes no later than the earliest deadline in the heap |
| `SchedulerSafety.NoAttemptIsEarly` | compositor/src/volition/mod.rs:419-450 | over every run no attempt is made before the job's own time |
| `SchedulerSafety.RetriesAreBounded` | compositor/src/volition/mod.rs:444-506 | over every run a job accepted once is attempted at most 1001 times |
| `SchedulerSafety.Earliest` | compositor/src/volition/mod.rs:444-444 | a nonempty heap has a job to pop that none is due before |
| `SchedulerSafety.NoOvertaking` | compositor/src/volition/mod.rs:444-470 | an attempt takes a job that none in the heap is due before; a job leaves the heap only to be attempted |
| `SchedulerSafety.DueGoesFirst` | compositor/src/volition/mod.rs:444-470 | from any point of any run: until a job has been attempted it stays in the heap and no job due after it is attempted |
| `SchedulerSafety.RequeuedYields` | compositor/src/volition/mod.rs:464-470 | a busy job goes back behind every job that was already due |
| `SchedulerProgress.WorkIsBounded` | compositor/src/volition/mod.rs:403-492 | in every run without shutdown or crash the worker takes at most 13039 steps for each job that got a place, and 5 more |
| `SchedulerProgress.RestServesTheDue` | compositor/src/volition/mod.rs:413-470 | when the worker has nothing to do, every accepted job is reported, not yet due, or waiting for its next attempt within 100.1 ms of its first |
| `Projection.RotationComposes` | compositor/src/topology.rs:120-159 | turning the device by any orientation composes the input map of its turn with the panel's |
| `Projection.TurningBackRestores` | compositor/src/topology.rs:120-168 | the inverse rotation undoes a rotation, and neither reflects |
| `Projection.InputUndoesProjection` | compositor/src/topology.rs:107-118 | for every mode, source rectangle and all eight orientations, the input map of the normalized image of a point is its normalized place in the source |
| `Projection.SourceMapsIntoMode` | compositor/src/topology.rs:516-550 | a point is in the source rectangle exactly when its image is in the native mode |
| `Projection.ProjectionIsOnto` | compositor/src/topology.rs:516-550 | every native position is the image of the desktop point shown there |
| `Projection.ShownWhereProjected` | compositor/src/topology.rs:516-550 | and that point is the only one |
| `Projection.CornersTurn` | compositor/src/topology.rs:678-704 | the top left and top right corner of the source come out at the corners of the mode that the orientation says, quarter turns counter-clockwise |
| `Topology.FirstOverlap` | compositor/src/topology.rs:413-423 | the first earlier rectangle that overlaps, or none overlaps |
| `Topology.FaultOf` | compositor/src/topology.rs:386-426 | one output against those before it: its first fault in the order of the checks, or the first of them that it shares a point with, if and only if it is unsound or clashes |
| `Topology.OverlapMeans` | compositor/src/topology.rs:430-435 | two fit outputs overlap if and only if some point lies strictly inside both |
| `Topology.AcceptableIffAllowed` | compositor/src/topology.rs:381-428 | the set is acceptable if and only if every output has something written in its name, a positive mode, scale and refresh rate and its far edges at most 2147483647, and no two have a name or a point in common; sides are modes at 120 to the scale, exchanged by a quarter turn |
| `Topology.Validate` | compositor/src/topology.rs:381-428 | passes exactly such sets; otherwise the error is that of the first output with a fault after acceptable ones, the first of its faults in the order of the checks, and names with an overlap the first earlier output it shares a point with |
| `Topology.Stage` | compositor/src/topology.rs:302-314 | the loop over the changes is their fold |
| `Topology.LastChangeWins` | compositor/src/topology.rs:305-314 | staging is the last change for each output, or the output as before |
| `Topology.NextEpoch` | compositor/src/topology.rs:340-340 | the next epoch differs, is positive and wraps at 64 bits |
| `Topology.Manager.constructor` | compositor/src/topology.rs:267-272 | an empty manager is valid |
| `Topology.Manager.Apply` | compositor/src/topology.rs:297-352 | commits exactly the staged outputs with exact added, removed and changed lists, or reports a true error and changes nothing; keeps the manager valid |
| `Topology.SameWhenNoneDiffer` | compositor/src/topology.rs:319-339 | the three lists are empty exactly when the outputs are the same |
| `Topology.EpochTellsChange` | compositor/src/topology.rs:331-340 | the epoch moves exactly when outputs or primary do, by one, and from the largest 64-bit number to 1 |
| `Topology.EveryRunAcceptable` | compositor/src/topology.rs:297-350 | after any number of transactions every committed output is fit, and no two have a name or any point in common |
| `Atlas.LogicalBounds` | compositor/src/topology.rs:437-458 | the bounds enclose every output and each side is a side of one |
| `Atlas.ForSnapshot` | compositor/src/topology.rs:554-604 | one planned output for each output, at the highest scale, in the least enclosing rectangle |
| `Atlas.RoundIsNearest` | compositor/src/topology.rs:639-641 | rounding takes the nearest whole number, halves away from zero |
| `Atlas.EdgeIsNearest` | compositor/src/topology.rs:639-641 | an edge is the nearest pixel, clamped to 0 and 4294967295 |
| `Atlas.EverySourceFits` | compositor/src/topology.rs:567-595 | for every snapshot of a valid manager: a source rectangle is inside the image, and at its own edges without the guard, if and only if its first edges come before the last one 32 bits hold; at the highest scale it is one-to-one if and only if its last edges fit or it is one pixel there |
| `Atlas.NoTwoSourcesMeet` | compositor/src/topology.rs:567-595 | two source rectangles share a pixel if and only if both start beyond the last edge that fits, across or down, and do so the other way too or their rounded edges meet there |
| `Atlas.FittingImageIsExact` | compositor/src/topology.rs:554-595 | an image that fits in 32 bits has no clamped edge, so everything holds |
| `Atlas.FarApartCollide` | compositor/src/topology.rs:567-595 | three accepted outputs, two of which share a pixel outside the image |
| `Atlas.PixelsOfLength` | compositor/src/topology.rs:639-641 | rounding both edges keeps at least the whole pixels of a length, and exactly them if it is whole |
| `Poller.FlagIsExact` | compositor/polling/src/lib.rs:269-307 | in every interleaving the flag is up exactly when exactly one holds: a write is to come, the counter is 1, a waiter has read and not stored; the counter never saturates |
| `Poller.OneWaiterAtATime` | compositor/polling/src/lib.rs:258-266 | at most one thread is inside the poll |
| `Poller.NoLostWakeup` | compositor/polling/src/lib.rs:269-307 | after any notify, until a wait takes a notification, a thread in the poll has something to read or some notifier's write is still to come |
| `Poller.NotifiedWaitReturns` | compositor/polling/src/lib.rs:269-307 | after any notify, until a wait takes a notification, a polling thread returns with it in four steps once the write still to come is there, and leaves both flags down |
| `Poller.OtherWaitReturns` | compositor/polling/src/lib.rs:269-307 | a wait that ends for another reason or fails leaves the notification, and one can begin whenever none is in progress |
| `Budget.QuotaHolds` | compositor/flutter-engine/src/host.rs:372-414 | under every interleaving live permits are at most 256 and their bytes at most 16 MiB; with no call in progress the counters are exactly the live permits |
| `Budget.NoUnderflow` | compositor/flutter-engine/src/host.rs:393-413 | no counter is lowered below zero |
| `Budget.CallDecides` | compositor/flutter-engine/src/host.rs:372-414 | a call nobody races gets its permit if and only if fewer than 256 messages are under way and its bytes fit in 16 MiB; refused, or once dropped, it leaves both counters as they were |
| `Budget.Pool.Acquire` | compositor/flutter-engine/src/host.rs:330-342 | takes the storage pooled last, and the subtraction is exact |
| `Budget.Pool.Release` | compositor/flutter-engine/src/host.rs:344-362 | pools exactly what fits in number and size; the counter is the pooled capacity |
| `Framing.Connection.ReadMessage` | compositor/polkit-agent/src/ui.rs:196-220 | one read of any size leaves what the stream says unchanged, delivers its next message or its failure, and keeps the buffer within the limit |
| `Framing.Drive` | compositor/polkit-agent/src/ui.rs:196-220 | however the stream is cut and whatever timeouts come between, the messages are the stream's own, in order, up to its first failure |
| `Framing.LinesComeBack` | compositor/denial-portal/src/access.rs:340-372 | a stream of acceptable lines says exactly their messages and then whatever follows |
| `Framing.BadLineEnds` | compositor/polkit-agent/src/ui.rs:205-219 | a line over 16384 bytes with its newline, or one that does not parse, ends the reading |
| `Framing.RestIsKept` | compositor/polkit-agent/src/ui.rs:205-219 | bytes without a newline are kept for later, unless there are more than 16384 |
| `Quoting.QuotingRoundTrip` | compositor/polkit-agent/src/bus.rs:129-143 | splitting the joined quoted line by the shell's backslash and single quote gives back the arguments, any number and any content; this is before the line is flattened |
| `Quoting.QuotingIsOneToOne` | compositor/polkit-agent/src/bus.rs:129-143 | different argument lists give different quoted lines, before flattening |
| `Quoting.QuotedWhen` | compositor/polkit-agent/src/bus.rs:131-141 | an argument is shown as it is if and only if it is made of letters, digits and the ten signs, and otherwise between quotes |
| `Quoting.DetailIsOneLine` | compositor/polkit-agent/src/bus.rs:147-160 | whatever is shown is one trimmed nonempty line without control characters, at most 4096 bytes; nothing is shown exactly of what is longer or has only blanks and controls |
| `Text.SizeIsEncoded` | compositor/polkit-agent/src/bus.rs:151-154 | lengths are counted in UTF-8 bytes |
| `Text.Codes` | compositor/polkit-agent/src/bus.rs:155-159 | the characters replaced and trimmed, by their codes |
| `Quoting.ShownReadsBack` | compositor/polkit-agent/src/bus.rs:129-160 | the shown command reads back as the arguments with control characters replaced by spaces; as the arguments themselves if and only if none holds one and the quoted line has at most 4096 bytes |
| `Quoting.ShownAlikeIff` | compositor/polkit-agent/src/bus.rs:129-160 | two commands are shown alike if and only if both are hidden, or neither is and they agree once control characters are spaces |
| `Quoting.TabShownAsSpace` | compositor/polkit-agent/src/bus.rs:155-158 | an argument with a tab and one with a space are shown alike |
| `Quoting.LongCommandHidden` | compositor/polkit-agent/src/bus.rs:152-154 | a command of 4097 letters is not shown |
| `Quoting.ScanOptions` | compositor/polkit-agent/src/bus.rs:106-128 | the loop over the options is the recursive scan |
| `Quoting.ScanUndoesWriting` | compositor/polkit-agent/src/bus.rs:106-128 | whatever options are written before a command, the command and the account asked for last come back |
| `Quoting.ScanDecides` | compositor/polkit-agent/src/bus.rs:109-130 | any arguments are options and a rest that decides: nothing, an option without its account, two dashes, a dash that is no option and shows nothing, or the command |
| `Quoting.TrimArguments` | compositor/polkit-agent/src/bus.rs:103-105 | drops the empty arguments at the end |
| `Quoting.ArgumentsRecovered` | compositor/polkit-agent/src/bus.rs:99-105 | the recorded command line gives back all its arguments but empty ones at the end, and ends in none; so exactly its arguments if and only if the last is not empty |
| `Quoting.EmptyLastArgumentIsLost` | compositor/polkit-agent/src/bus.rs:103-105 | an empty argument after the others is not shown |
| `Quoting.EmptyArgumentExample` | compositor/polkit-agent/src/bus.rs:103-105 | a concrete command line whose empty last argument is lost |
| `Quoting.CommandComesBack` | compositor/polkit-agent/src/bus.rs:98-128 | from the recorded command line to command and account |
| `Quoting.PkexecCommand` | compositor/polkit-agent/src/bus.rs:98-160 | shows nothing for unknown options; otherwise the account and, unless there is no command or it is too long, a line that reads back as the command with control characters replaced by spaces, and as the command itself if and only if it holds none |

## Left out

- Reading word lists: line syntax, shortcuts, accents and gzip are not modelled; a line is its key, written form, frequency, flag and set of language positions, and an empty key is rejected before merging.
- After the candidates: capitalisation, shortcuts, the suggestion bar and the decision to correct; and the key geometry behind the substitution table, which is any table of nonnegative costs that is 0 for the typed letter itself.
- Floating point: all costs, coordinates and scales are exact reals, so rounding error and infinities are not modelled.
- Node and entry numbers are unbounded, so tries of more than 2^32 nodes behave as smaller ones do.
- Sorting and the priority heaps are modelled by what they guarantee (an insertion sort, a list with extraction of a greatest item), not by the standard library's algorithms.
- The worker and producers of the scheduler, the poller and the message counters are steps of a state machine and not loops, because their point is how they interleave; atomic operations are sequentially consistent.
- Scheduler: starting with capacity 0, thread start-up and the ioctl itself are left out; the device answers anything at any time.
- The agent's D-Bus, dialog process, texts and logging are left out; whether a dialog or conversation starts, and whether a response is accepted, is any answer at all.
- Snapshots: the choice of the output that paces the clock, and the render plan derived from the atlas.
- Poller: the list of other sources, timeouts and error codes are any outcome of the poll.
- Framing: parsing is any function of a line; a read that times out returns before touching the buffer.
- Quoting: arguments are sequences of characters, so the replacement of bytes that are not UTF-8 before anything else is not modelled; letters beyond ASCII are any set without blanks and controls.
- Device, graphics, portal and packaging code.
