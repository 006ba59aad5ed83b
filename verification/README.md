# Verified models of the Moses toolkit's stateful core

This project models eight pieces of the repository in Dafny and proves what they are for:

- **KenLM queries** (`NGram`, `Query`, `Chart`). `NGram` holds one table from n-grams, newest
  word first, to log-probability, backoff and the two flags that the original keeps in sign
  bits, together with the textbook backoff score. `Query` has the query functions of
  `kenlm/lm/model.cc` with their minimised states and early exits; `Chart` has the class
  `RuleScore` of `kenlm/lm/left.hh`, which glues scored fragments. All of them compute the
  textbook score.
- **Building the hashed model** (`HashedLoad`, `HashedExamples`, `Pipeline`): reading listed
  n-grams into probing tables of fixed size, filling holes with blanks, keeping the sign bits;
  then loading and scoring end to end.
- **Building and searching the trie** (`Lexicographic`, `BlankStream`, `TrieBuild`,
  `SriBackoffs`, `PackedArray`, `TrieLookup`, `TrieWrite`, `TrieWeights`, `TrieTable`,
  `TriePipeline`): the merge that inserts missing prefixes, the messages by which these fetch
  backoffs, the bit-packed arrays with pointers and the pass that writes them, the
  interpolation search over their bits, and all of it together, from sorted files to the answer
  of a lookup and to the table that the queries walk.
- **Storage** (`BitPacking`, `Bhiksha`, `Probing`): bit fields, compressed pointers and the
  linear-probing table.
- **MERT** (`LineSearch`): the upper envelope of `LineOptimize` and the incremental scores.
- **TER** (`EditDistance`, `Shifts`, `Ter`): the beam edit distance with traceback, and the
  greedy search for block shifts.
- **lmserver** (`Threads`, `ConnQueue`, `Lines`, `Outgoing`, `Connection`): the hand-off of
  connections between threads as a machine of interleaved steps, the linked lists behind it,
  and a TCP connection under any chunking of reads and any partial writes.
- **On-disk phrase tables** (`OnDiskFile`, `PhraseTrie`): incremental saving to append-only
  files, and lookup by binary search.

`GramSets`, `Options` and `Division` hold what several of these share. Numbers are exact:
log-probabilities, scores and feature values are reals, and hash keys are the n-grams or
words themselves. Inputs from outside (files, sockets, the language model behind the server)
are parameters.

`dafny verify dfyconfig.toml` checks everything.

## What turned out not to hold

Some promises need a condition. The proofs give the exact one, and an input that fails:

- Gluing fragments (`kenlm/lm/left.hh:176-212`) is right for all fragments and histories
  exactly when every right-extending n-gram stays right-extending without its oldest word
  (`Chart.GluingIsExactIffMonotone`). `Chart.LopsidedModelChargesEarly` is a table with three
  entries where a backoff is charged before any word follows; a bigram with a backoff whose
  newest word has none is enough. The charge is never lost: what comes next owes exactly it
  and restores the state, so that over any table the total of a rule is ahead only by what its
  last fragment was charged (`Chart.ScoreItems`).
- A hashed load makes its probing tables for the listed n-grams alone, so blanks have to fit
  into the empty buckets. It succeeds exactly if histories are listed or filled in in time and
  there is room in each middle order (`HashedLoad.HashedSearch.InitializeFromARPA`).
  `HashedExamples.LoadFullTable` is refused for its only blank.
- A hashed load that succeeds keeps all scores exactly when no backed-off estimate that would
  fill a hole is positive (`HashedLoad.LoadKeepsScoresIff`), for the sign bit of the
  log-probability is reused as a flag. `HashedExamples.LoadPositiveBlank` is a file that loads
  at the default table size and is then scored wrongly.
- `Read1Gram` does not set the sign bit of a unigram's log-probability. A unigram of
  log-probability zero without longer n-grams therefore claims to extend left. All left flags
  are exact just when there is none (`HashedLoad.LeftFlagsExactIff`,
  `HashedExamples.LoadLonelyZero`); scores are not affected.
- The range that `ArrayBhiksha::ReadNext` gives for the last entry ends right exactly when its
  own pointer and the closing one share their high bits, for the closing pointer is written
  with an index that is one too many (`kenlm/lm/trie.cc:117-121`,
  `Bhiksha.ArrayBhiksha.ReadNext`). `Bhiksha.LastRangeLost` has 64 pointers of which the last
  range is read as empty.
- `BlankManager::Visit` does not record the last word of an n-gram for which it inserted
  blanks (`kenlm/lm/search_trie.cc:352-359`, unlike line 342). The cell keeps what it held, and
  the next n-gram is compared with that. The stream of the merge is right exactly if no
  comparison is misled (`BlankStream.RightIffNeverMisled`). It is right whatever those cells
  hold exactly if no such n-gram is listed directly before a longer one that shares all its
  words but the last (`BlankStream.AlwaysRightIff`). `TrieBuild.LosesTrack` is a run over six
  n-grams that goes wrong.
- `BackoffMessages::Apply` stops where the records end (`kenlm/lm/search_trie.cc:104`), so a
  blank that is the history of another blank is not marked as extending right if it comes after
  every listed n-gram of its length. The table of the trie is what the queries assume exactly if
  there is no such blank (`TrieTable.TrieIsValidIff`); `TrieTable.MarkIsLost` is a file of seven
  n-grams with one. The comment at line 526 fears for the state that is returned, but no score
  is lost: whatever is remembered, every word scores as in the file
  (`TrieTable.LostMarksCostNothing`).
- A command line that is empty but for its carriage return arrives as a command of that one
  character; all commands arrive unchanged exactly when none is empty (`Lines.EncodedArrive`,
  `Lines.EmptyCommandArrives`).

## Model

| member | source | states |
|---|---|---|
| Query.FullScore | kenlm/lm/model.cc:92-98 | From any state that stands for a history, scoring one word gives exactly the textbook backoff log-probability over the whole history, the length of the longest stored match, the left-independence flag, and the one canonical state of the longer history |
| Query.ScoreExceptBackoff | kenlm/lm/model.cc:212-267 | The lookup loop with its early exits finds the longest stored n-gram, its log-probability, whether it can still extend left, and the canonical state |
| Query.ClimbContext | kenlm/lm/model.cc:223-255 | The lookups over the middle orders stop at the longest stored n-gram of the context or where the orders end, with its log-probability, backoffs and the length later words can use |
| Query.CopyRemainingHistory | kenlm/lm/model.cc:196-205 | The out-state's words are the new word and as much history as the recorded length asks for |
| Query.FullScoreForgotState | kenlm/lm/model.cc:100-123 | Scoring from a raw context of any length agrees with the textbook score, the longest match and the state a chained query would have; the left flag and pointer are those of the n-gram of the words that the order allows |
| Query.AddBackoffs | kenlm/lm/model.cc:104-121 | Adding backoffs up to the first unlisted history gives the sum over all of them, listed or not |
| Query.GetState | kenlm/lm/model.cc:125-146 | The state built from a raw context is the canonical state of that context |
| Query.StartStatesRepresent | kenlm/lm/model.cc:36-45 | The begin-sentence state stands for the history of that one word and the null state for the empty one |
| Query.ScoreText | kenlm/lm/model.cc:92-98 | Chained through minimised states, every word of every text gets its textbook score over its full history |
| Query.HistoryCutToOrder | kenlm/lm/model.cc:101 | Words further back than Order - 1 never matter |
| Query.EqualStatesEqualFutures | kenlm/lm/model.hh:30-43 | States with equal words have equal backoffs, score every continuation alike and stay equal, whatever the histories were |
| Query.CutHistory | kenlm/lm/model.cc:92-98 | A minimised history may replace the full one: same score, same next state |
| Query.Climb | kenlm/lm/model.cc:165-186 | The lookups that extend a stored n-gram to the left stop at the longest stored extension and record how much of it later words can use |
| Query.ExtendLeft | kenlm/lm/model.cc:148-194 | Extending a scored n-gram to the left returns exactly the difference between the new textbook score and the old estimate, the length of the longest stored match, the new left flag and pointer, and the backoffs and length the next word needs |
| Query.Accumulate | kenlm/lm/model.cc:94-96 | The added backoffs are the sum over the unmatched part of the state |
| NGram.KatzIsMatchPlusBackoff | kenlm/lm/model.cc:92-98 | The recursive score equals the longest match plus the backoffs of the histories above it |
| NGram.ScoreOfCutHistory | kenlm/lm/model.cc:230-233 | Forgetting history that is not flagged right-extending changes no score |
| NGram.TotalAppend | kenlm/lm/left.hh:118-130 | The total of a concatenation is the total of the newer part over the older one plus that of the older part |
| Chart.RuleScore.constructor | kenlm/lm/left.hh:120-123 | An empty rule has no words, no score, and a well-formed summary |
| Chart.RuleScore.BeginSentence | kenlm/lm/left.hh:125-129 | The sentence start counts as context and closes the left side |
| Chart.RuleScore.Terminal | kenlm/lm/left.hh:131-143 | Adds the textbook score of the word given all words so far, and keeps the summary of the longer fragment; behind a fragment that was charged early the charge counts towards what the word owes, and total and state are right again |
| Chart.RuleScore.NonTerminal | kenlm/lm/left.hh:152-212 | Gluing a scored fragment, also directly behind one that was charged early, gives the flattened total and the summary of the concatenation, exactly unless the fragment is itself charged early; then the total is ahead by just that charge |
| Chart.RuleScore.BeginNonTerminal | kenlm/lm/left.hh:146-150 | A leading fragment may be copied as it stands |
| Chart.RuleScore.Finish | kenlm/lm/left.hh:214-218 | The finished chart state is the canonical one of the words, with `full` set exactly when no left context can change anything more |
| Chart.Glue | kenlm/lm/left.hh:152-212 | The whole case analysis of gluing over values: total, left pointers, right state and left-done flag of the concatenation |
| Chart.ExtendWord | kenlm/lm/left.hh:221-248 | One word of the fragment is re-scored against the words to its left; an early exit happens only when nothing left of it can be used any more |
| Chart.ExtendWords | kenlm/lm/left.hh:180-187 | The loop over the fragment's pointers keeps score, left pointers and shrinking use of the older words in step |
| Chart.RuleFlattens | kenlm/lm/left.hh:118-130 | Replacing a rule by its children leaves the words of a derivation as they are |
| Chart.LeavesAreWords | kenlm/lm/left.hh:131-143 | The words of a flat derivation are those of the sentence, the last one first |
| Chart.ScoreRule | kenlm/lm/left.hh:118-257 | Over a right-monotone table, every nesting of terminals and non-terminals gets the total and the chart state of its flattened words |
| Chart.ScoreSentence | kenlm/lm/left.hh:118-257 | The same behind the beginning of a sentence |
| Chart.SealedRest | kenlm/lm/left.hh:84-109 | Once a fragment is full, words beyond its left pointers score the same with and without left context |
| Chart.ChargeBackoffs | kenlm/lm/left.hh:155-162 | For a fragment without left pointers the remaining backoffs of the context are exactly what its first word owes |
| Chart.PointersAreOldest | kenlm/lm/left.hh:140-142 | The left pointers are the left-extending n-grams at the old end, shortest first |
| Chart.GluingIsExactIffMonotone | kenlm/lm/left.hh:176-212 | Gluing is right for every fragment behind every history exactly when every right-extending n-gram stays one without its oldest word |
| Chart.NotMonotoneChargesEarly | kenlm/lm/left.hh:228-235 | Where that fails, a concrete fragment and history are glued wrongly |
| Chart.ChargedEarlyIsWrong | kenlm/lm/left.hh:228-235 | The state left behind in that case is not the canonical one |
| Chart.WordsAfterCharge | kenlm/lm/left.hh:152-212 | Words behind a fragment charged early ignore what stood before it, and together owe exactly the charge |
| Chart.GluedAfterCharge | kenlm/lm/left.hh:152-212 | Gluing behind a fragment charged early does, from its too short state, what gluing behind all the words has to do |
| Chart.ScoreItems | kenlm/lm/left.hh:118-257 | Over any table, right-monotone or not, a rule of words and finished fragments is charged exactly the total of its words but for what its last fragment may have been charged ahead |
| Chart.WordAfterCharge | kenlm/lm/left.hh:131-143 | What is charged early is exactly what the next word owes, over any table, and that word restores the canonical state |
| Chart.LopsidedModelChargesEarly | kenlm/lm/left.hh:228-235 | A valid three-entry table on which gluing charges a backoff of -0.5 before any word follows |
| HashedLoad.HashedSearch.constructor | kenlm/lm/search_hashed.cc:133-146 | Empty tables, sized for the n-grams the file counts and not for blanks |
| HashedLoad.HashedSearch.Insert | kenlm/util/probing_hash_table.hh:64-74 | An n-gram of its order is added exactly if a bucket of that table stays empty; otherwise the insertion throws |
| HashedLoad.HashedSearch.FixSRI | kenlm/lm/search_hashed.cc:53-84 | Fills every hole between the longest stored prefix and the n-gram read with blanks whose log-probability is the textbook backoff estimate, flags every history used, and touches nothing else; it throws only if the prefixes of the n-gram do not all fit |
| HashedLoad.HashedSearch.ReadNGram | kenlm/lm/search_hashed.cc:94-125 | One line keeps the table closed and its flags right; it succeeds exactly if the history of the n-gram is stored before or starts the n-gram itself, and the n-gram and its missing prefixes fit the probing tables |
| HashedLoad.HashedSearch.ReadNGrams | kenlm/lm/search_hashed.cc:86-128 | The lines of one order are read without error exactly if each one's history is listed, or starts a line of that order read by then and so has been filled in, and all prefixes of the lines fit the probing tables |
| HashedLoad.HashedSearch.Read1Grams | kenlm/lm/read_arpa.hh:33-62 | Unigrams are stored as listed; the sign bit of a zero log-probability is left clear (a zero is taken to be written without a sign) |
| HashedLoad.HashedSearch.InitializeFromARPA | kenlm/lm/search_hashed.cc:148-173 | A load succeeds exactly if every listed n-gram's history is listed or filled in by the time it is needed, and for each middle order the n-grams that listed ones start with are fewer than the buckets made for the listed ones alone; then every listed n-gram is stored, the table is closed under dropping the oldest word, and every history is stored and flagged |
| HashedLoad.ContextIsReady | kenlm/lm/search_hashed.cc:94-125 | What the table holds when a line is read can be told from the file: a history is found exactly if it is listed or starts a line up to this one |
| HashedLoad.BlankIsNew | kenlm/lm/search_hashed.cc:53-84 | A blank is never stored already, so each one takes a bucket |
| HashedLoad.LoadedKeys | kenlm/lm/search_hashed.cc:86-128 | What is stored in the end is exactly what listed n-grams start with |
| HashedLoad.RoomIsFit | kenlm/lm/search_hashed.cc:148-173 | That all this fits the probing tables can be told length by length from the file |
| HashedLoad.LongestHaveRoom | kenlm/util/probing_hash_table.hh:39-41 | The table of the highest order always has room, for no blank is that long |
| HashedLoad.GrowsIffListed | kenlm/lm/search_hashed.cc:104-124 | An entry has a longer one exactly when a longer listed n-gram starts with it |
| HashedLoad.LoadedTableIsValid | kenlm/lm/search_hashed.cc:101-122 | If no blank is positive, the loaded table satisfies all that the queries and the gluing assume |
| HashedLoad.LeftFlagsExactIff | kenlm/lm/search_hashed.cc:101-122 | Every left flag says whether something longer is stored exactly when no unigram of log-probability zero stands alone |
| HashedLoad.RightFlagsExact | kenlm/lm/search_hashed.cc:53-125 | A right flag is set exactly where there is a backoff to charge or something stored has the entry as its history |
| HashedLoad.ScoresAreListed | kenlm/lm/search_hashed.cc:53-84 | Blanks change no textbook score of any word sequence |
| HashedLoad.PositiveBlankIsWrong | kenlm/lm/search_hashed.cc:57-59 | If a backoff estimate is positive, some score is wrong, for the sign bit cannot hold it |
| HashedLoad.LoadKeepsScoresIff | kenlm/lm/search_hashed.cc:53-128 | All scores survive the load exactly when no backed-off estimate of a listed n-gram's prefix is positive |
| HashedExamples.LoadPositiveBlank | kenlm/lm/search_hashed.cc:56-66 | A file of eight n-grams loads without error at the default table size, and a bigram that the file scores 1 is scored at most 0 by the table |
| HashedExamples.LoadFullTable | kenlm/lm/search_hashed.cc:171-173 | A file whose histories are all listed or filled in is refused, for its one blank has no bucket left at the default table size |
| HashedExamples.LoadLonelyZero | kenlm/lm/read_arpa.hh:33-62 | A file of one word with log-probability zero loads without error, and the word claims to extend left although nothing longer is stored |
| Pipeline.LoadAndScore | kenlm/lm/model.cc:53-98 | Loading succeeds exactly under the conditions on histories and on room for blanks; then scoring any text gives every word the score the file itself gives it by the textbook |
| TrieBuild.BlankManager.constructor | kenlm/lm/search_trie.cc:329-331 | Nothing visited, all bases unset |
| TrieBuild.BlankManager.Visit | kenlm/lm/search_trie.cc:333-360 | For any n-gram: fails exactly on a missing unigram, and otherwise emits what one step of the stream emits, where the cell of the last word keeps what it held if blanks were inserted |
| TrieBuild.BlankManager.Recall | kenlm/lm/search_trie.cc:341-345 | Where nothing is missing the n-gram is recorded whole |
| TrieBuild.BlankManager.VisitBlanks | kenlm/lm/search_trie.cc:346-359 | Where blanks are missing they are emitted on the longest listed prefix, and all words but the last are recorded |
| TrieBuild.BlankManager.Process | kenlm/lm/search_trie.cc:388-404 | One round extends the stream by one visit |
| TrieBuild.BlankManager.FindOverlap | kenlm/lm/search_trie.cc:335-340 | The overlap is the common prefix with the n-gram visited last, short of the last word |
| TrieBuild.BlankManager.FindBasis | kenlm/lm/search_trie.cc:349-351 | Walking back over unset bases ends at the longest listed prefix |
| TrieBuild.BlankManager.InsertBlanks | kenlm/lm/search_trie.cc:352-358 | Writes one blank for each missing length, all on the same basis |
| BlankStream.BeyondOverlap | kenlm/lm/search_trie.cc:335-346 | A prefix longer than the overlap has not been emitted before |
| BlankStream.EventsStep | kenlm/lm/search_trie.cc:333-360 | The events of a visit that finds the true overlap keep the stream strictly increasing and equal to the listed n-grams so far and their prefixes |
| BlankStream.StepInOrder | kenlm/lm/search_trie.cc:333-360 | A visit that is not misled by an unrecorded cell keeps the stream right so far |
| BlankStream.StepSpoils | kenlm/lm/search_trie.cc:352-359 | A visit that is misled emits an n-gram twice or misses a prefix for good |
| BlankStream.RightIffNeverMisled | kenlm/lm/search_trie.cc:333-405 | For every content of the unrecorded cells, the whole stream is right exactly if no visit is misled by the cell of the n-gram before |
| BlankStream.AlwaysRightIff | kenlm/lm/search_trie.cc:333-405 | The stream is right for every content of the unrecorded cells exactly if no n-gram for which blanks were inserted is followed by a longer one that shares all its words but the last |
| BlankStream.ClosedIsHarmless | kenlm/lm/search_trie.cc:333-405 | Listings in which only n-grams of the highest order lack prefixes meet that condition |
| TrieBuild.Top | kenlm/lm/search_trie.cc:316-325 | The queue yields the least of the fronts, a prefix before its extensions |
| TrieBuild.ReadFront | kenlm/lm/search_trie.cc:384-405 | Taking the least front and advancing its file leaves exactly the records after it unread |
| TrieBuild.FrontIsNext | kenlm/lm/search_trie.cc:384-405 | The least front is the next listed n-gram: none lies between it and the last |
| TrieBuild.RecursiveInsert | kenlm/lm/search_trie.cc:373-408 | The merge ends and consumes every record; it emits in strictly increasing order exactly the listed n-grams and their prefixes, every blank on its longest listed prefix, exactly if no visit was misled, and always if no loss can matter |
| TrieBuild.LosesTrack | kenlm/lm/search_trie.cc:333-405 | A run over six listed n-grams, in memory that starts with any content, whose stream is wrong |
| PackedArray.Insert | kenlm/lm/trie.cc:75-87 | Writing a row field by field with 64-bit ors changes the memory just as the row says |
| PackedArray.AppendedAt | kenlm/lm/trie.cc:75-87 | Each bit of the row is or-ed in at its place and no other bit changes |
| PackedArray.HoldsAppended | kenlm/lm/trie.cc:75-87 | Memory that holds some rows and zeros holds them and the new row afterwards, and zeros behind it |
| PackedArray.FinishedLoading | kenlm/lm/trie.cc:117-121 | The closing pointer is written behind the last row |
| PackedArray.HoldsClosed | kenlm/lm/trie.cc:117-121 | It stands where the pointer of one more row would |
| PackedArray.RowRead | kenlm/lm/trie.cc:94-101 | Word, both weight codes and pointer of every row read back, for all field widths up to 57 |
| PackedArray.NonPositiveRead | kenlm/lm/quantize.hh:35-41 | An unquantised log-probability reads back with its sign bit set whatever follows |
| PackedArray.FloatRead | kenlm/lm/quantize.hh:35-44 | An unquantised backoff reads back whole |
| TrieLookup.U64 | kenlm/util/sorted_uniform.hh:65-85 | Unsigned arithmetic wraps |
| TrieLookup.Pivot32 | kenlm/util/sorted_uniform.hh:27-31 | The interpolated pivot is inside the range and its product does not overflow |
| TrieLookup.ChoosePivot | kenlm/util/sorted_uniform.hh:71 | The pivot lies strictly between the bounds even when the lower one is index zero minus one |
| TrieLookup.SortedRangeIsShort | kenlm/lm/trie.cc:33-37 | A range of distinct words is no longer than the vocabulary |
| TrieLookup.FindWord | kenlm/lm/trie.cc:16-37 | The interpolation search over the packed words ends inside its range and finds a word exactly if it is there |
| TrieLookup.ChooseLayouts | kenlm/lm/trie.cc:49-73 | The field widths are the least that cover all words and pointers; choosing them fails exactly where the original throws for too many entries |
| TrieLookup.Trie.constructor | kenlm/lm/trie.cc:49-73 | Zeroed memory for the counts given, empty map |
| TrieLookup.Trie.Insert | kenlm/lm/trie.cc:75-87 | Appending in pre-order adds exactly the one n-gram to the map that the bit-packed arrays stand for |
| TrieLookup.ArraysMore | kenlm/lm/trie.cc:75-87 | Appending to one bit-packed array leaves all arrays in agreement with their entries |
| TrieLookup.Trie.FinishedLoading | kenlm/lm/search_trie.cc:543-548 | Each array of a middle order is closed with the size of the next; nothing stored changes |
| TrieLookup.Trie.ReadNext | kenlm/lm/bhiksha.hh:42-46 | The two pointers read from the bits delimit exactly the children of an entry, sorted |
| TrieLookup.Trie.Descend | kenlm/lm/search_trie.hh:69-87 | From the unigram down, one search between two pointers for each word reaches the entry of the n-gram exactly if it is stored |
| TrieLookup.ReadCodes | kenlm/lm/trie.cc:95-98 | The codes read from the bits of an entry are those written |
| TrieLookup.RangeOf | kenlm/lm/trie.hh:50-56 | Pointers of neighbouring entries delimit the children of the first |
| TrieLookup.Trie.Lookup | kenlm/lm/search_trie.hh:69-87 | Walking down through the bits succeeds exactly on stored n-grams, returns the codes of their weights, and reports independence of the left exactly when there is no child |
| TrieLookup.InsertOk | kenlm/lm/trie.cc:75-87 | Appending keeps arrays, pointers and map in agreement |
| SriBackoffs.SortMessages | kenlm/lm/search_trie.cc:150-159 | Messages are put in the order of the files, none lost and none twice |
| SriBackoffs.Answer | kenlm/lm/search_trie.cc:104-122 | A message that is not beyond the record is answered by it, or noted because nobody listed is to receive it |
| SriBackoffs.Apply | kenlm/lm/search_trie.cc:96-129 | One pass over sorted messages and sorted records gives every blank the backoff of the listed n-gram it asked, marks exactly the n-grams asked, and notes exactly the blanks asked that come before some record |
| SriBackoffs.RestUndelivered | kenlm/lm/search_trie.cc:96-129 | Messages that are left when the records end would have fetched nothing, and the blanks they were sent to are not noted |
| SriBackoffs.ApplyUnigrams | kenlm/lm/search_trie.cc:73-94 | The same for unigrams, all of which are listed |
| SriBackoffs.MessagesOneEach | kenlm/lm/search_trie.cc:183-192 | No two messages of one order come from the same blank |
| SriBackoffs.SriSucks.constructor | kenlm/lm/search_trie.cc:176-181 | No values and no messages |
| SriBackoffs.SriSucks.Send | kenlm/lm/search_trie.cc:183-192 | A blank asks its histories from the length of its basis on, one message for each order |
| SriBackoffs.SriSucks.SendAll | kenlm/lm/search_trie.cc:239-242 | After the stream each order holds the messages of all its blanks |
| SriBackoffs.OneLevelPaid | kenlm/lm/search_trie.cc:194-204 | Delivering the messages of one order pays each blank that asked exactly one more backoff |
| SriBackoffs.SriSucks.ObtainBackoffs | kenlm/lm/search_trie.cc:194-204 | When all orders are delivered each blank has its basis and the backoffs of all histories it asked, and exactly the n-grams asked are marked |
| SriBackoffs.SriSucks.Extends | kenlm/lm/search_trie.cc:132-147 | Read in the order of the stream, the list of noted blanks tells exactly which are on it |
| SriBackoffs.SriSucks.GetBlank | kenlm/lm/search_trie.cc:206-212 | A blank gets its value, and the mark exactly if it was noted |
| TrieWrite.CountOrders | kenlm/lm/search_trie.cc:226-260 | The counts are the numbers of distinct n-grams of each length, blanks and all, less the unigram one past the vocabulary |
| TrieWrite.RoomLeft | kenlm/lm/search_trie.cc:226-260 | An array sized by these counts always has room for the next n-gram of the stream |
| TrieWrite.ReadOn | kenlm/lm/search_trie.cc:288-297 | A file of histories stands at the first one that has not been met; the next n-gram moves it on exactly if it is that one |
| TrieWrite.AllRead | kenlm/lm/search_trie.cc:526-540 | A file of histories is at its end exactly if all of them have been met |
| TrieWrite.PopulateUnigramWeights | kenlm/lm/search_trie.cc:442-457 | Marks exactly the unigrams that are histories, and reads their file to its end |
| TrieWrite.NextWeights | kenlm/lm/search_trie.cc:283-302 | An n-gram is written with the weights of its record, marked if it is the next history of its length, or with what was found for the blank |
| TrieWrite.WriteNext | kenlm/lm/search_trie.cc:279-302 | One n-gram more is stored with its weights; those stored before keep theirs |
| TrieWrite.WriteEntries | kenlm/lm/search_trie.cc:266-302 | A pre-order stream becomes a trie of exactly its n-grams, each with the weights planned for it, and every file of histories is read as far as its histories were met |
| TrieWrite.ContextsRead | kenlm/lm/search_trie.cc:526-540 | The check passes exactly if every history of two words and more has been met |
| TrieWeights.HistoryIff | kenlm/lm/search_trie.cc:183-192 | An n-gram is the history of something stored exactly if it is the history of a listed n-gram or of a blank |
| TrieWeights.AskedIff | kenlm/lm/search_trie.cc:183-192 | Messages reach exactly the histories of blanks |
| TrieWeights.OwedIsKatz | kenlm/lm/search_trie.cc:194-204 | Basis and backoffs owed make the textbook score of the blank |
| TrieWeights.ProbIsScore | kenlm/lm/search_trie.cc:206-212 | The log-probability written is the textbook score of the file, listed or not |
| TrieWeights.BackIsMarked | kenlm/lm/search_trie.cc:283-297 | The backoff written is the listed one; it is marked exactly if it is not zero or something stored has the n-gram as its history, but for blanks after the last listed n-gram of their length |
| TriePipeline.BuildTrie | kenlm/lm/search_trie.cc:461-549 | From sorted files to a bit-packed trie that stores exactly the listed n-grams and their prefixes, with the textbook scores, backoffs and marks of the file; building fails exactly when an order has too many entries or the history of a listed n-gram is not listed |
| TriePipeline.FirstPass | kenlm/lm/search_trie.cc:226-260 | Counting and asking in one pass, then all backoffs delivered |
| TriePipeline.StreamsAgree | kenlm/lm/search_trie.cc:373-408 | Both passes see the same stream, whatever memory held in either |
| TriePipeline.AllReadIffListed | kenlm/lm/search_trie.cc:526-540 | All histories are met exactly if every history of a listed n-gram is listed |
| TriePipeline.SecondPass | kenlm/lm/search_trie.cc:442-540 | Unigrams are marked and the trie is written; the check passes exactly if every history of a listed n-gram is listed |
| TriePipeline.StreamInPreOrder | kenlm/lm/search_trie.cc:384-405 | The merged stream is what the trie's insertion needs |
| TriePipeline.UnigramsAreIdentity | kenlm/lm/trie.hh:50-56 | The unigram array holds each word at its own number |
| TriePipeline.LevelIs | kenlm/lm/trie.cc:75-87 | Each array holds exactly the stored n-grams of its length |
| TriePipeline.BuildAndLookup | kenlm/lm/search_trie.cc:461-549 | From sorted files through bits to an answer: a lookup finds an n-gram exactly if the table that stands for the file has it, with log-probability, backoff and both flags |
| TrieTable.EntryIs | kenlm/lm/search_trie.hh:69-87 | An entry of that table has the textbook score, the listed backoff, the mark, and extends left exactly if something stored goes on with it |
| TrieTable.TrieIsValidIff | kenlm/lm/search_trie.cc:526-540 | The table is all that the queries assume exactly if no blank that is a history comes after every listed n-gram of its length |
| TrieTable.TrieScores | kenlm/lm/search_trie.cc:283-302 | Blanks change no textbook score |
| TrieTable.NothingGoesOn | kenlm/lm/search_trie.cc:526-540 | Nothing listed has an n-gram as its history that is not to be marked |
| TrieTable.LostMarksCostNothing | kenlm/lm/search_trie.cc:526-528 | A query that remembers only what is marked scores every word of every text as the file does, marks lost or not |
| TrieTable.MarkIsLost | kenlm/lm/search_trie.cc:104-129 | A file of seven n-grams that can be built loses the mark of a blank |
| BitPacking.RequiredBits | kenlm/util/bit_packing.cc:17-22 | The least number of bits whose values cover the maximum |
| BitPacking.WriteInt57 | kenlm/util/bit_packing.hh:62-65 | The unaligned 64-bit or changes the bits of its field and no other bit |
| BitPacking.WriteAll | kenlm/util/bit_packing.hh:50-65 | In zeroed memory, disjoint fields of at most 57 bits written in any order all read back |
| BitPacking.WriteReads | kenlm/util/bit_packing.hh:54-65 | A zeroed field reads back what was written |
| BitPacking.WriteKeeps | kenlm/util/bit_packing.hh:62-65 | Fields apart from the one written keep what they read and stay zero where they were |
| BitPacking.ReadsAgree | kenlm/util/bit_packing.hh:54-71 | The 25-bit and the 57-bit reads agree where both apply |
| BitPacking.FloatIgnoresNeighbour | kenlm/util/bit_packing.hh:106-117 | A 31-bit float reads back negative whatever its neighbouring bit is |
| BitPacking.AccessInside | kenlm/lm/trie.cc:40-47 | No load for the declared entries, nor for the closing pointer, reaches beyond the base size |
| Bhiksha.ChopBits | kenlm/lm/bhiksha.cc:37-53 | The number of chopped bits is the cheapest allowed, and the smallest such |
| Bhiksha.ArrayBhiksha.constructor | kenlm/lm/bhiksha.cc:80-86 | Nothing written; place zero is reserved |
| Bhiksha.ArrayBhiksha.WriteNext | kenlm/lm/bhiksha.hh:78-82 | Writing a non-decreasing pointer extends the sequence the array stands for |
| Bhiksha.ArrayBhiksha.FinishedLoading | kenlm/lm/bhiksha.cc:88-97 | Succeeds exactly when the last pointer has reached the last place |
| Bhiksha.ArrayBhiksha.BinaryBelow | kenlm/util/sorted_uniform.hh:105-123 | The last place whose offset does not exceed the key, possibly minus one |
| Bhiksha.ArrayBhiksha.ReadNext | kenlm/lm/bhiksha.hh:65-76 | The begin is always the pointer written; the end is the next pointer exactly when the entry is not the last, or its pointer and the closing one share their high bits |
| Bhiksha.OffsetIs | kenlm/lm/bhiksha.hh:78-82 | An offset is at most an index just for the high parts that entry has reached |
| Bhiksha.WriteAll | kenlm/lm/trie.cc:117-121 | Writing all pointers and the closing one succeeds exactly when the closing pointer has the high part allowed for |
| Bhiksha.LastRangeLost | kenlm/lm/trie.cc:117-121 | Of 64 entries that point to 0 and end at 1, the last is read as 0..0 although 0..1 was written, for every configuration that allows a bit to be chopped |
| Probing.ProbingHashTable.constructor | kenlm/util/probing_hash_table.hh:50-62 | All buckets hold the invalid key |
| Probing.ProbingHashTable.Insert | kenlm/util/probing_hash_table.hh:64-74 | Throws exactly when no bucket would stay empty; otherwise the table stands for the map with the key added, unless it was there |
| Probing.ProbingHashTable.FindEmpty | kenlm/util/probing_hash_table.hh:70-73 | Probing with wrap-around ends at the first empty bucket from any start |
| Probing.ProbingHashTable.Scan | kenlm/util/probing_hash_table.hh:93-98 | Searching with wrap-around ends at the first bucket with the key or empty |
| Probing.ProbingHashTable.Find | kenlm/util/probing_hash_table.hh:89-99 | True exactly for keys inserted, at the bucket of the first value inserted for the key |
| Probing.InsertOk | kenlm/util/probing_hash_table.hh:64-74 | Filling the first empty bucket leaves every key reachable and the older of equal keys first |
| Probing.FoundIs | kenlm/util/probing_hash_table.hh:79-99 | Where a search stops decides whether the key is in the map |
| Probing.ProbingHashTable.InsertAll | kenlm/util/probing_hash_table.hh:64-74 | Inserting entries throws exactly if they would leave no bucket empty |
| Probing.AddAllIsFirst | kenlm/util/probing_hash_table.hh:64-74 | The map holds exactly the inserted keys, each with its earliest value |
| Probing.Buckets | kenlm/util/probing_hash_table.hh:39-41 | There are more buckets than entries |
| LineSearch.Walk | mert/Optimizer.cpp:123-215 | The walk visits strictly increasing slopes and thresholds, ends at the largest slope, and its candidate maximises f0 + x * gradient at every point of its interval |
| LineSearch.FirstBest | mert/Optimizer.cpp:123-139 | The start is the best candidate at minus infinity, the first one of equals |
| LineSearch.FindLeftmost | mert/Optimizer.cpp:143-172 | The leftmost intersection with a steeper line, the last one among ties, or none exactly at the largest slope |
| LineSearch.NextTakesOver | mert/Optimizer.cpp:150-165 | The next candidate takes over strictly further right |
| LineSearch.BestUntil | mert/Optimizer.cpp:150-165 | The current candidate is best up to the leftmost intersection |
| LineSearch.AddThreshold | mert/Optimizer.cpp:77-93 | A change of a sentence is entered at its threshold, in order, replacing one of the same sentence there |
| LineSearch.Collect | mert/Optimizer.cpp:211-216 | All sentences' changes, and nothing else, are in the threshold map |
| LineSearch.Replace | mert/Scorer.cpp:63-72 | After replacing one candidate the totals are those of the new choice from scratch |
| LineSearch.InitialTotals | mert/Scorer.cpp:42-56 | The totals are the field sums, or the size mismatch is reported |
| LineSearch.Score | mert/Scorer.cpp:42-74 | Every incremental score is the score of statistics recomputed from scratch |
| LineSearch.Record | mert/Optimizer.cpp:175-214 | Records the walk, and reports exactly when two turning points of a sentence are nearer than allowed |
| LineSearch.TurnsAreThresholds | mert/Optimizer.cpp:143-172 | The thresholds of a walk are exactly the points where two candidates of different slope are both best |
| LineSearch.NearIffTurns | mert/Optimizer.cpp:175-186 | Neighbouring thresholds are too near exactly if two such points of the sentence are |
| LineSearch.PicksOnInterval | mert/Optimizer.cpp:232-238 | On the k-th global interval the accumulated changes choose each sentence's own envelope candidate |
| LineSearch.PickIsBest | mert/Optimizer.cpp:232-238 | That candidate is a best one at every point of the interval |
| LineSearch.LineScores | mert/Optimizer.cpp:96-243 | Nearness is reported exactly if some sentence has two turning points less than the minimum apart; otherwise the k-th score is the corpus score of the 1-bests at every point of the k-th interval, for any number of sentences |
| EditDistance.MinEditDist | mert/TERsrc/tercalc.cpp:443-598 | Always returns a script from the reference to the hypothesis with the reported number of edits, never below the Levenshtein distance; the beam cuts something off exactly if some Levenshtein distance of a column exceeds its best diagonal cost by more than the width, and otherwise the number is the distance, and the script is the one that from its end prefers diagonal edits to insertions and these to deletions |
| EditDistance.PreferredIsOne | mert/TERsrc/tercalc.cpp:504-556 | There is only one shortest script with that preference |
| EditDistance.ShortIsNotCut | mert/TERsrc/tercalc.cpp:478-486 | Sentences of at most 20 words in all are never cut |
| EditDistance.ScriptAtLeastDistance | mert/TERsrc/tercalc.cpp:443-598 | No script has fewer edits than the Levenshtein distance |
| EditDistance.Traceback | mert/TERsrc/tercalc.cpp:551-590 | Following the recorded edits back gives a script of exactly the cost in the last cell |
| EditDistance.PassOn | mert/TERsrc/tercalc.cpp:490-546 | One cell relaxes its three neighbours; the best cost of the next column becomes the minimum of itself and the diagonal cost |
| EditDistance.ProcessRow | mert/TERsrc/tercalc.cpp:478-547 | Skipping, cutting off or relaxing a row keeps what is known of the column; the first cut is made exactly at a distance outside the beam |
| EditDistance.Column | mert/TERsrc/tercalc.cpp:468-548 | Every column hands on a cell within the beam, so the last cell is always set |
| EditDistance.StepOk | mert/TERsrc/tercalc.cpp:490-546 | Relaxing keeps every cell between the distance and the cost of its recorded edit |
| EditDistance.StepExact | mert/TERsrc/tercalc.cpp:490-546 | Without cuts a cell holds its exact cost, and the first edit in the order diagonal, insertion, deletion that gives it |
| Shifts.PerformShift | mert/TERsrc/tercalc.cpp:905-1029 | The block is taken out and put back behind its target, also when the target is inside the block |
| Shifts.MovedIsPermutation | mert/TERsrc/tercalc.cpp:905-1029 | A shift only permutes the words |
| Shifts.ShiftFixesAtMost | mert/TERsrc/tercalc.cpp:675-680 | Moving L words lowers the Levenshtein distance by at most 2L |
| Shifts.FindAlignErr | mert/TERsrc/tercalc.cpp:731-766 | Every edit is recorded at the words it uses, with the position it aligns to |
| Shifts.AlignmentErrorsOk | mert/TERsrc/tercalc.cpp:731-766 | Alignments point into the hypothesis, and a reference word without error to its like |
| Ter.BuildWordMatches | mert/TERsrc/tercalc.cpp:401-432 | The table lists a position for a word sequence exactly where it occurs in the reference, is short enough and all its words are in the hypothesis |
| Ter.GatherAllPossShifts | mert/TERsrc/tercalc.cpp:768-896 | Each bucket holds exactly the worthwhile shifts of its length, ordered by where they start: blocks of up to 50 words, some of them wrong, that stand in the reference where some are wrong and that is aligned outside the block and at most 50 words away, moved behind one of the words aligned there |
| Ter.OfferedIff | mert/TERsrc/tercalc.cpp:768-896 | The search, which grows blocks from their beginnings, offers exactly these shifts |
| Ter.OfferedInRange | mert/TERsrc/tercalc.cpp:846-872 | Every offered shift is in range for being performed |
| Ter.Offsets | mert/TERsrc/tercalc.cpp:849-872 | The targets around one reference position, no more and no fewer |
| Ter.TryBlock | mert/TERsrc/tercalc.cpp:808-891 | A block's shifts, and whether longer blocks are considered |
| Ter.OutOfReachIsBeaten | mert/TERsrc/tercalc.cpp:675-686 | Breaking off early skips only shifts that are no better |
| Ter.TryShift | mert/TERsrc/tercalc.cpp:683-721 | A shift is taken only if it pays for its cost, and is given its Levenshtein cost unless the beam cuts its alignment |
| Ter.CalcBestShift | mert/TERsrc/tercalc.cpp:637-729 | Unless the beam cuts the alignment of some shift that is tried, the result leaves the fewest edits of all worthwhile shifts, saves its cost of one, and is the longest of these and of those the first to start; there is none exactly when none saves its cost; the break conditions lose nothing |
| Ter.AfterIsPermutation | mert/TERsrc/tercalc.cpp:616-629 | The hypothesis after all accepted shifts is a permutation of the hypothesis |
| Ter.TER | mert/TERsrc/tercalc.cpp:599-636 | The loop ends; the result aligns the shifted hypothesis, its total counts one for each shift and is never above the unshifted edits; unless the beam cuts something off, every round makes the shift that leaves the fewest edits and in the end none saves its cost; a cut is reported exactly if it happens in one of the orders of the words that are aligned |
| Ter.TotalAtMost | mert/TERsrc/tercalc.cpp:599-636 | Without cuts the total is at most one more than the distance that any worthwhile shift of the hypothesis leaves |
| Ter.WordMayMove | mert/TERsrc/tercalc.cpp:827-872 | A wrong word that stands in the reference, wrong there too and aligned at another place at most 50 words away, is worth moving there |
| Ter.BlockMayMove | mert/TERsrc/tercalc.cpp:808-872 | The same for a block of at most 50 words |
| Ter.OneWordMoves | mert/TERsrc/tercalc.cpp:599-636 | Of three words with the first out of place the total is one |
| Ter.ShortIsNotCutReordered | mert/TERsrc/tercalc.cpp:478-486 | For sentences of at most 20 words in all the beam cuts nothing, whatever is shifted |
| ConnQueue.Queue.constructor | lmserver/thread.c:94-99 | An empty queue |
| ConnQueue.Queue.Push | lmserver/thread.c:142-153 | The linked queue gains the item at its end |
| ConnQueue.Queue.Peek | lmserver/thread.c:124-137 | The first item is taken off, or null is returned when there is none |
| ConnQueue.FreeList.constructor | lmserver/thread.c:640 | An empty free list |
| ConnQueue.FreeList.Free | lmserver/thread.c:196-201 | The item goes to the front of the free list |
| ConnQueue.FreeList.Take | lmserver/thread.c:160-166 | The front of the free list, or null |
| ConnQueue.FreeList.Add | lmserver/thread.c:183-186 | A new batch but for its first item joins whatever has been freed meanwhile |
| ConnQueue.Batch | lmserver/thread.c:171-181 | A batch of distinct fresh items, linked from the second on |
| Threads.EveryRun | lmserver/thread.c:332-389 | In every interleaving each thread sets up a prefix of the connections assigned to it, in order, and all of them once things are quiet; a notified worker's queue is never empty; no item is in two places; and nothing accepted is lost |
| Threads.StepKeeps | lmserver/thread.c:124-201 | Every step of dispatcher or worker keeps the invariant |
| Threads.PushKeeps | lmserver/thread.c:370-383 | Queueing keeps bytes, order, round robin and single ownership of items |
| Threads.PeekKeeps | lmserver/thread.c:332-343 | Taking an item from the queue keeps them |
| Threads.QueuesAreDisjoint | lmserver/thread.c:124-201 | An item stands at one place of one list at most |
| Threads.RoundRobin | lmserver/thread.c:373-375 | Any num_threads consecutive dispatches give each thread exactly one connection |
| Threads.NeverStuck | lmserver/thread.c:332-389 | As long as anything is left to do some thread can do it, and otherwise the next connection can be accepted |
| Threads.RunsAreShort | lmserver/thread.c:332-389 | A run has at most eight steps for each connection accepted |
| Lines.EncodedArrive | lmserver/lmserver.c:957-984 | Commands sent with carriage return and newline arrive unchanged exactly when none is empty |
| Lines.EmptyCommandArrives | lmserver/lmserver.c:957-984 | A line of carriage return and newline becomes the command of that carriage return |
| Lines.CommandsAppend | lmserver/lmserver.c:957-984 | Complete lines mean the same whatever follows them |
| Lines.WireArrives | lmserver/lmserver.c:667-677 | A reply of one line arrives as that line if it fits the buffer, and as the error about its length otherwise |
| Lines.RepliesArrive | lmserver/lmserver.c:651-680 | A client that reads lines finds one for each command, in their order |
| Outgoing.AddIov | lmserver/lmserver.c:561-608 | Splitting a reply into messages keeps its bytes in order; no message has more than 1024 pieces, and the first one not more than 1400 bytes |
| Outgoing.Remove | lmserver/lmserver.c:1166-1178 | After a partial send exactly the unsent bytes are left |
| Outgoing.Transmit | lmserver/lmserver.c:1145-1201 | What was to be sent is what went out and what is left; complete exactly when nothing is left |
| Connection.Read | lmserver/lmserver.c:1065-1067 | A read delivers the next bytes, at most as many as there is room for |
| Connection.Input.constructor | lmserver/lmserver.c:309-321 | An empty buffer |
| Connection.Input.TakeLine | lmserver/lmserver.c:957-984 | Takes exactly the first line, without its line end |
| Connection.Input.FindNewline | lmserver/lmserver.c:964-966 | The first newline among the unparsed bytes, if any |
| Connection.Input.Rewind | lmserver/lmserver.c:1036-1040 | Moving the bytes to the front changes none of them |
| Connection.Input.Resize | lmserver/lmserver.c:1043-1055 | A resized buffer holds the same bytes |
| Connection.Input.Receive | lmserver/lmserver.c:1066-1073 | What is read stands behind the unparsed bytes |
| Connection.Input.Shrink | lmserver/lmserver.c:458-482 | Shrinking loses no byte, and happens exactly to a large buffer that holds little |
| Connection.TcpConnection.constructor | lmserver/lmserver.c:295-381 | A new connection has received, parsed and sent nothing |
| Connection.TcpConnection.Process | lmserver/lmserver.c:908-953 | One command leads to its reply or to the end |
| Connection.TcpConnection.TryReadCommand | lmserver/lmserver.c:957-984 | A command is processed exactly if a complete line is there |
| Connection.TcpConnection.ReadOnce | lmserver/lmserver.c:1065-1091 | A read closes the connection exactly at the end of the stream or at an error that is not handled, and finds nothing only where it blocks |
| Connection.TcpConnection.TryReadNetwork | lmserver/lmserver.c:1031-1094 | Bytes read are appended unchanged, over any number of reads and reallocations; the connection closes exactly if the stream has ended or failed, and nothing is got only where a read blocks |
| Connection.TcpConnection.Write | lmserver/lmserver.c:1308-1350 | Bytes go out in order; the reply is complete before the connection reads again |
| Connection.TcpConnection.DriveMachine | lmserver/lmserver.c:1203-1363 | The machine stops; commands are a prefix of the lines received and bytes sent a prefix of the replies; when it waits for input all lines are processed and all replies sent in full. It closes exactly if the stream has ended or failed, a send has failed, or the last command asked for it, and waits only where the socket would block |
| Connection.TcpConnection.Serve | lmserver/lmserver.c:1365-1385 | The same over any number of wake-ups and any chunking of reads and writes; if no read blocks before the end of its script, waiting for input means that everything was read |
| OnDiskFile.LayoutKept | OnDiskPt/src/TargetPhraseCollection.cpp:98-108 | Appending to a file changes nothing written before |
| OnDiskFile.WordRead | OnDiskPt/src/Word.cpp:51-87 | A written word reads back |
| OnDiskFile.ReadPhrase | OnDiskPt/src/TargetPhrase.cpp:251-268 | The words of a phrase read back |
| OnDiskFile.AsRead | OnDiskPt/src/TargetPhrase.cpp:302-303 | A score is read as its logarithm or as -100, whichever is higher |
| OnDiskFile.Compare | OnDiskPt/src/Word.cpp:119-146 | Words are equal exactly if neither goes before the other; non-terminals go before terminals, and smaller numbers first |
| OnDiskFile.ReadEntry | OnDiskPt/src/TargetPhrase.cpp:233-306 | Words and alignments of a target phrase read back, and its scores as logarithms that are not below the floor |
| OnDiskFile.SavePhrase | OnDiskPt/src/TargetPhrase.cpp:83-126 | The phrase stands at the position returned |
| OnDiskFile.SaveColl | OnDiskPt/src/TargetPhraseCollection.cpp:70-114 | The collection stands at the position returned, pointing to all its phrases |
| OnDiskFile.ReadColl | OnDiskPt/src/TargetPhraseCollection.cpp:153-182 | The first phrases, up to the table limit, read back with their scores transformed |
| OnDiskFile.SortBest | OnDiskPt/src/TargetPhraseCollection.cpp:57-68 | The kept phrases are sorted by score and none left out scores better |
| PhraseTrie.NodeSizeIs | OnDiskPt/src/PhraseNode.cpp:32-38 | The computed node size is the size of what is written |
| PhraseTrie.AddTargetPhrase | OnDiskPt/src/PhraseNode.cpp:168-194 | Adding a line to a node in memory, saving the child before, makes files and memory together say what the lines say |
| PhraseTrie.Save | OnDiskPt/src/PhraseNode.cpp:96-159 | The node is written behind its children, with its targets, count and sorted child list |
| PhraseTrie.SaveCurrent | OnDiskPt/src/PhraseNode.cpp:124-140 | Only the child not yet saved is written; the list stays sorted |
| PhraseTrie.NodeWritten | OnDiskPt/src/PhraseNode.cpp:146-159 | Writing a node adds it to the file exactly once, behind everything written before |
| PhraseTrie.StoredKept | OnDiskPt/src/PhraseNode.cpp:146-152 | Later appends change no saved node |
| PhraseTrie.GetChild | OnDiskPt/src/PhraseNode.cpp:196-222 | Binary search finds a child exactly if there is one for the word |
| PhraseTrie.KidRead | OnDiskPt/src/PhraseNode.cpp:224-250 | The child at an index is read from where it was written |
| PhraseTrie.Walk | OnDiskPt/src/PhraseNode.cpp:196-222 | A phrase leads to a node exactly if some line goes on behind it |
| PhraseTrie.Load | OnDiskPt/src/PhraseNode.cpp:48-82 | Count and targets of a saved node are those of its lines, with scores as they are read |
| PhraseTrie.SubAllGives | OnDiskPt/src/PhraseNode.cpp:168-194 | What is below a phrase in the trie is what the table gives for it |
| PhraseTrie.BuildTable | CreateOnDisk/src/Main.cpp:62-87 | Adding all lines of a grouped table and saving the root stores the whole table; the source file is its first byte and exactly one node for each prefix of a source |
| PhraseTrie.Lookup | OnDiskPt/src/PhraseNode.cpp:196-222 | The saved table finds exactly the prefixes of added sources, with the count given last and the best targets given for the source, their scores transformed |

## Left out

- Floating-point rounding, infinities and NaN, and the integer overflow of counters; only the sign bits that carry flags and the wrap-around of the trie search are modelled.
- Collisions of MurmurHash and of `CombineWordHash`, and of the word-sequence hash in TER: keys are injective.
- Memory mapping, temporary files, ARPA parsing, compression, progress bars and exception texts.
- `trie_sort.cc`: sorted record streams without duplicates, and sorted files of histories, each once, are the input. The counts it passes on are right, so `SanityCheckCounts` never fires.
- SriBackoffs.SriSucks.GetBlank: values are a map from blanks and not arrays read with a cursor; the cursor meets the blanks in the order they were sent because both passes see the same stream (`TriePipeline.StreamsAgree`). The bytes of the message buffers are not modelled.
- TriePipeline.BuildTrie: asks for listings on which the merge is right whatever memory holds; for the others `TrieBuild.RecursiveInsert` says when the stream is right. Of the word one past the vocabulary only the pointer is promised, as its weights are never written.
- TriePipeline.BuildAndLookup: the trie stores codes of given widths that keep the weights that occur; quantisation tables, and floats as codes (which cannot hold a positive log-probability), are not modelled.
- TrieTable.LostMarksCostNothing: what a query remembers is a function of the table here; the query methods of `Query` are proved over tables with all marks.
- TrieLookup.Trie.Insert: the arrays of the orders are values, each changed as `PackedArray.Insert` changes memory in place; their pointers are the uncompressed ones, and compression is `Bhiksha`, stated apart.
- The default weights that a load puts in for a missing unknown word after reading all n-grams.
- HashedLoad.HashedSearch.InitializeFromARPA: says nothing of the state left behind when a load fails. The checks of special words, of counts and of the highest order allowed come before it, and the size of a probing table is not rounded to a float.
- HashedLoad.HashedSearch.Read1Grams: zeros are taken as +0; one written as -0 would keep its sign bit.
- The merging of near thresholds and the choice of `bestx` in `LineOptimize`: numeric heuristics; `LineSearch.LineScores` reports near thresholds instead.
- Regularisation of scores, and the scorers other than the shared incremental totals.
- Spans in TER, the integer variants, debug output and statistics counters; all edit costs are the defaults.
- EditDistance.MinEditDist: the two matrices are one table of cells, kept as a value rather than updated in place; sentences are shorter than the fixed matrix size.
- Shifts.PerformShift: the words are appended to an output instead of overwriting a copy of equal length.
- Ter.CalcBestShift: where a block may move to several places equally cheaply, which of them it takes is not stated.
- In lmserver: UDP, `stats`, `noreply` (never set by any command), out-of-memory paths, the SRILM call, socket setup and options. Replies are an arbitrary function of the command.
- Threads.EveryRun: pipe writes and reads succeed, and connections can be set up.
- The growth of the message and iovec arrays and the repointing of messages after it; messages are sequences.
- ConnQueue: the lists are proved one operation at a time; `Threads` treats an operation under a lock as one step, with queues as sequences of item addresses.
- OnDiskFile: bytes are tied to the field they encode, not to its binary digits; only one factor a word and one count a node.
- PhraseTrie.AddTargetPhrase: nodes are values, so the update in place of the nested maps is not captured; returning to a child that has been saved is excluded, as the assertion in `Save` does.
- Vocabularies, and the conversion to decoder phrases; the logarithm taken of scores is a parameter.
- The decoder itself, training scripts, the mert command-line program, BLEU, PER and CDER, and the web front ends.
