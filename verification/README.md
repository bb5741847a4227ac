# Real-time subtitles: a Dafny model and its proofs

The browser extension captures a tab's sound, a server turns it into English text that keeps changing near its end, a
translator turns what has settled into Vietnamese, and an overlay shows both. This project models the parts of that
pipeline that decide *which text is shown, kept or committed*, and proves what they promise.

Code that updates state step by step is modelled as classes and methods; each method is proved equal to a pure step
function, and the theorems are about these functions, over whole runs. The modules follow the program:

| modules | what they model |
|---|---|
| `Text`, `Normal`, `Words`, `Cuts` | character classes, the whitespace normalisers, word and cut positions |
| `SegmentSpec`, `SegmenterClass`, `ChunkProofs`, `WindowProofs`, `PauseProofs`, `GateProofs`, `SegmenterProofs`, `PieceProofs`, `CutProofs`, `StageProofs`, `UpdateProofs`, `AnchorProofs` | the translator's sliding-window segmenter: re-synchronisation, four flush stages, the chunker |
| `Sentences`, `CommitQueue`, `StrictCommit`, `StrictProofs`, `StrictText`, `LagCommit`, `LagProofs`, `LagText`, `EnSeq` | sentence splitting, the commit queue, the strict and the lag committer, the gate on sequence numbers |
| `Stabilizer`, `EnServer`, `TailTrim`, `EnOverlay`, `EnRefinement` | English: stabiliser, end-diff patches and stables, relay, overlay, and the whole way |
| `StableFeed`, `ViOverlay`, `ViPipeline`, `EndToEnd`, `FrontProofs` | Vietnamese: feed to the translator, commit worker, relay, overlay guards, and the whole way from a received stable |
| `SentenceScan`, `SentenceFeed`, `LineLayout` | the shared sentence expression, the TXT feed, line breaking |
| `AudioBuffer`, `AudioQueue`, `Pcm` | the server's sample buffer and byte accounting, the worklet's framing and quantisation |
| `Persist`, `Sse` | the persistence chain, the reader of server-sent events |

How things are represented:

- Text is a sequence of characters. Blanks and letters are arbitrary tables (`SPACE`, `ALNUM` in `Text`) that only have
  to agree on ASCII and keep marks apart, so every result holds for Python's and for JavaScript's classes.
- Regular expressions are written as left-to-right scanners.
- Clocks, settings, results of network calls, translations and text widths are parameters. Each reading of a clock is a
  parameter of its own (`EnServer.Clock`). The segmenter reads its clock once per update: the second reading, when the
  punctuation gate is reset, is overwritten before it is used.
- Interleaving is modelled by events: each event is the code between two points where other code can run.

Findings. Where the code does not do what its comments or its design say, the model follows the code, and a lemma says
exactly when the promise holds:

- The pause flush can drop a short piece. With the default minimum of three words it never does if a segment may have at
  least 32 characters, and it can if not (`PauseProofs.PauseSafeIff`); no bound on word lengths is needed.
- The strict committer counts sentences by what it has committed, and skips one that is punctuation only without counting
  it. Over whole histories it has committed as many sentences as were asked for, at every moment, exactly when no sentence
  newly asked for was punctuation only (`StrictProofs.InStepThroughoutIff`), and then each entry is the sentence at its own
  position (`StrictProofs.CommittedIsJustified`). A text that begins with three dots is enough for it to commit a sentence
  twice (`StrictProofs.PunctuationDoublesACommit`).
- While the texts grow, the strict timeline is the first sentences of the text at every moment exactly when, besides, the
  text never grew without a blank into a last sentence that was already asked for (`StrictText.AtTextThroughoutIff`). Only
  a forced release with `STRICT_RELEASE_FLUSH_ALL` asks for one (`StrictText.CommittedIsText`), and
  `StrictText.FlushedSentenceGrows` is such a history.
- The overlay keeps text the server has taken back when it passes over a slightly shorter stable
  (`EnRefinement.PassedOverStableDiverges`), and while no message has to be cut it shows the server's text at every moment
  exactly when it passes over none (`EnRefinement.OverlayEqualsServerIff`). Apart from that its text is a tail of the
  server's even when a patch deletes more than the trimmed text holds (`EnRefinement.PatchOnSuffix`).
- With drafts on, a draft's English number lifts the mark that commits must reach, so commits of earlier English are
  lost (`ViPipeline.CommitAppendsIff`); without a cap the overlay shows what was delivered exactly when no commit was lost
  that way (`ViPipeline.ShownIffHeard`), and `ViPipeline.DraftedRunLosesCommit` is a run that loses one. The reset of the
  epoch fends off no late message of the translator, because those carry no epoch (`ViOverlay.LateCommitIsShown`), and the
  order of accepted operations survives a reset only below epoch 2^31 (`ViOverlay.OrderSurvivesResetIff`).
- Of the unnumbered stables the translator drops all but a first one: the service worker sends them as number 0
  (`StableFeed.GateBehindFeed`).
- The server's and the overlay's sentence expression drops the text before a mark that ends nothing, as in "3.14", when a
  sentence end follows (`SentenceScan.SplitKeepsIff`, `SentenceScan.DecimalIsLost`).
- The line loop ends exactly when each character fits on a line (`LineLayout.EndsIff`).
- `put` on the audio queue can block when the drop threshold lies above the queue's size (`AudioQueue.WaitsIff`); the
  accounting stays exact even then (`AudioQueue.TotalIsExact`).
- The frames read from an event stream depend on how it is cut into chunks exactly when an LF LF comes behind a
  CR LF CR LF (`Sse.ChunkIndependentIff`).

## Model

| member | source | states |
|---|---|---|
| Normal.NormIsNormal | my-tab-audio-ext/translator.py:427-436 | a normalised text has no blank at its ends, only single plain blanks, none before a mark, and no run of more than three dots |
| Normal.NormFixedPoint | my-tab-audio-ext/translator.py:427-436 | the texts of that shape are exactly the fixed points of the normaliser |
| Normal.NormIdempotent | my-tab-audio-ext/translator.py:427-436 | normalising twice is normalising once |
| Normal.NormAlnums | my-tab-audio-ext/translator.py:427-436 | normalising keeps every letter and digit, in order, and never lengthens |
| Normal.SliceOfNormal | my-tab-audio-ext/translator.py:427-436 | any slice of a normalised text without blanks at its ends is normalised |
| Words.WordsOfNorm | my-tab-audio-ext/translator.py:439-443 | normalising does not add words |
| Words.WordEndCounts | my-tab-audio-ext/translator.py:623-629 | the cut after n words leaves exactly n words before it |
| Words.WordEndIsBoundary | my-tab-audio-ext/translator.py:623-629 | the cut after n words lies at a blank or at the end |
| Words.JoinWordsIs | my-tab-audio-ext/server.py:690-690 | joining the words of a text: every word, in order, with single blanks between |
| Words.NormIs | my-tab-audio-ext/translator.py:427-436 | what the normaliser returns: the words in order, one blank before each but those that begin with a listed mark, and of each run of dots the first three |
| Words.WordsAreCounted | my-tab-audio-ext/translator.py:439-443 | the count is the number of words |
| Cuts.LcpLen | my-tab-audio-ext/server.py:695-700 | the loop finds the length of the longest common prefix |
| Cuts.FirstPunctBoundary | my-tab-audio-ext/translator.py:568-577 | the position behind the first segment end and its blanks, -1 exactly when there is none |
| Cuts.FindLastSpaceBefore | my-tab-audio-ext/translator.py:604-611 | the search finds the last blank before a position |
| Cuts.FindNextSpaceAfter | my-tab-audio-ext/translator.py:613-621 | the search finds the first blank within reach |
| Cuts.FindOverlap | my-tab-audio-ext/translator.py:588-598 | the search finds the longest suffix of the old text that begins the new one, within its limit |
| Cuts.FindBoundaryFrom | my-tab-audio-ext/translator.py:699-713 | a position inside a word moves to the next boundary within reach, any other stays |
| Cuts.CutByChars | my-tab-audio-ext/translator.py:632-644 | a character cut lies in the text, is positive for a non-empty one, and is at most 32 past the limit |
| SegmenterClass.Segmenter.Reset | my-tab-audio-ext/translator.py:1221-1240 | the new state is that of an empty text |
| SegmenterClass.Segmenter.Baseline | my-tab-audio-ext/translator.py:1242-1258 | the new state takes the whole normalised text as committed |
| SegmenterClass.Segmenter.ChunkByLimits | my-tab-audio-ext/translator.py:1320-1365 | the loop returns the specified chunks; it ends |
| SegmenterClass.Segmenter.ReanchorByCommittedTail | my-tab-audio-ext/translator.py:1411-1460 | the tail search, then the word search, return the specified anchor |
| SegmenterClass.Segmenter.FindResync | my-tab-audio-ext/translator.py:1487-1560 | the choice among the re-synchronisation branches is the specified one |
| SegmenterClass.Segmenter.FlushPunct | my-tab-audio-ext/translator.py:1572-1620 | the punctuation loop ends and reaches the specified state with the specified commits |
| SegmenterClass.Segmenter.FlushPause | my-tab-audio-ext/translator.py:1622-1648 | the same for the pause flush |
| SegmenterClass.Segmenter.FlushMax | my-tab-audio-ext/translator.py:1650-1694 | the same for the loop over the limits |
| SegmenterClass.Segmenter.FlushBeat | my-tab-audio-ext/translator.py:1696-1740 | the same for the beat commit |
| SegmenterClass.Segmenter.UpdateStable | my-tab-audio-ext/translator.py:1462-1746 | one whole update: new state, commits and draft are those of the specification |
| ChunkProofs.ChunksKeep | my-tab-audio-ext/translator.py:1320-1365 | the chunks hold every letter and digit in order exactly when no short piece is dropped |
| ChunkProofs.ShortChunksKeepAll | my-tab-audio-ext/translator.py:1320-1365 | with short pieces allowed nothing is ever dropped |
| ChunkProofs.ChunksAreGood | my-tab-audio-ext/translator.py:1320-1365 | every chunk has a letter or digit, no leading noise, at most the maximum of words, and at most 32 characters over the maximum |
| WindowProofs.TakeInIsOk | my-tab-audio-ext/translator.py:1475-1568 | on every rewrite branch the window is sound: the buffer is the text from its start on, without a leading blank |
| WindowProofs.FlushStagesOk | my-tab-audio-ext/translator.py:1572-1740 | the four stages keep the window sound, only move forward, and conserve the buffer's letters and digits unless the pause stage drops |
| WindowProofs.StepWindow | my-tab-audio-ext/translator.py:1462-1746 | after every update the window is sound, and its start moves back exactly when the new text is too short |
| WindowProofs.StepConserves | my-tab-audio-ext/translator.py:1462-1746 | a steady update commits exactly what the start moves over, exactly when its pause stage drops nothing |
| PauseProofs.PauseNeverDrops | my-tab-audio-ext/translator.py:1622-1648 | with room for 32 characters the pause flush drops nothing, whatever the words |
| PauseProofs.PauseSafeIff | my-tab-audio-ext/translator.py:1622-1648 | with the default minimum of words the pause flush is safe exactly when 32 characters fit |
| GateProofs.GateCountsExactly | my-tab-audio-ext/translator.py:1285-1296 | the punctuation gate's count is exactly how many questions in a row were about the same head, and its clock starts at the first |
| GateProofs.GatePassesIff | my-tab-audio-ext/translator.py:1297-1301 | a head passes exactly when it stood often enough or waited long enough |
| GateProofs.BeatCountsExactly | my-tab-audio-ext/translator.py:1696-1712 | the beat gate's count is exactly how many updates in a row had the same safe prefix |
| SegmenterProofs.RunConserves | my-tab-audio-ext/translator.py:1462-1746 | over a whole run the commits are exactly what the start moved over |
| SegmenterProofs.LosesNothing | my-tab-audio-ext/translator.py:1242-1258 | baseline, commits and buffer together are the letters and digits of the latest text, for every run that keeps what is committed |
| SegmenterProofs.GrowingLosesNothing | my-tab-audio-ext/translator.py:1475-1568 | the same for every run of growing texts, with nothing assumed of the states in between |
| SegmenterProofs.StepWithinLimits | my-tab-audio-ext/translator.py:1650-1694 | after every update the buffer is under both limits and every commit is a good piece |
| SegmenterProofs.RunWithinLimits | my-tab-audio-ext/translator.py:1462-1746 | the same over whole runs |
| SegmenterProofs.NoSegmentEndStays | my-tab-audio-ext/translator.py:1572-1620 | with the default gate no segment end is left in the buffer |
| SegmenterProofs.DraftIsPrefix | my-tab-audio-ext/translator.py:647-668 | the draft shows only a beginning of what the buffer holds |
| SegmenterProofs.ReanchorMeans | my-tab-audio-ext/translator.py:1411-1460 | an anchor stands behind a place where the new text repeats the end of the committed text, or its last words |
| SegmenterProofs.FirstMessageCanLose | my-tab-audio-ext/translator.py:1622-1648 | with room for fewer than 32 characters one first message is enough to lose text |
| PieceProofs.PiecesAreSlices | my-tab-audio-ext/translator.py:1462-1746 | from any sound state, the pieces of an update are slices of the normalised text, in order, disjoint, between the old start and the new one; no letter or digit lies in the gaps exactly when the pause stage drops nothing; a steady update skips blanks only |
| PieceProofs.RunPiecesAreSlices | my-tab-audio-ext/translator.py:1462-1746 | over every run of growing texts the commits are such slices of the last text, and with room for 32 characters no letter or digit lies between them |
| PieceProofs.CleanIffConserved | my-tab-audio-ext/translator.py:1462-1746 | slices leave no letter or digit in the gaps exactly when they hold all letters and digits |
| CutProofs.CutByCharsMeans | my-tab-audio-ext/translator.py:632-644 | the character cut is the last blank before the limit that is far enough along, else the first within 32 characters, else the limit; a text with no more characters ends there |
| CutProofs.CutByWordsMeans | my-tab-audio-ext/translator.py:623-629 | the word cut is the blank behind the last word that may still come |
| CutProofs.UnsplitWordMeans | my-tab-audio-ext/translator.py:1384-1392 | a cut inside a word moves back to the last blank far enough along, else on to the first within 24 characters, else stays; any other cut stays |
| CutProofs.BufCutMeans | my-tab-audio-ext/translator.py:1367-1394 | a buffer within the limits is not cut, any other at the nearer of the two cuts, moved out of a word |
| CutProofs.ChunkCutMeans | my-tab-audio-ext/translator.py:1337-1350 | a piece is cut at the nearer of the two cuts, or behind the required words where short pieces count for nothing and these fit |
| CutProofs.ChunkFromIs | my-tab-audio-ext/translator.py:1320-1365 | the chunks of any text, by a definition of their own: one piece without leading noise if it fits, else what stands before the cut, if it is enough, and the chunks of the rest |
| CutProofs.ChunksAre | my-tab-audio-ext/translator.py:1320-1365 | the same for the heads that the stages hand to the chunker |
| StageProofs.FirstPiecesAreSegment | my-tab-audio-ext/translator.py:1572-1620 | when the gate lets it go, the first pieces of an update are those of the buffer's first segment, from its first character that is no noise up to and with its first end mark |
| StageProofs.FirstPieceIsSegment | my-tab-audio-ext/translator.py:1572-1620 | within the limits the first piece is that segment |
| StageProofs.SegmentsAreChunked | my-tab-audio-ext/translator.py:1572-1620 | with the default gate the punctuation stage commits the pieces of every segment of the buffer, whatever their lengths, in order, and leaves what is behind the last end |
| StageProofs.SegmentsAreCommitted | my-tab-audio-ext/translator.py:1572-1620 | with the default gate the punctuation stage commits exactly the segments of the buffer, each with its end mark, in order, and leaves what is behind the last end |
| StageProofs.TakesSegment | my-tab-audio-ext/translator.py:1572-1620 | one round of that stage: the segment is committed, and what stands behind its end and the blanks stays |
| StageProofs.PauseTakesAll | my-tab-audio-ext/translator.py:1622-1648 | after a pause a buffer of enough words that fits is committed whole and nothing stays |
| StageProofs.PauseWaits | my-tab-audio-ext/translator.py:1622-1648 | without the pause or the words nothing changes |
| StageProofs.PauseTakesHead | my-tab-audio-ext/translator.py:1622-1648 | after a pause a buffer of any length is cut, and the pieces of what stands before the cut are committed if it has the words; otherwise nothing changes |
| StageProofs.BeatTakesAll | my-tab-audio-ext/translator.py:1696-1740 | a buffer that stood long enough, and is long enough, is committed whole by the beat |
| StageProofs.MaxTakesOnlyNeeded | my-tab-audio-ext/translator.py:1650-1694 | under the limits nothing is taken; what is left is under them; and the last round started at a limit and took at most a piece |
| StageProofs.LimitTakesHead | my-tab-audio-ext/translator.py:1650-1694 | at the limits the pieces of what stands before the cut are committed first |
| StageProofs.DraftIs | my-tab-audio-ext/translator.py:647-668 | the draft after every update: what is left, up to the draft's limit, without a last word cut there, and then without a last word that has no mark behind it |
| StageProofs.GapIsSinceLast | my-tab-audio-ext/translator.py:1622-1632 | the gap that the pause stage measures is the time since the update before, by stamps if both have one |
| StageProofs.BeatWaitsSinceCommit | my-tab-audio-ext/translator.py:1696-1704 | the beat waits from the last update that committed anything |
| UpdateProofs.PauseCommits | my-tab-audio-ext/translator.py:1462-1746 | a whole update after a pause: what the marks leave is committed as one piece and the buffer is empty |
| UpdateProofs.BeatCommits | my-tab-audio-ext/translator.py:1462-1746 | a whole update without a pause, below the limits and on the beat: the same |
| UpdateProofs.UpdateWaits | my-tab-audio-ext/translator.py:1462-1746 | a whole update with none of the three: only the marks commit, and the rest stays |
| AnchorProofs.TextIsTakenUp | my-tab-audio-ext/translator.py:1475-1568 | where every text is taken up: a continuation and a rewrite behind the boundary at the boundary, a truncation over its last characters, any other rewrite behind the anchor, else behind an overlap, else over its last characters; at a word boundary and never before the committed one |
| AnchorProofs.OccursMeans | my-tab-audio-ext/translator.py:1430-1433 | what it means that a tail stands in a text |
| AnchorProofs.WordsMatchMeans | my-tab-audio-ext/translator.py:1450-1455 | what it means that the last words stand in a text |
| AnchorProofs.TailIsFound | my-tab-audio-ext/translator.py:1411-1436 | the anchor is behind the last place where the new text repeats the longest tail that it repeats, of the lengths tried |
| AnchorProofs.WordsAreFound | my-tab-audio-ext/translator.py:1438-1460 | if it repeats none, behind the last place of the longest run of last words, of the lengths tried; without one there is no anchor |
| AnchorProofs.CleanEndsAre | my-tab-audio-ext/translator.py:1396-1409 | each clean word comes with the end of the word it was made of, in order |
| AnchorProofs.CleanWordsAre | my-tab-audio-ext/translator.py:1396-1409 | the words compared are the words of the text without marks at their ends, in lower case, empty ones left out |
| AnchorProofs.TrimPunctIs | my-tab-audio-ext/translator.py:1406-1406 | trimming a word takes exactly the listed marks off both ends |
| AnchorProofs.AdvanceMeans | my-tab-audio-ext/translator.py:699-713 | a start inside a word moves to the first boundary within reach, any other stays |
| AnchorProofs.TruncationMeans | my-tab-audio-ext/translator.py:1303-1311 | a text counts as cut off exactly when it has an ellipsis, ends in three dots, or is shorter than the given share of a long enough old one |
| AnchorProofs.WhenCleared | my-tab-audio-ext/translator.py:1475-1560 | the safe prefix is cleared exactly by a truncation or by an anchor |
| Sentences.SplitCompleteSentences | my-tab-audio-ext/translator.py:974-986 | the loop over the matches returns the specified sentences and tail |
| Sentences.SplitIsLossless | my-tab-audio-ext/translator.py:974-986 | sentences and non-empty tail joined with single blanks are the normalised text |
| Sentences.SplitShape | my-tab-audio-ext/translator.py:206-206 | every sentence ends with its only sentence end, and the tail has none |
| Sentences.JoinSplits | my-tab-audio-ext/translator.py:974-986 | the inverse: sentences and a tail of that shape, joined with blanks, are split into the same sentences and tail |
| Sentences.SplitAlnums | my-tab-audio-ext/translator.py:974-986 | sentences and tail hold every letter and digit in order |
| Sentences.SplitGrows | my-tab-audio-ext/translator.py:974-986 | when a text grows, all sentences but a last one at its end stay the first ones and stay firm; that last one stays exactly if the text goes on with a blank |
| Sentences.EndAtIff | my-tab-audio-ext/translator.py:206-206 | where a sentence ends, with the end marks, quotes, brackets and blanks written out |
| Sentences.NextEndIff | my-tab-audio-ext/translator.py:974-986 | the search returns the first such end, and -1 exactly when there is none |
| CommitQueue.Queue.EnqueueCommitSegment | my-tab-audio-ext/translator.py:1905-1924 | a segment worth translating is appended to a queue that keeps the latest 64 |
| CommitQueue.Queue.TakeBatch | my-tab-audio-ext/translator.py:2045-2063 | the worker takes the oldest items in order: one in strict mode, else up to four that are there |
| CommitQueue.TakesOneMore | my-tab-audio-ext/translator.py:1905-1924 | a queue of 64 gives up its oldest item for a new one, a shorter one nothing |
| StrictCommit.Committer.CountSentences | my-tab-audio-ext/translator.py:1992-2010 | the loop counts how often each sentence was seen in place |
| StrictCommit.Committer.CollectAndDispatch | my-tab-audio-ext/translator.py:1992-2043 | one observation: state, timeline, queue and number of releases are those specified |
| StrictProofs.SplitsAreNormal | my-tab-audio-ext/translator.py:974-986 | every sentence the splitter hands to the committer is normalised and not empty, as the theorems on histories ask |
| StrictProofs.CountsAreExact | my-tab-audio-ext/translator.py:1992-2010 | a count is exactly the number of latest consecutive observations in which the sentence stood unchanged |
| StrictProofs.CommittedOnlyGrows | my-tab-audio-ext/translator.py:2030-2043 | the committed timeline is append-only over every history |
| StrictProofs.CommittedIsJustified | my-tab-audio-ext/translator.py:1992-2043 | as long as nothing newly due is punctuation only, every entry was the sentence at its position, unchanged for the required number of observations, with the required later sentences as stable |
| StrictProofs.SettledIsCommitted | my-tab-audio-ext/translator.py:1992-2043 | under the same condition, sentences observed equal often enough are committed up to the lag, and all of them when a release is forced with `STRICT_RELEASE_FLUSH_ALL` |
| StrictProofs.InStepThroughoutIff | my-tab-audio-ext/translator.py:2036-2042 | over whole histories: at every prefix as many are committed as the largest target so far, exactly when no newly due sentence was ever punctuation only |
| StrictProofs.InStepIff | my-tab-audio-ext/translator.py:2036-2042 | the step from any state: one observation reaches its target exactly when no sentence due in that state is punctuation only |
| StrictProofs.QueuedInOrder | my-tab-audio-ext/translator.py:2036-2042 | over whole histories the queue gets exactly the committed timeline, with numbers that never fall if those of the observations never do |
| StrictProofs.DotsAreASentence | my-tab-audio-ext/translator.py:206-206 | the splitter makes a punctuation-only sentence of three dots in front of a text |
| StrictProofs.PunctuationDoublesACommit | my-tab-audio-ext/translator.py:2036-2042 | that text, observed twice, commits the same sentence twice |
| StrictText.AtTextThroughoutIff | my-tab-audio-ext/translator.py:2235-2258 | over whole histories of growing texts, for every setting: at every moment the timeline is the first sentences of the text, as many as were asked for, exactly when nothing newly due was punctuation only and the text never grew without a blank into a last sentence that was asked for |
| StrictText.CommittedIsText | my-tab-audio-ext/translator.py:1992-2043 | without `STRICT_RELEASE_FLUSH_ALL` the second condition always holds: committed sentences, the sentences not yet committed and the tail, joined with blanks, are the text |
| StrictText.FlushedSentenceGrows | my-tab-audio-ext/translator.py:2018-2020 | with it, a history with nothing punctuation only leaves a sentence on the timeline that is none of the text |
| LagCommit.LagCommitter.CollectCommit | my-tab-audio-ext/translator.py:1926-1949 | a segment is joined to the pending sentence, and complete sentences move to the waiting list, as specified |
| LagCommit.LagCommitter.DispatchReady | my-tab-audio-ext/translator.py:1951-1990 | what is released, what stays and what the queue holds are those specified |
| LagProofs.JoinKeeps | my-tab-audio-ext/translator.py:946-956 | joining two parts keeps the letters and digits of both |
| LagProofs.CollectKeeps | my-tab-audio-ext/translator.py:1926-1949 | collecting adds exactly the segment's letters and digits, at the end |
| LagProofs.DispatchKeeps | my-tab-audio-ext/translator.py:1951-1990 | released, waiting and unfinished text together keep every collected letter and digit in order |
| LagProofs.DispatchLeavesLag | my-tab-audio-ext/translator.py:1951-1990 | an unforced dispatch leaves at most the lag waiting |
| LagProofs.PipelineLosesNothing | my-tab-audio-ext/translator.py:2228-2290 | over whole runs segmenter, lag committer and the commit queue's filter together lose and double nothing since a baseline |
| LagProofs.ReleasedInOrder | my-tab-audio-ext/translator.py:1926-1990 | the English numbers of released sentences never fall |
| LagText.JoinRule | my-tab-audio-ext/translator.py:946-956 | two non-empty stripped parts stand one blank apart, or none exactly when the second begins with a listed mark; word counts add up accordingly |
| LagText.TellSays | my-tab-audio-ext/translator.py:1926-1949 | told without the committer: finished sentences and the unfinished one, joined with blanks, are what they were with the segment joined on by that rule |
| LagText.PipeTells | my-tab-audio-ext/translator.py:2228-2290 | from any state that tells a text, the committer behind the segmenter goes on telling it |
| LagText.PipelineTells | my-tab-audio-ext/translator.py:2228-2290 | over every run, what was released and what waits are exactly the sentences told, with text and number, and the pending sentence is the unfinished one |
| LagText.DispatchLeavesExactly | my-tab-audio-ext/translator.py:1951-1990 | how many sentences wait after a dispatch, in every case |
| EnSeq.Gate.Admit | my-tab-audio-ext/translator.py:1826-1833 | which messages are admitted, with which number, and the marks afterwards |
| EnSeq.AdmittedInOrder | my-tab-audio-ext/translator.py:2466-2473 | on every numbered stream the numbers admitted strictly increase |
| EnSeq.GivenNeverFallsIff | my-tab-audio-ext/translator.py:1826-1833 | on every mixed stream the numbers given never fall exactly when the local count keeps up with the numbers received |
| Stabilizer.Clamp | my-tab-audio-ext/server.py:737-739 | the constructor's numbers are clamped to their ranges |
| Stabilizer.TranscriptStabilizer.Reset | my-tab-audio-ext/server.py:748-752 | the shown text is the normalised one and nothing is pending |
| Stabilizer.TranscriptStabilizer.Step | my-tab-audio-ext/server.py:754-803 | one update: action, rollback and new state are those specified |
| Stabilizer.UpdateKinds | my-tab-audio-ext/server.py:754-803 | each update keeps the shown text, extends it, replaces only trailing marks while growing, or rewrites a bounded end after the interval |
| Stabilizer.ActionsExactly | my-tab-audio-ext/server.py:754-803 | when each of the four actions happens, by the two texts, the clock and the candidate before, and the new state: an append exactly when the text properly extends the shown one, or is longer and does so up to trailing marks with the setting on |
| Stabilizer.RollbackSays | my-tab-audio-ext/server.py:754-803 | the number that comes with an action: 0 for equal texts and appends, else the least number of last shown characters the new text does not keep |
| Stabilizer.GrowingIsShown | my-tab-audio-ext/server.py:764-768 | over every run of growing texts the text shown is the last one |
| Stabilizer.RewritesAreRare | my-tab-audio-ext/server.py:786-788 | characters deleted by rewrites in a window W are at most max_rollback * (W / interval + 1), over every run |
| Stabilizer.RewriteIffConfirmed | my-tab-audio-ext/server.py:780-801 | the pending count is exactly how often in a row the last candidate came; a rewrite happens exactly when the required number of latest candidates are one text |
| Stabilizer.EveryRewriteIsConfirmed | my-tab-audio-ext/server.py:780-801 | the same, in both directions, at every moment of every run since a reset |
| EnServer.EnglishServer.PatchFromModelText | my-tab-audio-ext/server.py:1279-1364 | one update of the model's text: message sent and new state are those specified, with warm-up, rate limit and each reading of a clock |
| EnServer.EnglishServer.StableCallback | my-tab-audio-ext/server.py:1375-1410 | one stable text: message sent and new state are those specified, warm-up included |
| EnServer.OutputsExplain | my-tab-audio-ext/server.py:1302-1341 | the emitted text changes exactly when a message explains the change; numbers grow by one; the snapshot never gets shorter |
| EnServer.PatchShowsWanted | my-tab-audio-ext/server.py:1279-1364 | a patch makes the emitted text the stabiliser's shown text after that update, or with it off the joined text; none is sent exactly for warm-up, an empty text, equality or the interval |
| EnServer.EmittedIsShown | my-tab-audio-ext/server.py:1279-1410 | without an interval the emitted text is the shown one at every moment of every run |
| EnServer.PatchesDeleteLittle | my-tab-audio-ext/server.py:1302-1341 | between two stables patches delete at most what the stabiliser rewrites and the trailing marks it replaces, in every window of time |
| EnServer.StableSays | my-tab-audio-ext/server.py:1375-1410 | a stable sends the longer of its text and the snapshot, makes it the emitted and the shown text, and is left out exactly for warm-up or an empty text |
| EnServer.PatchesAreSpaced | my-tab-audio-ext/server.py:1315-1323 | on every run a patch leaves no sooner than the interval after the message before it |
| TailTrim.TailForLayout | my-tab-audio-ext/overlay.js:203-219 | trimming keeps a tail, all of a short text, and of a long one at most the limit and at least the limit less 180 |
| TailTrim.TrimTail | my-tab-audio-ext/service_worker.js:81-97 | the moving cursor of the service worker and of the overlay gives that same tail |
| TailTrim.TailStartMeans | my-tab-audio-ext/service_worker.js:81-97 | the kept tail begins behind the first sentence end nearby, else behind the next blank nearby, else right at the limit |
| EnOverlay.EnglishOverlay.EnqueueOp | my-tab-audio-ext/overlay.js:340-370 | a patch with an old number is dropped, any other is queued, and a frame is requested while operations wait |
| EnOverlay.EnglishOverlay.FlushFrame | my-tab-audio-ext/overlay.js:379-403 | the loop applies the queue in order and trims to the cap |
| EnOverlay.EnglishOverlay.ApplyStableText | my-tab-audio-ext/overlay.js:405-448 | a stable flushes first and then replaces the text or is passed over, as specified |
| EnOverlay.CapHolds | my-tab-audio-ext/overlay.js:379-448 | with a positive cap the text stays within it |
| EnOverlay.LateChangesNothing | my-tab-audio-ext/overlay.js:340-448 | on every run a patch or stable whose number is not above all before of its kind changes nothing, then or later |
| EnRefinement.PatchRoundTrip | my-tab-audio-ext/server.py:702-706 | a patch replayed on the old text gives the new text |
| EnRefinement.PatchOnSuffix | my-tab-audio-ext/overlay.js:372-377 | replayed on a tail of the old text it gives a tail of the new one, even if it deletes more than the tail |
| EnRefinement.StepKeepsEqual | my-tab-audio-ext/overlay.js:405-448 | as long as nothing is cut, a step keeps overlay and server equal exactly when it passes over no stable |
| EnRefinement.OverlayFollowsServer | my-tab-audio-ext/service_worker.js:1325-1350 | on every interleaving the overlay's text is a tail of the server's since the last stable shown, whatever was trimmed or passed over before |
| EnRefinement.OverlayEqualsServerIff | my-tab-audio-ext/overlay.js:340-448 | on every interleaving in which no delivered message is cut, the overlay's text equals the delivered text at every moment exactly when no stable is passed over; then it is what the server emits once nothing is on the way |
| EnRefinement.PassesOverIff | my-tab-audio-ext/overlay.js:440-447 | a stable is passed over exactly when the text is up to 24 characters longer and does not begin with it |
| EnRefinement.PassedOverStableDiverges | my-tab-audio-ext/overlay.js:440-447 | every pair of texts that differ by the skip rule, at most 24 characters, gives a run after which overlay and server differ |
| StableFeed.Feed.Stable | my-tab-audio-ext/service_worker.js:1012-1035 | which stables are sent on, and the mark afterwards |
| StableFeed.GateBehindFeed | my-tab-audio-ext/service_worker.js:1012-1035 | from any marks, what passes feed and gate is every numbered stable above both, and an unnumbered one only as the first of all and only if the gate has admitted nothing |
| StableFeed.GateAgreesWithFeed | my-tab-audio-ext/service_worker.js:1012-1035 | from the start: the gate drops no numbered stable that the feed sends, and what passes strictly increases |
| ViOverlay.VietnameseOverlay.GuardAndUpdate | my-tab-audio-ext/overlay.js:492-567 | the four guards in order: verdict and marks, also those a rejected message leaves behind |
| ViOverlay.VietnameseOverlay.EnqueueOp | my-tab-audio-ext/overlay.js:569-591 | an accepted operation is queued; a rejected one changes marks only |
| ViOverlay.VietnameseOverlay.FlushFrame | my-tab-audio-ext/overlay.js:630-666 | the loop applies the queue in order, trims, and drops a draft left behind |
| ViOverlay.VietnameseOverlay.ApplyStable | my-tab-audio-ext/overlay.js:668-688 | an accepted stable flushes first and replaces the commit |
| ViOverlay.VietnameseOverlay.ApplyDraft | my-tab-audio-ext/overlay.js:690-707 | a draft is taken only when enabled, accepted and extending the commit |
| ViOverlay.VietnameseOverlay.ResetVietnamese | my-tab-audio-ext/overlay.js:869-883 | the reset on reconnect has the same effect as the full one |
| ViOverlay.GuardIff | my-tab-audio-ext/overlay.js:492-567 | an operation is accepted exactly when its epoch is not old and each number it carries is in order |
| ViOverlay.GuardStores | my-tab-audio-ext/overlay.js:492-567 | every mark afterwards, in every case, also when a later guard refuses |
| ViOverlay.DraftIsShownIff | my-tab-audio-ext/overlay.js:690-707 | a non-empty draft becomes the visible text exactly when drafts are on, the guards accept it and it extends the commit |
| ViOverlay.DraftGoes | my-tab-audio-ext/overlay.js:869-883 | turning drafts off leaves the commit visible, a reset nothing |
| ViOverlay.FlushKeepsDraft | my-tab-audio-ext/overlay.js:630-666 | a flush keeps a draft that still extends the commit and the cap |
| ViOverlay.VisibleExtendsCommit | my-tab-audio-ext/overlay.js:467-482 | in every reachable state the draft is empty or extends the commit, so the visible text extends the commit |
| ViOverlay.StepMarks | my-tab-audio-ext/overlay.js:492-567 | within an epoch no mark goes back, over every kind of message |
| ViOverlay.AcceptedIncrease | my-tab-audio-ext/overlay.js:544-563 | on every run the accepted numbered operations strictly increase, epoch first |
| ViOverlay.OrderSurvivesResetIff | my-tab-audio-ext/overlay.js:727-727 | operations accepted before and after a reset are in order exactly if the epoch was below 2^31 |
| ViOverlay.LateCommitIsShown | my-tab-audio-ext/overlay.js:869-883 | a commit that was on its way at a reset is shown afterwards, in every state |
| ViPipeline.CommitWorker.Send | my-tab-audio-ext/translator.py:2102-2117 | one translation: text, number and messages are those specified |
| ViPipeline.Relay.OnMessage | my-tab-audio-ext/service_worker.js:1097-1139 | which messages go on to the overlay, and the mark afterwards: a delta behind its commit does not |
| ViPipeline.FullIsPieces | my-tab-audio-ext/translator.py:931-943 | the translator's text is every translation, stripped, with one blank behind it |
| ViPipeline.CommitAppendsIff | my-tab-audio-ext/overlay.js:527-538 | a commit's text is appended exactly when no higher English number was accepted before, and is lost otherwise |
| ViPipeline.ExactlyOnceWhenHeard | my-tab-audio-ext/service_worker.js:1097-1154 | on every run whose commits are heard, the overlay's text is the delivered text, and over the cap a tail of it at most 180 characters shorter than the cap |
| ViPipeline.ShownIffHeard | my-tab-audio-ext/overlay.js:527-538 | without a cap, on every run the overlay shows exactly what was delivered if and only if every commit was heard |
| ViPipeline.ExactlyOnce | my-tab-audio-ext/translator.py:2102-2117 | with drafts off and English numbers that never fall, every commit is heard: nothing is doubled or dropped |
| ViPipeline.AllAllowedIff | my-tab-audio-ext/translator.py:2115-2117 | what `ExactlyOnce` asks of the translator holds exactly when no hello turns drafts on and the English numbers never fall |
| ViPipeline.DraftDropsCommit | my-tab-audio-ext/overlay.js:527-538 | with drafts on, any draft for later English drops a commit behind it |
| ViPipeline.DraftedRunLosesCommit | my-tab-audio-ext/overlay.js:527-538 | a whole run from the start that loses its commit, for every draft and every translation |
| EndToEnd.FrontStepOk | my-tab-audio-ext/translator.py:2228-2290 | in both modes, every stable, release, batch taken and item sent keeps the English numbers of what is in the worker's hand, queued and waiting from falling |
| EndToEnd.MovesAllowed | my-tab-audio-ext/translator.py:2466-2495 | whatever stables arrive, the translated items meet what `ViPipeline.ExactlyOnce` asks |
| FrontProofs.FrontFollows | my-tab-audio-ext/translator.py:2228-2290 | in both modes and on every interleaving, the front is what segmenter and committers make of the texts that pass feed and gate; while the queue does not overflow, what was sent, is in hand and is queued are all items handed over, in order |
| FrontProofs.StepFollows | my-tab-audio-ext/translator.py:2045-2121 | each event: what it hands over, what it takes and sends, and what the queue keeps |
| EndToEnd.ExactlyOnceFromStables | my-tab-audio-ext/translator.py:2045-2121 | from the received stables to the overlay, in both modes and on every interleaving, also while the worker holds a batch and the queue overflows, with drafts off: each append is shown once and none is lost by a guard |
| SentenceScan.SplitSentencesAndTail | my-tab-audio-ext/server.py:674-682 | the loop over the matches returns the specified sentences and tail |
| SentenceScan.FirmSentencesStay | my-tab-audio-ext/server.py:674-682 | when a text grows, all sentences but one that reaches its end stay the first sentences |
| SentenceScan.MatchEndIff | my-tab-audio-ext/server.py:674-682 | where the expression ends a match, with marks, quotes and blanks as three runs |
| SentenceScan.SplitKeepsIff | my-tab-audio-ext/server.py:674-682 | sentences and tail are a partition of the text exactly when no mark that ends nothing precedes one that ends a sentence |
| SentenceScan.DecimalIsLost | my-tab-audio-ext/server.py:674-682 | the loss at a concrete text, "3.14 ok.", and none at the same text without its end mark |
| SentenceFeed.FeedWriter.Snapshot | my-tab-audio-ext/server.py:1134-1185 | one snapshot: lines written and count are those specified |
| SentenceFeed.NewLinesStamped | my-tab-audio-ext/server.py:1154-1185 | lines are only added, and each new one has the snapshot's time exactly when stamps are on |
| SentenceFeed.FeedIsStable | my-tab-audio-ext/server.py:1154-1176 | for growing snapshots, any of them dropped, the feed is the first sentences, once each and for good, and at most one behind |
| SentenceFeed.FinalFeedIsWhole | my-tab-audio-ext/server.py:1154-1185 | after the final snapshot the feed is all sentences and the tail |
| SentenceFeed.FinalFeedIsTextIff | my-tab-audio-ext/server.py:1154-1185 | joined with blanks it is the whole text exactly when no mark that ends nothing precedes one that ends a sentence |
| AudioBuffer.Buffer.Append | my-tab-audio-ext/server.py:1481-1487 | samples and times grow alike; an empty piece changes nothing |
| AudioBuffer.Buffer.ConsumeSamples | my-tab-audio-ext/server.py:1492-1509 | the array holds the first samples in order and the buffer the others |
| AudioBuffer.Buffer.ConsumeSegments | my-tab-audio-ext/server.py:1511-1526 | the times of that many samples go, and the watermark is the time of the last one |
| AudioBuffer.Buffer.DropOldestTo | my-tab-audio-ext/server.py:1531-1548 | exactly the oldest samples over the target go, and are accounted for |
| AudioBuffer.Buffer.FeedItem | my-tab-audio-ext/server.py:1599-1613 | frames of exactly one hop, in order, after shedding exactly what is too old; double entry holds; the watermark is the time of the last sample fed and never goes back |
| AudioBuffer.ShedIs | my-tab-audio-ext/server.py:1531-1548 | samples are shed exactly above the limit, and then as many stay as fit the target |
| AudioQueue.Queue.Receive | my-tab-audio-ext/server.py:1773-1790 | one message: drop at the threshold, wait or queue, drop down to the cap |
| AudioQueue.Queue.TakeItem | my-tab-audio-ext/server.py:1582-1586 | the oldest item and its bytes go |
| AudioQueue.ArriveKeepsLatest | my-tab-audio-ext/server.py:1773-1790 | an arriving message drops the oldest exactly at the threshold, and of the rest the most that stay under the cap are kept |
| AudioQueue.DropsOnlyOldest | my-tab-audio-ext/server.py:1788-1790 | dropping takes the oldest items and no more than needed |
| AudioQueue.TotalIsExact | my-tab-audio-ext/server.py:1582-1586 | on every run, for all settings, the byte total is the sum of the queued sizes and below a positive cap: the clamps never bite |
| AudioQueue.WaitsIff | my-tab-audio-ext/server.py:1773-1785 | `put` can block on some run exactly when the queue is bounded and nothing makes room in time |
| AudioQueue.QueueStaysAtGuard | my-tab-audio-ext/server.py:1773-1785 | with drop-oldest and a threshold within the bound, the queue never outgrows the threshold |
| Pcm.Processor.EmitChunks | my-tab-audio-ext/audio-worklet/pcm-processor.js:12-42 | posted chunks are full and, followed by what waits, are the quantised input in order |
| Pcm.Processor.Process | my-tab-audio-ext/audio-worklet/pcm-processor.js:44-55 | the same over any sequence of blocks; less than a chunk waits |
| Pcm.QuantizeFits | my-tab-audio-ext/audio-worklet/pcm-processor.js:33-37 | no sample wraps around 16 bits |
| Pcm.QuantizeKeepsOrder | my-tab-audio-ext/audio-worklet/pcm-processor.js:33-37 | quantisation keeps order, silence and full scale |
| Pcm.DecodeIsClose | my-tab-audio-ext/server.py:650-652 | a sample in range comes back with its sign, no larger, and less than 2/32768 off |
| Pcm.StreamIsClose | my-tab-audio-ext/server.py:650-652 | the decoded chunks are the input, sample by sample, up to that error |
| LineLayout.BestCutIsLongest | my-tab-audio-ext/overlay.js:233-243 | the binary search finds the longest fitting prefix of a token |
| LineLayout.FitPrefixByWidth | my-tab-audio-ext/overlay.js:221-250 | the loop over tokens returns the specified split |
| LineLayout.FitKeeps | my-tab-audio-ext/overlay.js:221-250 | fit and rest are the sentence, for every width function, and nothing fits without room |
| LineLayout.FitFits | my-tab-audio-ext/overlay.js:221-250 | the prefix fits, and is not empty if there is room and the first character fits |
| LineLayout.FitBreaksAtSeams | my-tab-audio-ext/overlay.js:221-250 | a line breaks between tokens unless not even the first token fits, and the next token would not have fitted |
| LineLayout.FillKeeps | my-tab-audio-ext/overlay.js:264-291 | filling a line loses nothing and takes at most the allowed number of pieces |
| LineLayout.FillIsGreedy | my-tab-audio-ext/overlay.js:264-291 | a line ends with the queue, at that number, or because the next piece would not fit whole |
| LineLayout.NextLineKeeps | my-tab-audio-ext/overlay.js:259-299 | a round of the line loop moves text from queue to line without loss, unless it is stuck and puts all back |
| LineLayout.BuildLines | my-tab-audio-ext/overlay.js:252-302 | the loop ends, the lines are the pieces end to end, and every line fits where widths add up |
| LineLayout.EndsIff | my-tab-audio-ext/overlay.js:293-298 | on a line of positive width, where widths add up, the loop ends exactly when each character fits by itself |
| Persist.TranscriptPersist.HandleStableText | my-tab-audio-ext/sw/transcript_persist.js:248-267 | a stable is queued once, unless stopped, repeated or blank |
| Persist.TranscriptPersist.RunNextTask | my-tab-audio-ext/sw/transcript_persist.js:260-266 | the next task is skipped, writes, or first asks for a session |
| Persist.TranscriptPersist.BeginStop | my-tab-audio-ext/sw/transcript_persist.js:269-271 | stopping fixes the final text |
| Persist.TranscriptPersist.AfterChain | my-tab-audio-ext/sw/transcript_persist.js:273-279 | behind the chain the final snapshot, the stopped patch, or nothing follows |
| Persist.AtMostOneSession | my-tab-audio-ext/sw/transcript_persist.js:130-185 | under every interleaving at most one session row is asked for |
| Persist.WritesNeverOverlap | my-tab-audio-ext/sw/transcript_persist.js:187-194 | the chain and the stop never have a write under way at once |
| Persist.SnapshotsInOrder | my-tab-audio-ext/sw/transcript_persist.js:248-267 | snapshots follow call order, none twice or left out before a stop, and the final one comes last |
| Persist.WantedIsWritten | my-tab-audio-ext/sw/transcript_persist.js:248-267 | over every run, what is accepted are exactly the texts of the stables before anything stops that are not blank and differ from the one before; when the chain is idle and nothing has stopped, the snapshots are these texts, and there is a session if there is one |
| Persist.StopsIff | my-tab-audio-ext/sw/transcript_persist.js:130-185 | what stops the chain: a stop, or a refused user or session |
| Persist.StopSettles | my-tab-audio-ext/sw/transcript_persist.js:269-271 | the final text is the one given, or the last text of a stable if that is empty |
| Persist.StopHasTheLastWord | my-tab-audio-ext/sw/transcript_persist.js:269-297 | the stopped patch is the last write, and the last snapshot is a non-blank final text |
| Persist.FinalIsFixed | my-tab-audio-ext/sw/transcript_persist.js:269-271 | nothing changes the final text after the call |
| Sse.SseReader.Read | my-tab-audio-ext/sidepanel.js:2957-3009 | one read: frames handled, text given up on, and what stays in the buffer |
| Sse.SseReader.HandleFrame | my-tab-audio-ext/sidepanel.js:2976-2990 | the loop over lines yields the frame's event name and data |
| Sse.FrameSays | my-tab-audio-ext/sidepanel.js:2976-2990 | a frame has the last event name, `message` without one, and its data values joined with line feeds, empty ones left out; without data it has nothing |
| Sse.LinesAreFrame | my-tab-audio-ext/sidepanel.js:2979-2979 | the lines of a frame, joined with line feeds, are the frame, and hold none |
| Sse.NextFrameIs | my-tab-audio-ext/sidepanel.js:2964-2974 | a frame ends at the first LF LF, or without any at the first CR LF CR LF |
| Sse.GivesUpIff | my-tab-audio-ext/sidepanel.js:3000-3000 | the reader gives up exactly on more than 4096 characters without a field name |
| Sse.ChunkIndependentIff | my-tab-audio-ext/sidepanel.js:2964-2974 | the frames do not depend on the chunks exactly when no LF LF comes behind a CR LF CR LF |
| Sse.HandledIsChunkIndependent | my-tab-audio-ext/sidepanel.js:2957-3009 | with one style of line ending, and while the reader does not give up, events and data are those of the whole text |

## Left out

- Micro-delta delivery of patches (`UI_MICRO_DELTA_ENABLE`): its chunks share one number and the overlay drops all but the
  first, so there is no replay to prove; patches here are single messages.
- `FIX_BROKEN_WORDS` and the delay-words rule before the segmenter: heuristics on the text that comes in.
- Draft heuristics, translation, its post-processing and its failures: a translation is a parameter, and a failed one sends
  nothing.
- A reset or baseline in the middle of a run of the translator: it empties the committers, and a baseline clears the strict
  timeline without seeding it. Runs start behind one, with any marks, text and window.
- Characters outside the Basic Multilingual Plane: JavaScript and Python count them differently; every character counts
  as one here. `delN | 0` is the identity on deletions below 2^31.
- The queue of 64 commits overflows in the methods and in `EndToEnd`; the conservation theorems are about what is handed
  to it.
- The end mark of the commit queue, and the worker's own filter: the queue already refuses what that would drop.
- Resets within a run of the two end-to-end models, and reconnects of the service worker: the overlay's own reset is
  modelled in `ViOverlay`. The English reset is not part of this model.
- When a draft becomes visible: the display's timing rules are one boolean.
- Floating point: samples, times and widths are reals.
- End of the audio stream: the buffer's part is `FeedFrames`; the frames of silence behind it and the queue's end marker
  are not modelled.
- Rate limits of the TXT writer's other files, and a second `stop` or a `start` after a `stop` of the persistence chain.
- What a handled event means to the side panel (`extractDeltaText`), and text left in the buffer at the end of a stream,
  which the code ignores.
- The meter messages of the audio worklet, debug counters and logging.
- LineLayout.BuildLines: its precondition is the condition under which the source's loop ends; `LineLayout.EndsIff` proves
  that it is the exact one for widths that add up and cover their characters.
