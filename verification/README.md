# FlowHelm: verified model

FlowHelm runs personal agents for the users of one machine. This project models, in Dafny 4.11, the parts of it that
keep state or do real arithmetic, and proves what they promise. `dafny verify dfyconfig.toml` checks all of it.

The model follows the program's form: code that updates fields or arrays is a class or a method with loops, proved
against specification functions; the laws of those functions are lemmas.

**QR encoder** (`Gf*`, `Polynomials`, `ReedSolomon*`, `Qr*`). The tables of GF(2^8), Reed-Solomon encoding by polynomial
long division, the byte-mode stream, block interleaving, module placement, masking and format bits of ISO/IEC 18004:2015
(sections 7.4.5, 7.5.2, 7.6, 7.7.3, 7.8 and 7.9) for versions 1 to 4 at level M. The main theorem is that a reader of
the finished symbol gets the bytes back; below it lie the field laws, the roots, uniqueness and minimum distance of the
codewords, the correction of a whole symbol (`SymbolRecovery`), and the placement: the zigzag is the only list of the
data modules in the standard's order (`ScanOrderIffZigzag`), and masks, format words and function patterns are what the
standard describes (`QrStandard`). A comment in the source (qr.ts:491) calls level M "01"; the format words it lists
carry 00, which is the standard's value, and the model follows the words. The second format copy writes the module
(size-8, 8) at i = 7, so it overwrites the dark module, as the code does; the reader uses the first copy.

**Recursive memory** (`Memory*`, `Personality`). The database is a value of maps and edge sets; the reflection job, the
consolidation job and the profile manager change it statement by statement. Any awaited call can fail, and replies of
the language model, similarities and the nearest neighbour are arbitrary, so every contract covers every point of
failure. The reflection job and the consolidation job change the tables by guarded statements only (`MemoryStatements`,
`MemoryLinkage`), and a run of the memory system (`MemoryRuns`) is any interleaving of such statements, clones,
statements of deletions and other writes. From a good first state, such as the empty database, every reachable state has
a layered meta DAG, so tracing ends and is reachability; confidences stay in bounds; low entries are frozen and no
search returns them; cascades settle after seven passes per level; no entry is condensed twice by passes of the job
(`NeverCondensedTwice`); and each message has at most one summary per profile. A clone copies message links, so across
profiles a message can have several summaries (`CloneUniqueIff`). A depth-1 summary records the end of a summary that
starts last. `SpanCoversIff` says, in terms of the open summaries before the condensation, when that covers all of them;
`SpanMayMiss` is a reachable state in which it does not.

**Message queue and orchestrator** (`MessageQueue`, `Orchestrator*`, `FlowHelmOrchestrator`). Every method is cut at its
awaits; each segment is one step of a transition system in which notifications, dequeues, tasks, crashes and
administrator actions interleave freely. The comments promise one task per chat and a container limit; the code keeps
neither, because the checks and the registration lie on two sides of an await. `OneTaskPerChatFails` is a run that
breaks both; `OneTaskPerChatIff` and `ContainerLimitIff` say exactly which steps do. A pending row is looked after as
long as a task, a dequeue or a notification of its chat is under way; `PendingIsServedIff` says exactly when that holds
over a whole run, and `PendingRowIsOrphaned` is a run in which a notification dropped by the container limit leaves a
row to nobody. A chat whose tasks do not overlap finishes its messages in order (`NonOverlappingChatsFinishInOrder`),
unless a `fail` throws and leaves its row in processing while later ones go on. The bound of attempts by `max_attempts`
needs `max_attempts` of at least 1 (`AttemptsWithinIff`); nothing in the queue checks that.

**Time and capacity** (`RateLimiter`, `CertCache`, `PortRegistry`, `LatencyBuffer`). Each structure is proved against
its full history: acceptances, touches, slots, pushed values. The current time is an argument that does not decrease
where the property needs it.

**Command splitter** (`CommandArgs`). Every command is a writing of bare, quoted and perhaps one unclosed piece
(`EveryCommandIsWritten`), and splitting gives back what was written (`SplitOfWriting`).

## Model

| member | source | states |
|---|---|---|
| GfTables.BuildTables | services/auth-bridge/qr.ts:15-33 | the exp table holds the powers of the generator element (with entry 255 wrapped) and the log table their positions |
| GfTables.GfMulIsProduct | services/auth-bridge/qr.ts:35-38 | the table look-up product equals shift-and-add multiplication in the field, zero operands included |
| GfModulus.GfMulIsProductModulo | services/auth-bridge/qr.ts:15-38 | the table product is the remainder of the carry-less product of the two bytes modulo 0x11D |
| GfModulus.RemainderIsUnique | services/auth-bridge/qr.ts:15-16 | a number has only one remainder below 256 modulo 0x11D, so the statement above determines the product |
| GfOrder.EveryNonzeroIsPower | services/auth-bridge/qr.ts:23-33 | the element 2 generates the whole multiplicative group: the log table has an entry for every nonzero byte |
| GfOrder.PowInjective | services/auth-bridge/qr.ts:23-33 | the first 255 powers are pairwise different |
| GfOrder.Pow255 | services/auth-bridge/qr.ts:32-32 | power 255 is 1 again, which justifies the wrapped entry and the modulus 255 of the exponents |
| GfTables.MulAssociates | services/auth-bridge/qr.ts:35-38 | multiplication is associative |
| GfTables.NoZeroDivisors | services/auth-bridge/qr.ts:35-38 | a product is zero only if a factor is |
| ReedSolomon.PolyMul | services/auth-bridge/qr.ts:40-49 | the in-place double loop computes the polynomial product |
| ReedSolomon.EvalProduct | services/auth-bridge/qr.ts:40-49 | evaluating that product at any point is multiplying the two values: it is a polynomial product |
| ReedSolomon.BuildGenerator | services/auth-bridge/qr.ts:53-57 | the loop builds the generator polynomial of the wanted degree |
| ReedSolomon.GeneratorRoots | services/auth-bridge/qr.ts:53-57 | the generator vanishes at the powers 0 .. ecCount-1 |
| ReedSolomon.DivideInPlace | services/auth-bridge/qr.ts:59-68 | the long division on the message array is the functional division step by step |
| ReedSolomon.RsEncode | services/auth-bridge/qr.ts:51-71 | the encoder returns the parity part of the codeword |
| ReedSolomon.CodewordVanishes | services/auth-bridge/qr.ts:51-71 | data followed by its parity is zero at the powers 0 .. ecCount-1, for every data block |
| ReedSolomonDistance.ParityIsUnique | services/auth-bridge/qr.ts:51-71 | the parity is the only tail that makes the word vanish at those powers: an independent definition of the encoder |
| ReedSolomonDistance.SparseVanishingIsZero | services/auth-bridge/qr.ts:51-71 | a word with at most m nonzero symbols that vanishes at m consecutive powers is zero |
| ReedSolomonDistance.MinimumDistance | services/auth-bridge/qr.ts:51-71 | codewords of different blocks of one length differ in at least ecCount + 1 positions |
| ReedSolomonDistance.UniqueRecovery | services/auth-bridge/qr.ts:51-71 | a received word within half of ecCount errors of two codewords has one data block only |
| QrVersions.SelectVersion | services/auth-bridge/qr.ts:116-124 | the smallest version that has room, or the error exactly above 62 bytes |
| QrEncoding.EncodeData | services/auth-bridge/qr.ts:127-177 | mode, count, data, terminator, alignment and pad bytes are pushed bit by bit into the data codewords |
| QrEncoding.StreamShape | services/auth-bridge/qr.ts:127-177 | every bit of the stream: 0100, the count and the data bytes digit by digit from the most significant, four zero bits of terminator with no alignment bit after it, then 0xEC and 0x11 in turn up to the capacity |
| QrEncoding.SegmentRoundTrip | services/auth-bridge/qr.ts:127-177 | parsing the byte-mode segment of the data codewords gives the data back |
| QrEncoding.AllBitsDigit | services/auth-bridge/qr.ts:330-335 | bit 8 i + b of the codewords is the digit of weight 2^(7 - b) of codeword i |
| QrBlocks.BuildCodewords | services/auth-bridge/qr.ts:180-217 | splitting, encoding and interleaving loops build the final message |
| QrBlocks.DeinterleaveRoundTrip | services/auth-bridge/qr.ts:180-217 | de-interleaving the final message gives the data codewords back, and the message has the full length |
| QrBlocks.ParityRoundTrip | services/auth-bridge/qr.ts:180-217 | the bytes behind the data are the Reed-Solomon parity of each block |
| QrBlocks.OneBlockMessage | services/auth-bridge/qr.ts:180-217 | with one block the message is the data followed by its parity |
| QrBlocks.TwoBlockData | services/auth-bridge/qr.ts:196-206 | with two blocks the codewords of the two halves of the data alternate |
| QrBlocks.TwoBlockParity | services/auth-bridge/qr.ts:208-214 | and so do their parity codewords behind them |
| QrRecovery.BlockIsCodeword | services/auth-bridge/qr.ts:180-217 | what a reader takes out of the message as a block is the Reed-Solomon codeword of the data of that block |
| QrRecovery.SymbolRecovery | services/auth-bridge/qr.ts:180-217 | a message each of whose blocks differs from those of two data strings in at most half of the parity codewords of a block belongs to one data string: the correction the symbol is built for |
| QrRecovery.TextRecovery | services/auth-bridge/qr.ts:127-217 | the same for two texts of one version, from their bytes to the interleaved message |
| QrLayout.ZigzagIsBijection | services/auth-bridge/qr.ts:330-370 | the two-column zigzag visits every module outside the function patterns exactly once |
| QrLayout.ZigzagLength | services/auth-bridge/qr.ts:330-370 | it has room for all codeword bits, with fewer than 8 modules over |
| QrLayout.ScanOrderIffZigzag | services/auth-bridge/qr.ts:336-370 | in coordinates: strips from right to left, even strips upwards and odd ones downwards, the right module of a row first; exactly one list of the data modules is in this order, and it is the zigzag |
| QrReserved.BuildReservedMask | services/auth-bridge/qr.ts:391-466 | the recomputed reserved mask is exactly the set of function-pattern modules |
| QrMatrix.PlacePatterns | services/auth-bridge/qr.ts:224-328 | the set reserved while placing is that same set, and every pattern module has its prescribed colour |
| QrMatrix.PlaceData | services/auth-bridge/qr.ts:330-370 | bit n of the message lands on module n of the only list of data modules in the order of the standard, zero bits follow, and no function module changes |
| QrMatrix.BuildMatrix | services/auth-bridge/qr.ts:224-373 | the whole unmasked symbol: patterns, data and no undecided module |
| QrCode.ApplyMask | services/auth-bridge/qr.ts:375-388 | a mask flips exactly the non-reserved modules its condition selects |
| QrCode.MaskTwice | services/auth-bridge/qr.ts:469-487 | masking twice is the identity |
| QrCode.WriteFormatInfo | services/auth-bridge/qr.ts:492-529 | format writing sets exactly the format modules, to the bits of the word of the mask |
| QrCode.FormatIsReserved | services/auth-bridge/qr.ts:504-529 | no format module is a data module, so writing format bits never touches data |
| QrCode.ReadBack | services/auth-bridge/qr.ts:623-646 | a reader that takes the mask from the first format copy, un-masks, walks the data modules in the order of the standard, de-interleaves and parses gets the data back, whichever mask was chosen |
| QrCode.SymbolModules | services/auth-bridge/qr.ts:330-388 | module by module: bit b of codeword i is on module 8 i + b of the order, inverted where the mask says so |
| QrStandard.SimpleMasks | services/auth-bridge/qr.ts:379-382 | masks 0 to 3 as a chessboard, rows, every third column and every third diagonal |
| QrStandard.ProductMasks | services/auth-bridge/qr.ts:384-386 | masks 5 to 7 by the product of row and column modulo 6 and 3 |
| QrStandard.BlockMask | services/auth-bridge/qr.ts:383-383 | mask 4 as a chessboard of fields of two rows and three columns |
| QrStandard.FormatWordsAreBch | services/auth-bridge/qr.ts:491-501 | each tabulated word is the BCH(15,5) codeword of the level bits 00 and the mask number, under the mask 0x5412 |
| QrStandard.FormatWordsApart | services/auth-bridge/qr.ts:491-501 | two of these words differ in at least seven bits |
| QrStandard.FormatModules | services/auth-bridge/qr.ts:503-529 | both copies of a finished symbol hold the word of its mask, bit by bit at the positions of the standard |
| QrStandard.PatternColours | services/auth-bridge/qr.ts:236-306 | the colour of every function module by its distance from the centres: squares of finders and alignment pattern, alternating timing lines, the dark module |
| QrCode.GenerateQrMatrix | services/auth-bridge/qr.ts:623-646 | for every input of at most 62 bytes (and only then) a symbol results that reads back as the input and carries a mask of least score |
| MemoryTrace.ExpandMeta | src/orchestrator/memory.ts:507-540 | an entry expands to its source rows at depth 0 and to its child entries above, a missing one to nothing |
| MemoryTrace.TraceMetaToSources | src/orchestrator/memory.ts:546-573 | the recursion ends and returns each traced row once |
| MemoryTrace.TraceIsReachability | src/orchestrator/memory.ts:546-573 | the traced rows are exactly those reachable along some path of the DAG |
| MemoryCascade.RunContradictionCascade | src/orchestrator/reflection.ts:511-556 | one pass, in any row order, leaves the state that follows the rule below; cut off by an error, every entry has its old or its final value; the count is the number of entries that are different |
| MemoryCascade.PassIffRules | src/orchestrator/reflection.ts:511-556 | over the join table: an entry of the levels 1 to the deepest at or above 0.2 decays to four fifths, but not below 0.1, exactly when more of its children end the pass below 0.2 than not; one state only follows this rule, the one a pass leaves |
| MemoryStability.PassesSettle | src/orchestrator/reflection.ts:511-556 | passes settle after n levels-times passes as soon as n decays bring the highest confidence below 0.2 |
| MemoryStability.SevenPassesSettle | src/orchestrator/reflection.ts:511-556 | in every state of the invariant and under every configuration seven passes per level settle the DAG, as no confidence above depth 0 exceeds 0.95 |
| MemoryStatements.StatementKeeps | src/orchestrator/reflection.ts:290-556 | every statement of the job, under the guard the job issues it with, keeps the layering and the bounds, freezes low entries and adds no edge to one |
| MemoryReflection.MemoryReflectionJob.CompareNearest | src/orchestrator/reflection.ts:426-470 | above 0.85 the nearest live entry rises by a tenth of what it lacks to one, up to 0.95; above 0.7 it falls to four fifths; otherwise it stays, as does every other entry |
| MemoryReflection.MemoryReflectionJob.StoreReflection | src/orchestrator/reflection.ts:418-496 | one parsed entry: that comparison, and unless the nearest was confirmed one new entry of the kind and profile with the confidence of the reply kept between the threshold and 0.9 and a link to every source row; nothing else changes |
| MemoryReflectionLaws.DuplicatesGrow | src/orchestrator/reflection.ts:446-458 | after n similar replies an entry that began at c has the confidence min(0.95, 1 - (1 - c) 0.9^n), and none of them lowered it |
| MemoryReflection.MemoryReflectionJob.RunReflection | src/orchestrator/reflection.ts:405-502 | wherever it fails: only statements of the job ran, of the old entries only confidences of this kind and profile at depth 0 changed, and a positive report is the exact number of new entries, each linked to all source rows |
| MemoryReflection.MemoryReflectionJob.GenerateD0 | src/orchestrator/reflection.ts:224-263 | nothing happens below the minimum of rows created since the last pass; otherwise the three kinds are attempted in order over exactly those rows, each starting from the tables the one before left |
| MemoryReflection.MemoryReflectionJob.CondenseMetaType | src/orchestrator/reflection.ts:290-337 | over the join table: every edge it adds leads from a new entry to one that was live on the level below and that no edge led to; when something is reported no such entry is left; with fewer of them than the threshold nothing changes |
| MemoryReflectionLaws.NeverCondensedTwice | src/orchestrator/reflection.ts:297-306 | of condensations one after the other, with any work of the job in between, no two add an edge to the same entry |
| MemoryReflectionLaws.RowsAreDrawnOnce | src/orchestrator/reflection.ts:224-245 | two generations, the second since the time the first one recorded, draw on no common row, if no row of the first is younger than that time |
| MemoryStatements.FloorBetween | src/orchestrator/reflection.ts:320-323 | the floor lies between the least and the greatest confidence of the children plus 0.05, up to 0.95 |
| MemoryStatements.SumOfParts | src/orchestrator/reflection.ts:321-322 | the sum behind the average is additive over any grouping of the children |
| MemoryReflection.MemoryReflectionJob.RunCondensation | src/orchestrator/reflection.ts:343-397 | new entries of the kind, profile and depth with a confidence from the floor to 0.95; edges only to the condensed children; the count is exact |
| MemoryReflection.MemoryReflectionJob.StoreCondensed | src/orchestrator/reflection.ts:363-391 | the confidence of the reply, kept between the floor and 0.95 |
| MemoryReflection.MemoryReflectionJob.RunForProfile | src/orchestrator/reflection.ts:197-216 | a pass that gets to its end generated at depth 0 if and only if there were enough recent rows, then made the attempts of level after level, each from the tables the one before left, up to the configured depth or a level that reported nothing, then one cascade pass; it reports their sum |
| MemoryReflection.MemoryReflectionJob.Run | src/orchestrator/reflection.ts:166-188 | one pass at a time, the flag is always released, only statements of the job ran wherever it throws; a finished pass took every profile once through its pipeline and its cascade pass, each from the tables the one before left, reports the sum of all attempts, and only then records its time |
| MemoryProfiles.ProfileManager.CreateProfile | src/orchestrator/profile-manager.ts:33-57 | the first profile is the default; limit and duplicate names are refused without change |
| MemoryProfiles.ProfileManager.SetDefaultProfile | src/orchestrator/profile-manager.ts:169-180 | exactly the given profile is the default afterwards, or nothing changed |
| MemoryProfiles.ProfileManager.AssignChat | src/orchestrator/profile-manager.ts:183-201 | only that chat moves, and its previous profile is returned |
| MemoryProfiles.ProfileManager.DeleteProfile | src/orchestrator/profile-manager.ts:67-116 | the default profile and profiles with chats are refused; a failure leaves exactly the first statements done; other profiles keep all rows and links |
| MemoryProfiles.ProfileManager.CloneProfile | src/orchestrator/profile-manager.ts:219-393 | the whole copy under fresh ids or no change at all: exactly the rows of the source, each copy with the fields of its original in the new profile, and the new name and description |
| MemoryCloneLaws.CloneIsomorphism | src/orchestrator/profile-manager.ts:322-386 | copied rows are joined exactly as their originals, old rows as before, every edge with a fresh end is a copied edge, and a copied summary covers the messages of its original |
| MemoryCloneLaws.CloneKeepsInv | src/orchestrator/profile-manager.ts:219-393 | a clone keeps the layering, the id discipline and the confidence bounds |
| MemoryCloneLaws.CloneKeepsTraces | src/orchestrator/profile-manager.ts:219-393 | every old entry traces to the same rows as before the clone |
| MemoryCloneLaws.CloneTraceImage | src/orchestrator/profile-manager.ts:219-393 | tracing a copied entry gives exactly the copies of the rows traced from the original |
| MemoryCloneSearch.SearchOfClone | src/orchestrator/memory.ts:226-279 | what a search of the source may return, the same search of the clone may return as copies |
| MemoryCloneSearch.OnlyCopiesAreFound | src/orchestrator/memory.ts:226-279 | and it returns nothing else, in no other order |
| MemoryQuery.QueryMetaMemory | src/orchestrator/memory.ts:226-279 | returns the best by score among the nearest candidates of the profile, kind and depth range that are not low |
| MemoryQuery.FetchMetaAtDepthRange | src/orchestrator/memory.ts:360-397 | the same with a similarity gate between the two rankings |
| MemoryQuery.QueryFindsIff | src/orchestrator/memory.ts:226-279 | a search returns something exactly when the profile has an entry of the kind and depth range at or above 0.2 |
| MemoryRuns.StepIsGood | src/orchestrator/reflection.ts:166-556 | statements of the reflection job, single inserts of a consolidation pass, clones, statements of deletions and other writes keep the meta invariant, good links and one summary per message and profile |
| MemoryRuns.ReachableIsGood | src/orchestrator/consolidation.ts:106-159 | over every run from a good state: layered meta DAG, bounds, at most one summary per message and profile whose range covers the message, at most one parent per summary |
| MemoryRuns.ConfidenceBounds | src/orchestrator/identity.ts:24-31 | over every run confidences stay between min(threshold, 0.16) and max(threshold, 0.95), above depth 0 at most 0.95 |
| MemoryRuns.LowEntriesAreFrozen | src/orchestrator/reflection.ts:297-306 | over every run an entry below 0.2 keeps its confidence, is never condensed again, and no search returns it |
| MemoryRuns.TracesAreReachability | src/orchestrator/memory.ts:546-573 | in every reachable state edges join neighbouring levels of one profile and kind, and tracing gives exactly the reachable rows |
| MemoryRuns.CascadesSettle | src/orchestrator/reflection.ts:511-556 | in every reachable state and under every configuration seven cascade passes per level leave nothing to decay |
| MemoryRuns.JobIsRun | src/orchestrator/reflection.ts:166-556 | whatever the reflection job did up to its end or a failure is a run of guarded statements |
| MemoryRuns.PassIsRun | src/orchestrator/consolidation.ts:106-159 | whatever a consolidation pass did up to its end or a failure is a run of single guarded inserts |
| MemoryRuns.NextInsertStaysAllowed | src/orchestrator/consolidation.ts:210-239 | the next insert of a pass keeps its guard under every statement of the other components, unless that deletes the rows to be linked |
| MemoryRuns.CloneIsStep | src/orchestrator/profile-manager.ts:219-393 | a clone that succeeds is a step of such runs, under no further assumption |
| MemoryRuns.DeletionIsSteps | src/orchestrator/profile-manager.ts:85-115 | so is each statement of a deletion |
| MemoryConsolidation.ChunkArray | src/orchestrator/consolidation.ts:354-360 | the chunks are nonempty, all but the last of the full size, and concatenate to the list |
| MemoryConsolidation.MemoryConsolidationJob.SummarizeChunk | src/orchestrator/consolidation.ts:197-239 | a chunk that gets through is linked to one new summary whose range is exactly the time range of the chunk |
| MemoryConsolidation.MemoryConsolidationJob.ConsolidateSession | src/orchestrator/consolidation.ts:172-239 | a session that gets through has every message covered, by exact new summaries; wherever it stops, new rows are of this session and the profile of its chat, and new links lead from them to messages of this session |
| MemoryConsolidation.MemoryConsolidationJob.ExtractFacts | src/orchestrator/consolidation.ts:242-276 | facts add rows only, and a failure in here is swallowed |
| MemoryConsolidation.MemoryConsolidationJob.CondenseSummaries | src/orchestrator/consolidation.ts:297-349 | over the sessions table: every edge it adds leads from a new depth-1 summary of the profile of the chat to summaries of sessions of that chat; all open ones are linked, the range is that of the first and last row of the query; with fewer than the threshold nothing changes |
| MemoryConsolidation.SpanCoversIff | src/orchestrator/consolidation.ts:297-327 | in terms of the open summaries before the call: whatever order the query gives ties, the recorded range covers all of them exactly when none ends after any of those that start last; it can cover them exactly when none ends after one of those |
| MemoryConsolidation.CondensedCovers | src/orchestrator/consolidation.ts:324-349 | the same for the depth-1 row a condensation has left |
| MemoryRuns.SpanMayMiss | src/orchestrator/consolidation.ts:324-327 | a reachable state, with a message that arrives late, from which every condensation records a range that misses the end of a child |
| MemoryConsolidation.MemoryConsolidationJob.CondenseIfReady | src/orchestrator/consolidation.ts:279-294 | only chats with a session that held enough open summaries are condensed, and a pass that gets through leaves no such session |
| MemoryConsolidation.MemoryConsolidationJob.Run | src/orchestrator/consolidation.ts:106-159 | past the threshold and to its end: every message of the ended sessions is covered, new ranges are exact, and the count is the number of sessions; wherever it ends, new rows belong to ended sessions and the profiles of their chats, a new depth-1 summary condenses one chat, uniqueness is kept and the flag is released |
| MemoryConsolidation.UnconsolidatedIff | src/orchestrator/consolidation.ts:111-120 | what the threshold counts: messages of ended sessions none of whose messages has a summary |
| MemoryConsolidation.OpenSessionIff | src/orchestrator/consolidation.ts:126-136 | what a pass works on: ended sessions with a message that has no summary |
| MemoryLinkage.GrowthKeepsUniqueness | src/orchestrator/consolidation.ts:210-239 | whatever a pass did before it was cut off, a message has at most one summary and a summary at most one parent, if that held before |
| MemoryLinkage.InsertKeepsUniqueness | src/orchestrator/consolidation.ts:210-239 | so does every single insert, under the guard the pass issues it with |
| MemoryLinkLaws.CloneUniqueIff | src/orchestrator/profile-manager.ts:322-336 | a clone keeps "one summary per message" exactly when no summary of the source profile covers a message |
| Personality.IdentityManager.ObserveAgentPersonality | src/orchestrator/identity.ts:115-147 | a first observation is stored at 0.8, a later one replaces the content, counts and confirms |
| Personality.IdentityManager.ObserveUserPersonality | src/orchestrator/identity.ts:216-249 | the first confidence depends on the source; later observations replace content and source, count, and confirm |
| Personality.EntryIsHistory | src/orchestrator/identity.ts:24-27 | after any history a dimension holds the last content and source, the number of observations since its deletion, and the closed form min(0.95, 1 - (1 - c) 0.9^n) of its confidence |
| MessageQueues.MessageQueue.DequeueForChat | src/orchestrator/message-queue.ts:149-171 | takes a pending row of the chat that no other pending row of the chat is older than; nothing exactly when there is none |
| MessageQueues.MessageQueue.Enqueue | src/orchestrator/message-queue.ts:104-115 | a new pending row with no attempts under a fresh id |
| MessageQueues.MessageQueue.Acknowledge | src/orchestrator/message-queue.ts:176-183 | the row is completed, whatever its status |
| MessageQueues.MessageQueue.Fail | src/orchestrator/message-queue.ts:189-203 | the row is dead-lettered when its attempts are used up and pending otherwise |
| MessageQueues.MessageQueue.RecoverStuckMessages | src/orchestrator/message-queue.ts:91-98 | no row is in processing afterwards; those that were are pending with their attempts, all others are unchanged |
| MessageQueues.MessageQueue.PurgeCompleted | src/orchestrator/message-queue.ts:266-273 | exactly the old completed rows are deleted, and counted |
| MessageQueues.MessageQueue.RetryDeadLetter | src/orchestrator/message-queue.ts:278-286 | only a dead letter is reset, and the result says so |
| MessageQueues.MessageQueue.PendingChatIds | src/orchestrator/message-queue.ts:245-251 | each chat with a pending row once |
| FlowHelmOrchestrators.FlowHelmOrchestrator.OnNewMessage | src/orchestrator/orchestrator.ts:203-216 | the segment up to the await: both checks, then one dequeue request |
| FlowHelmOrchestrators.FlowHelmOrchestrator.ProcessQueueItem | src/orchestrator/orchestrator.ts:229-243 | the head registers the task and counts it |
| FlowHelmOrchestrators.FlowHelmOrchestrator.Execute | src/orchestrator/orchestrator.ts:242-382 | the try block throws or acknowledges |
| FlowHelmOrchestrators.FlowHelmOrchestrator.HandleTaskFailure | src/orchestrator/orchestrator.ts:437-457 | the catch block fails the row, or gives up when that throws |
| FlowHelmOrchestrators.FlowHelmOrchestrator.FinishTask | src/orchestrator/orchestrator.ts:390-410 | the finally block unregisters and drains the chat |
| FlowHelmOrchestrators.FlowHelmOrchestrator.StartUp | src/orchestrator/orchestrator.ts:113-140 | after a restart no row is in processing and every chat with a pending row has exactly one dequeue under way |
| OrchestratorSteps.StepKeepsInv | src/orchestrator/orchestrator.ts:203-410 | every segment, crash and queue operation, in any order, keeps the invariant |
| OrchestratorRuns.RunningTasksAreExclusive | src/orchestrator/orchestrator.ts:203-410 | over every run: tasks hold pairwise distinct rows in processing, the counter is the number of registered tasks, active entries name a registered task of that chat, no task settles twice |
| OrchestratorRuns.NoRowIsLost | src/orchestrator/message-queue.ts:266-273 | a row that is gone was completed first and purged |
| OrchestratorRuns.AttemptsAreBounded | src/orchestrator/message-queue.ts:189-203 | attempts stay within max(1, max_attempts) plus the crash recoveries since the last reset; a dead letter has used up its attempts |
| OrchestratorRuns.AttemptsWithinIff | src/orchestrator/message-queue.ts:149-203 | the bound by max_attempts itself holds over all runs exactly when max_attempts is at least 1 |
| OrchestratorOrder.OneTaskPerChatIff | src/orchestrator/orchestrator.ts:203-234 | a step keeps "one task or request per chat" exactly when it does not admit a notification of a chat that already has one |
| OrchestratorOrder.OneTaskPerChatFails | src/orchestrator/orchestrator.ts:205-234 | a concrete run with two working tasks of one chat under a container limit of one |
| OrchestratorOrder.ContainerLimitIff | src/orchestrator/orchestrator.ts:207-216 | a step keeps requests and tasks together within the container limit exactly when it does not admit a notification while they use it up |
| OrchestratorOrder.ContainerLimitOverRuns | src/orchestrator/orchestrator.ts:207-216 | over a run that never does so at most that many tasks are registered at any moment |
| OrchestratorOrder.ProcessingStaysHeld | src/orchestrator/orchestrator.ts:437-457 | a row is stuck in processing without a task only after the fail of its task threw, until the next restart |
| OrchestratorOrder.OrderlyStepIff | src/orchestrator/message-queue.ts:149-203 | a step keeps the rows of a chat in order exactly when a fetch finds none of them in processing and no arrival or retried dead letter is older than a row that is finished or in processing |
| OrchestratorOrder.OrderlyRunIff | src/orchestrator/message-queue.ts:149-203 | a run keeps the rows of a chat in order in every state exactly when every step is orderly |
| OrchestratorOrder.NonOverlappingChatsFinishInOrder | src/orchestrator/message-queue.ts:149-171 | a chat whose tasks never overlap finishes its rows in created_at order over every run, crashes included, if no fail throws and no retry or clock step goes back behind a finished row |
| OrchestratorOrder.OvertakenAfterLostRow | src/orchestrator/orchestrator.ts:437-457 | a concrete run without overlapping tasks in which a fail that throws lets a younger row finish before an older one |
| OrchestratorOrder.SerialChatsFinishInOrder | src/orchestrator/orchestrator.ts:203-216 | in particular when its notifications are admitted only while it has neither a task nor a request; then it never has two of either |
| OrchestratorServing.ServedStepIff | src/orchestrator/orchestrator.ts:203-216 | a step leaves a pending row with no task, dequeue or notification of its chat under way exactly when the last one is a notification dropped by the limit or by stopping, a dequeue that throws or a task that ends while stopping, or when a dead letter is retried with none under way |
| OrchestratorServing.PendingIsServedIff | src/orchestrator/orchestrator.ts:386-411 | over a whole run every pending row has one under way in every state exactly when there is no such step |
| OrchestratorServing.OrphanStaysOverRuns | src/orchestrator/orchestrator.ts:203-216 | a row with none under way stays pending until a notification of its chat is admitted |
| OrchestratorServing.PendingRowIsOrphaned | src/orchestrator/orchestrator.ts:207-208 | a concrete run without crash or failure that ends idle with a pending row whose notification the limit dropped |
| RateLimiters.RateLimiter.Check | services/auth-bridge/rate-limit.ts:59-78 | accepts exactly when a limiter with the full history of acceptances would |
| RateLimiters.AcceptsByCount | services/auth-bridge/rate-limit.ts:59-78 | that is: fewer than the maximum of the acceptances so far lie in the window that ends with the call |
| RateLimiters.RateLimiter.CheckGlobal | services/auth-bridge/rate-limit.ts:84-98 | the same for the shared bucket |
| RateLimiters.RateLimiter.Remaining | services/auth-bridge/rate-limit.ts:104-113 | the maximum less the acceptances of the full history in the window |
| RateLimiters.RateLimiter.RetryAfterMs | services/auth-bridge/rate-limit.ts:118-130 | the exact first moment at which a check would succeed; never, for a limit of zero |
| RateLimiters.RateLimiter.PruneAll | services/auth-bridge/rate-limit.ts:133-148 | pruning at any moment changes no later decision |
| RateLimiters.RateLimiter.NeverOverfull | services/auth-bridge/rate-limit.ts:59-148 | after any calls and prunes: no interval as long as the window of a key holds more acceptances of it than its maximum |
| RateLimiters.NoIntervalOverfull | services/auth-bridge/rate-limit.ts:59-78 | spacing of acceptances a window apart bounds every interval, wherever it starts |
| RateLimiters.PruneIsHarmlessIff | services/auth-bridge/rate-limit.ts:133-148 | pruning after an hour is harmless exactly for windows of at most an hour (and for limits of zero) |
| CertCaches.CertCache.Get | src/proxy/cert-cache.ts:53-68 | a live entry is returned and becomes the most recent, an expired one is dropped |
| CertCaches.CertCache.Set | src/proxy/cert-cache.ts:73-88 | the key goes to the end, the first entry is evicted at capacity |
| CertCaches.CertCache.Has | src/proxy/cert-cache.ts:112-121 | answers without refreshing, and drops an expired entry |
| CertCaches.CertCache.GetOrCreate | src/proxy/cert-cache.ts:97-104 | the cached value, or the generated one which is then stored |
| CertCaches.NeverOverfull | src/proxy/cert-cache.ts:73-88 | over every run at most max(1, maxEntries) entries and no key twice |
| CertCaches.OrderIsRecency | src/proxy/cert-cache.ts:53-88 | over every run the list is in the order of last set or get hit |
| CertCaches.ValuesAreLastSet | src/proxy/cert-cache.ts:53-121 | over every run an entry is what the last set of its key stored, with its expiry |
| CertCaches.AnswersUntilExpiry | src/proxy/cert-cache.ts:53-121 | over every run get and has answer exactly while the key is held and the time of its last set plus the time to live has not passed |
| CertCaches.Retained | src/proxy/cert-cache.ts:53-121 | a key touched with fewer than maxEntries other keys touched since, and not asked for after its time, is still held with its value |
| PortRegistries.PortRegistry.Allocate | src/admin/port-registry.ts:117-159 | a new user gets the lowest free slot, and is refused as exhausted exactly when every slot that fits is taken |
| PortRegistries.PortRegistry.FirstFit | src/admin/port-registry.ts:126-134 | the loop over the sorted bases ends on the lowest free slot |
| PortRegistries.PortRegistry.Free | src/admin/port-registry.ts:165-176 | removes the block of the user and nothing else |
| PortRegistries.PortRegistry.DetectConflicts | src/admin/port-registry.ts:199-233 | lists exactly the overlapping pairs and the pairs of one user |
| PortRegistries.ValidHasNoConflict | src/admin/port-registry.ts:117-176 | over every run of allocate and free all blocks are disjoint and no conflict is reported |
| PortRegistries.NamedPortsDistinctIff | src/admin/port-registry.ts:57-63 | the four named ports of different slots never clash exactly when a block has at least four ports |
| LatencyBuffers.CircularBuffer.Push | src/proxy/metrics.ts:22-26 | the buffer holds the last pushed values |
| LatencyBuffers.CircularBuffer.Sorted | src/proxy/metrics.ts:29-32 | the ascending snapshot is, as a multiset, the last min(n, capacity) values |
| LatencyBuffers.CircularBuffer.SnapshotPercentile | src/proxy/metrics.ts:41-45 | percentile p of a snapshot is one of the last values, with at least p percent of them at or below it and fewer below |
| LatencyBuffers.PercentileIsExact | src/proxy/metrics.ts:41-45 | the same for any sorted list and any p with 0 < p <= 100 |
| CommandArgs.ParseCommandArgs | src/channels/channel-server.ts:288-316 | the character loop returns the scan of the command, and never an empty argument |
| CommandArgs.SplitUndoesWriting | src/channels/channel-server.ts:283-316 | arguments written as bare and quoted pieces, kept apart by spaces, split into exactly their texts without the empty ones |
| CommandArgs.SplitOfWriting | src/channels/channel-server.ts:283-316 | with a quote that is never closed everything from there to the end belongs to the last argument |
| CommandArgs.EveryCommandIsWritten | src/channels/channel-server.ts:283-316 | every string is such a writing, so the two laws say what splitting gives for each |
| CommandArgs.RoundTripIff | src/channels/channel-server.ts:283-316 | the round trip is exact exactly when no argument is empty |
| CommandArgs.QuotedListRoundTrip | src/channels/channel-server.ts:283-316 | any list of non-empty arguments, each in a quote it does not contain and joined by one or more spaces, with any spaces around it, is split into that list |

## Left out

- The rules of `penaltyScore`: the eight scores are arbitrary numbers, so the theorems hold whichever mask wins; text rendering and TextEncoder are left out too.
- Versions above 4 and other levels, which the source does not have; generators above degree 256, which would index past the exp table.
- ReedSolomon.PolyMul: requires one of the factors to be nonempty, as the source's `new Array(-1)` would throw.
- SQL text, embeddings, language-model prompts and replies: rows are map entries, neighbours and replies arbitrary.
- IEEE rounding: confidences, latencies and percentiles are exact reals.
- Fresh UUIDs: ids come from a counter that only grows.
- MemoryConsolidation.MemoryConsolidationJob.Run: its contract, like those of the other job methods, is for a database that only the job changes while it runs; what other components write in between is part of the runs of `MemoryRuns`, which are made of single statements.
- External memory, agent identity and personality rows in `cloneProfile` and `deleteProfile`; they have no edges.
- Summary edges whose two ends lie in different profiles (after a chat changes its profile): `cloneProfile` drops them, and the clone theorems speak of edges inside the profile.
- Settings below the bounds of the configuration schema: chunks of no message, condensation thresholds below 1, buffers and port blocks of size 0.
- The key-value table `state`: the time of the last reflection is a field of the job; the time of the last consolidation is not modelled.
- A fact that a model reply types as a summary has no time range; the model gives it the range 0 to 0.
- `expandMemory` for semantic summaries, the level-by-level search of `queryMetaCascade` and the assembly of the agent context: they read only, and the composite score of a search is arbitrary.
- The `dequeue` over all chats, queue statistics and payloads: the orchestrator dequeues by chat only.
- FlowHelmOrchestrators.FlowHelmOrchestrator.Execute: speech-to-text, images, commands, memory context, MCP servers and the agent itself are one call that succeeds or throws; a statement that throws has had no effect.
- The drain timeout of `stop` and a second `start` in the same process.
- RateLimiters.RateLimiter.Check: each key is used with one rule, with a window of at most an hour, as the server does with prefixed keys; `destroy` is left out.
- Two concurrent `getOrCreate` calls for one key: the two segments are the steps get and set, which the runs interleave freely.
- PortRegistries.PortRegistry.Allocate: reading and writing the file is one atomic step that can fail; two processes that write at once are not modelled, nor `allocatedAt`.
- Counters of `ProxyMetrics` other than the latency buffer.
- Everything else in the repository: container runtimes, channels, the TLS proxy, credentials, the setup wizard, service generators and the command line.
