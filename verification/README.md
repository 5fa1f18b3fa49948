# pwatch: a Dafny model of the hit path

pwatch sets hardware breakpoints in another process and shows what happened at each hit. A hit leaves a
perf ring or the LK1337 driver, passes a register filter, waits in a bounded queue, is numbered and
annotated with `module+offset` symbols, and ends up in a buffer of recent hits and in the page that
follows the event stream. This project models that path piece by piece, proves each loop and object
against a functional specification, and proves about those specifications what the pieces are for.

| module | what it models |
|---|---|
| `Prelude`, `Text`, `Bits`, `FileNames` | shared types; characters, trimming and number texts; bits of words; last components of paths |
| `RingBytes`, `PerfRecord`, `PerfRing`, `PerfReader`, `PerfMap` | the perf ring: bytes, record layout, every interleaving with the kernel, the reading code |
| `Registers`, `Tokenizer`, `FilterParser`, `FilterGrammar`, `FilterMeaning`, `FilterText` | register names and the filter language |
| `Watch` | the driver watch: create, poll, give up, remove |
| `MapsLine`, `MapsResolve`, `MapsProtocol`, `MapsCache` | process maps: one line, one list of regions, the threads sharing the cache, the cache object and batches |
| `HitFactory`, `Pipeline` | hits, the sample queue, the worker, the recent-hits buffer |
| `HitPath` | the two joined: one breakpoint's hits and what its watch polled |
| `Registry`, `Blocking` | the breakpoint registry and the limiter of blocking work |
| `MemoryApi` | the hex memory view |
| `Sse`, `SseFrame` | the page's event-stream reader and its list of hits |

Loops and objects that change state in the source (`RingReader`, `PerfMap`, `tokenize`, `Parser`, the
poll loop, `MapsCache`, `HitFactory`, `AppState`, the registry, the limiter, the page) are methods and classes here. Code shared by several threads also has a transition system,
and its main results quantify over all runs; the methods of `AppState`,
`Registry` and `Limiter` are proved to take the steps of theirs, those of `PerfMap` to keep its invariant.

## What the proofs found

- The LOST branch of the perf consumer logs the record's first payload word, which the layout names
  `id` (`PerfMap.PerfMap.HandleNext`); the number of lost events is the second word.
  `PerfRecord.LostLogsFirstWord` says exactly when the two agree, `PerfRecord.LostLogCanBeWrong` gives a
  record for which they do not.
- A displayed symbol `module+0xoffset` leads back to its address exactly when the label has no `+` and
  the first region answering to the trimmed label starts where the address's own region starts
  (`MapsResolve.SymbolRoundTripIff`). Later mappings of one file fail this (`MapsLine.LaterSegmentDiffers`).
- `loaded_at` of a cached map list goes back in time exactly when a forced call whose `now` is before it
  stores (`MapsProtocol.LoadedAtGoesBackIff`); two forced calls that overlap do it
  (`MapsProtocol.LoadedAtMayGoBack`). Freshness holds anyway, because the read behind an entry never
  precedes its `loaded_at`.
- A path in a maps line survives parsing exactly when it is not empty, neither begins nor ends with white
  space, and holds no white space but single spaces (`MapsLine.PathKeptIff`); "/tmp/a  b" is read as
  "/tmp/a b" (`MapsLine.DoubleSpaceLost`).
- A batch resolution is the direct one except exactly when both lookups fail and some address had
  something to resolve to (`MapsCache.BatchIsDirectIff`, `MapsCache.BatchMayMissAll`).
- A frame survives the event stream exactly when it has no blank line inside and does not end in a line
  break (`Sse.FirstFrameIff`); one that does hands the break on to the next (`Sse.TrailingBreakMoves`).

## Assumptions

- Counters do not wrap: ring head and tail, ids, sequence numbers.
- Each read of `data_head` and each write of `data_tail` is one atomic step; words are little-endian;
  the ring starts with head and tail at zero. Fetching one byte of a record is a step of its own.
- The kernel writes well-formed records (`PerfRecord.WellFormed`): sizes fit the 16-bit field and agree
  with the payload, and a sample with a register ABI holds one value per sampled register.
- The maps cache runs on a monotonic clock, and a call's `now` is not in the future. Reading a pid's maps
  file yields that pid's maps.
- No lock is poisoned, the worker thread starts and outlives every sender, and `on_hit` does not panic.
- Time, file contents and driver answers are parameters or arbitrary answers of the environment.

## Model

| member | source | states |
|---|---|---|
| RingBytes.SlotIsMod | src/perf.rs:236-238 | the slot a logical offset maps to is its remainder modulo the ring size |
| RingBytes.WriteBeyondWindow | src/perf.rs:233-241 | a byte written less than one lap ahead of a window's start and past its end leaves the window's bytes alone |
| PerfRecord.DecodeInvertsEncode | src/perf.rs:113-191 | for every configuration and well-formed record, decoding the bytes the reader takes from its encoding yields the record's sample (none for LOST, unknown and no-ABI records), and the size it reads is the encoding's length |
| PerfRecord.HeaderBytes | src/perf.rs:122-131 | a record opens with the four bytes 9 0 0 0 for a sample, 2 0 0 0 for LOST and others for the rest, and its bytes 6 and 7 give its length, low byte first |
| PerfRecord.DemandOfPrefix | src/perf.rs:152-191 | holding any prefix of a record the reader asks for more of that record until its fields are all read, never for a byte past them |
| PerfRecord.ReaderConsumesSize | src/perf.rs:152-191 | the fields read end at `header.size` exactly when nothing trails them |
| PerfRecord.LostLogsFirstWord | src/perf.rs:131-134 | the word the LOST branch takes is the lost count exactly when the record's id equals its count |
| PerfRecord.LostLogCanBeWrong | src/perf.rs:131-134 | for some LOST record that word is not its count |
| PerfRing.UnreadBytesKept | src/perf.rs:113-142 | no kernel step within the free space changes a byte not yet consumed |
| PerfRing.StepKeepsInv | src/perf.rs:104-150 | every step keeps the ring consistent: tail, read position and head in order and within one lap, unread bytes equal to the pending records, samples handed on equal to those of the records consumed |
| PerfRing.FinishTakesNext | src/perf.rs:122-142 | a record completed byte by byte during interference decodes to the oldest pending record and advances by its length, so skipped records never shift later framing |
| PerfRing.RingIsFifo | src/perf.rs:104-150 | in every interleaving the samples handled are those of a prefix of the published records in order, and of all of them once head equals the read position |
| PerfRing.StepRefinesFifo | src/perf.rs:104-150 | every step of the byte ring is a step of an unbounded record queue, or leaves it alone |
| PerfRing.ReaderNeverStuck | src/perf.rs:111-149 | in every reachable state the consumer has a step to take |
| PerfRing.ReaderDrains | src/perf.rs:111-149 | left alone, the consumer delivers every published record's sample across any number of 128-record batches |
| PerfReader.RingReader.ReadArray | src/perf.rs:233-241 | the bytes fetched are those at the next logical offsets, wrapping or not, and the offset moves by their number |
| PerfReader.RingReader.ReadU64 | src/perf.rs:229-231 | the little-endian word at the current offset, eight bytes on, earlier bytes still as read |
| PerfReader.RingReader.ReadHeader | src/perf.rs:213-219 | type, misc and size are the words at offsets 0, 4 and 6 of what was read |
| PerfReader.RingReader.ReadRegs | src/perf.rs:177-180 | the register vector filled in place holds the next words of the ring in order |
| PerfReader.ReadSampleFrom | src/perf.rs:152-191 | reads exactly the bytes the record demands and returns the sample decoded from them |
| PerfMap.PerfMap.ReadNext | src/perf.rs:116-137 | reading at the read position gives the oldest pending record's sample, if it has one, what its LOST branch logs, and its size: moving on by it leaves the ring consistent |
| PerfMap.CompleteIsNext | src/perf.rs:113-142 | complete bytes at the front of the ring are exactly the fields of the oldest pending record |
| PerfMap.PerfMap.HandleNext | src/perf.rs:113-142 | consumes exactly the oldest pending record, hands on its sample if it has one, logs a LOST record's id, and gives its space back |
| PerfMap.PerfMap.HandleReadiness | src/perf.rs:110-149 | while the kernel publishes between records, consumes the oldest ones, 128 at most and all there are if fewer, and all samples handled stay those of the consumed records in order |
| PerfMap.PerfMap.Publish | src/perf.rs:113-142 | the kernel's side of the ring: a record goes in exactly when its bytes fit the free space, and the ring stays consistent with it pending last |
| Registers.FindReg | src/filter.rs:184-188 | the first register index with that name in any letter case, or none when no index has it |
| Registers.NameFindsReg | src/arch/aarch64.rs:3-40 | every register is found by its own name in any case and by no other's, on both architectures |
| Registers.NumberedNames | src/arch/aarch64.rs:3-40 | x0 to x28 and r8 to r15 stand in the order of their numbers |
| Registers.RegsCountIsOnes | src/arch/mod.rs:13-15 | the number of sampled registers is the number of ones in the sampling mask, on both architectures |
| Tokenizer.Tokenize | src/filter.rs:141-182 | the loop computes the token list or the first character that no token can hold |
| Tokenizer.TokenizeIff | src/filter.rs:141-182 | a list is the reading of a text exactly when the text lays out those tokens with blanks, empty only where two tokens would not merge |
| Tokenizer.OperatorsAre | src/filter.rs:147-168 | the operator tokens are exactly the twelve: each of = ! > < alone or with =, and single and double ampersand and bar |
| Text.WhitespaceIff | src/filter.rs:146-146 | white space is the twenty-five characters with Unicode's White_Space property and no other |
| Registers.WordCharIff | src/filter.rs:165-165 | a word character is an underscore, a decimal digit or a letter of the alphabet in either case |
| Tokenizer.TokenizeComplete | src/filter.rs:141-182 | any such layout is read back as its tokens, so operators and words are taken as long as possible |
| Tokenizer.TokenizeFailsIff | src/filter.rs:176-178 | tokenizing succeeds exactly when every character is blank, an operator character or a word character |
| Tokenizer.TokenizeConserves | src/filter.rs:141-182 | the tokens joined are the input without its white space, each a word or an operator |
| Tokenizer.SpacedRoundTrip | src/filter.rs:141-182 | tokens written with single spaces come back unchanged |
| Tokenizer.TokenizeIdempotent | src/filter.rs:141-182 | re-reading the tokens joined by single spaces gives the same list |
| FilterParser.Parser.Consume | src/filter.rs:117-128 | takes the token at the cursor exactly when it is the expected one in any case, and moves only then |
| FilterParser.Parser.ConsumeAny | src/filter.rs:130-132 | takes one token exactly when it is one of those expected |
| FilterParser.Parser.ParsePredicate | src/filter.rs:86-115 | result, error and final cursor agree with the grammar's predicate at the cursor |
| FilterParser.Parser.ParseAndGroup | src/filter.rs:78-84 | result, error and final cursor agree with the grammar's group at the cursor |
| FilterParser.Parser.ParseFilter | src/filter.rs:70-76 | result, error and final cursor agree with the grammar's list of groups at the cursor |
| FilterParser.ParseFilterText | src/filter.rs:29-41 | parsing a text gives its groups or the error, empty and trailing-token cases included |
| FilterGrammar.DerivationParses | src/filter.rs:70-115 | every derivation of the grammar parses, to its meaning |
| FilterGrammar.ParseHasDerivation | src/filter.rs:70-115 | whatever parses has a derivation with that meaning |
| FilterGrammar.ParseIffDerives | src/filter.rs:29-115 | a token list parses to given groups exactly when it has a derivation meaning them |
| FilterMeaning.DisjUnique | src/filter.rs:70-139 | a token list has at most one derivation |
| FilterMeaning.MatchesIsTruth | src/filter.rs:44-61 | a parsed filter matches a sample exactly when its text is true of it: split at `or` first and at `and` next, registers looked up by name, masks taken bit by bit, numbers and relations read off the text |
| FilterMeaning.NumberIff | src/filter.rs:202-211 | a value or mask token parses to a number exactly when it is that number in decimal, or in hexadecimal after 0x or 0X, by place value, perhaps after a plus sign |
| FilterMeaning.DecimalParses | src/filter.rs:209-209 | every 64-bit number written in decimal parses to itself |
| Bits.BitAndIff | src/filter.rs:50-50 | masking gives the one word whose bits are those set in both register and mask |
| Text.FromStrRadixIff | src/filter.rs:202-211 | a text reads as a number in a base exactly when it is digits of that base, by place value, perhaps after a plus sign |
| Text.DigitOfIff | src/filter.rs:202-211 | a digit's value is its place among 0 to 9 and a to f, in either case |
| FilterText.FilterRoundTrip | src/filter.rs:29-41 | printing non-empty groups over existing registers and parsing the text returns the same groups |
| FilterText.ParsedIsPrintable | src/filter.rs:29-41 | every parsed filter has non-empty groups over existing registers, and printing it re-parses to it |
| FilterText.SpellingInvariance | src/filter.rs:117-132 | exchanging letter case, and/&&, or/&#124;&#124;, =/== in any tokens changes neither acceptance nor groups |
| FilterText.TextSpellingInvariance | src/filter.rs:184-211 | the same for whole texts, whatever their spacing |
| FilterText.UpperCaseInvariance | src/filter.rs:117-132 | a filter in capitals is accepted or refused alike and parses to the same groups |
| Watch.CreateAll | src/watch.rs:49-57 | one create per thread in order; the breakpoints are the ids answered |
| Watch.PollRound | src/watch.rs:64-93 | polls each breakpoint once in order, counts failures so that all-failed is seen exactly, and delivers what the filter lets through in order |
| Watch.PollLoop | src/watch.rs:61-102 | the rounds polled, the samples delivered, and giving up exactly when the trailing run of all-failing rounds reaches ten, at no earlier round |
| Watch.DriverWatch | src/watch.rs:38-107 | the whole log for every pattern of answers and cancellation: creates, full poll rounds, then removes; the two start-up errors exactly when no thread exists or no create succeeded |
| Watch.SampleShowsHit | src/watch.rs:68-80 | a sample has the hit's process and thread, under x0 to x28, fp, lr, sp and pc the values the driver's snapshot has for them, and its vector registers |
| Watch.SampleShowsFrames | src/watch.rs:72-73 | the sample's frames are the hit's first ones, as many as counted but 32 at most, and none at all for a count of zero |
| Watch.StreakIsTrailing | src/watch.rs:94-101 | the failure counter is at least k exactly when each of the last k rounds failed for every breakpoint |
| Watch.GivesUpOnTheTenth | src/watch.rs:94-101 | when the watch gives up, the last ten rounds all failed and the one before them did not |
| Watch.CreatedIdsAreAnswers | src/watch.rs:49-57 | an id is a breakpoint of the watch as often as a create answered it |
| Watch.LifecycleOfBreakpoints | src/watch.rs:49-107 | only created ids are polled, none is removed before the polling ends, and each is removed as often as it was created |
| Watch.SampleHasFilterRegs | src/watch.rs:68-84 | a driver sample holds a value for every register a parsed aarch64 filter names, and passes exactly when the filter's text is true of it |
| Watch.DeliveredByText | src/watch.rs:81-83 | the samples kept are, in order, those whose registers make the filter text true |
| MapsLine.MapsLineRoundTrip | src/maps.rs:265-296 | every line the kernel writes for a mapping is read as that mapping, the path's words joined by single spaces |
| MapsLine.PathKeptIff | src/maps.rs:271-276 | the path comes back unchanged exactly when it is not empty, has no white space at an end, and inside none but single spaces |
| MapsLine.DoubleSpaceLost | src/maps.rs:271-276 | a file "/tmp/a  b" is read as "/tmp/a b" |
| MapsLine.LaterSegmentDiffers | src/maps.rs:114-136 | two mappings of one file, read from their lines: an address in the second is displayed by a symbol that resolves to another address |
| MapsResolve.SymbolRoundTripIff | src/maps.rs:96-136 | resolving an address's display returns the address exactly when the label has no '+', is not blank, and the first region it names starts where the address's region does |
| MapsResolve.SymbolRoundTrip | src/maps.rs:96-136 | in particular when the address's region is the first to match its own label |
| MapsResolve.SecondSegmentDiffers | src/maps.rs:114-136 | of two regions with one path and different starts, no address of the second resolves back from its display |
| MapsResolve.DisplayParses | src/maps.rs:298-325 | a displayed symbol is never taken for a number, and splits into label and offset, for every 64-bit offset, exactly when the label has no '+' and is not blank |
| FileNames.FileNameIff | src/maps.rs:126-129 | a path has a file name exactly when it ends in that name, after a slash or alone, with only slashes and lone dots behind it; "." and ".." are none |
| MapsResolve.ModuleMatchesIff | src/maps.rs:119-130 | a region answers to a name exactly when its path is the name, ends in a slash and the name, or has it as file name, ignoring case |
| MapsResolve.OtherNameRefused | src/maps.rs:119-130 | a path with another last piece does not answer to a name without a slash |
| MapsResolve.NameResolves | src/maps.rs:114-136 | name+offset resolves from the start of the first region answering to the name, and to an overflow error exactly when the sum leaves 64 bits |
| MapsResolve.UnknownNameRefused | src/maps.rs:131-131 | with no region answering the module is reported missing |
| MapsResolve.NumberResolves | src/maps.rs:101-103 | every 64-bit number in hexadecimal, with or without prefix, resolves to itself whatever is mapped |
| MapsResolve.NumericIff | src/maps.rs:311-325 | which texts are numeric addresses, and of what value |
| MapsResolve.ModuleOffsetIs | src/maps.rs:298-309 | an expression is cut at its first plus sign and both parts trimmed; which of no plus sign, no name or no offset is reported |
| MapsResolve.ResolveOneIff | src/maps.rs:223-237 | an address resolves exactly when some region holds it, start included and end not, to the first such region, its label and an offset that reads back as the distance from its start |
| MapsResolve.ModuleLabelIff | src/maps.rs:239-252 | the label is the file name, or the whole path when it has none, or the region's bounds |
| MapsResolve.LabelMatchesOwn | src/maps.rs:239-252 | a named region answers to its own label |
| MapsProtocol.StepKeepsInv | src/maps.rs:159-210 | every step of every thread keeps: an entry's read is at or after its `loaded_at`, and of the entry's pid |
| MapsProtocol.Freshness | src/maps.rs:159-210 | in every interleaving a successful call returns its own pid's maps, read later than `now` minus one second, and at or after `now` when forced; the empty default is never returned |
| MapsProtocol.CacheHitIff | src/maps.rs:165-182 | a call is answered from the cache without a read exactly when it is not forced and its pid's entry is less than a second old |
| MapsProtocol.StoreIff | src/maps.rs:184-209 | a read is discarded exactly when such an entry has appeared meanwhile; the call answers what the cache then holds |
| MapsProtocol.LoadedAtGoesBackIff | src/maps.rs:188-201 | a step sets an entry's `loaded_at` back exactly when it is the store of a forced call with an older `now` |
| MapsProtocol.LoadedAtMayGoBack | src/maps.rs:188-201 | for any two times a run of two overlapping forced calls ends with the older one set over the newer |
| MapsProtocol.AgreeingReads | src/maps.rs:159-210 | if all reads of a pid return one list, so does every successful call in every interleaving |
| MapsCache.ResolvedByContainingRegion | src/maps.rs:73-94 | every resolution in a batch comes from a region of one of the lookups that contains that very address |
| MapsCache.BatchIsDirectIff | src/maps.rs:73-94 | with agreeing lookups the batch equals direct resolution unless both lookups failed and something would have resolved |
| MapsCache.BatchOverRun | src/maps.rs:73-94 | in any run whose reads of a pid agree, a batch from two finished calls is the direct one unless neither was answered and something would have resolved |
| MapsCache.BatchMayMissAll | src/maps.rs:73-94 | with neither lookup answered, an address inside a mapped region stays unresolved |
| MapsCache.ResolvedFromFreshMaps | src/maps.rs:73-94 | what a batch resolves comes from a region that contains the address, in maps of the batch's pid read later than a second before its `now` |
| MapsCache.BatchIsFreshOverRun | src/maps.rs:73-94 | the same in every interleaving, for a batch from two finished calls of one pid and one `now` |
| MapsCache.BatchIsFresh | src/maps.rs:73-94 | in the cache object both lookups of a batch are as fresh as calls of that pid and time must be |
| MapsCache.CallIsItsSteps | src/maps.rs:159-210 | the one-thread call is the protocol's check, read and store taken in a row |
| MapsCache.AloneIsBatchOfOne | src/maps.rs:65-71 | resolving one address alone gives the region a batch of that address gives |
| MapsCache.PatchUnresolved | src/maps.rs:85-91 | the in-place patch changes the unresolved positions only, each to its own address's resolution |
| MapsCache.MapsCache.RegionsWith | src/maps.rs:159-210 | one thread's call leaves the cache and answers as its two critical sections do in sequence, with maps of the pid asked for as fresh as the call demands, and never defaults |
| MapsCache.MapsCache.ResolveManyAddresses | src/maps.rs:73-94 | resolutions from the first lookup and, only if something is unresolved, the forced one, both fresh and of the pid asked for; the cache both leave |
| MapsCache.MapsCache.Resolve | src/maps.rs:65-71 | the region of the first lookup or else of the forced one, made only if needed |
| HitFactory.AddressTextReadsBack | src/hit.rs:63-63 | the printed value of a register parses back to it |
| HitFactory.DisplayIsShown | src/hit.rs:132-137 | what a reader sees of a value reads back as it, followed by its symbol in brackets exactly when it resolved |
| HitFactory.RegistersAreAligned | src/hit.rs:57-72 | each register of a hit has its own name and value and, if a resolution, one from a region containing that value in maps of the pid read later than a second before the lookup |
| HitFactory.FramesAreAligned | src/hit.rs:88-105 | the same for each backtrace frame |
| HitFactory.SimdIsAligned | src/hit.rs:77-87 | each vector register i shows as rows 2i and 2i+1, low half first, with its own number and values |
| HitFactory.HitFactory.MakeHitWithMaps | src/hit.rs:45-118 | the hit carries the next sequence number, one up from the last, and the time it was made |
| Pipeline.AppState.Offer | src/server.rs:243-253 | a sample joins the queue exactly when it holds fewer than 4096, and is counted as dropped otherwise: the Offer step of the system below |
| Pipeline.AppState.PushHit | src/server.rs:523-533 | the buffer becomes the last `limit` of old buffer and new hit, zero included |
| Pipeline.AppState.GetHits | src/server.rs:341-346 | the last `limit` buffered hits, 100 by default, in their order |
| Pipeline.AppState.Annotate | src/server.rs:544-559 | registers, then frames, are resolved in the sample's own pid's maps, the second batch seeing the cache the first left; the hit takes the next number |
| Pipeline.AppState.WorkOne | src/server.rs:543-562 | a turn of the worker is the Receive, Make and Push steps of the system below on the oldest sample |
| Pipeline.StepKeepsInv | src/server.rs:522-575 | every step of senders and worker keeps the accounting below |
| Pipeline.SamplesConserved | src/server.rs:243-253 | in every run offered = pushed + in the worker's hands + queued + dropped, the queue never above 4096 |
| Pipeline.HitsInOrder | src/server.rs:536-562 | hits are numbered 1, 2, 3 and show the accepted samples in order: register, vector and frame values, each resolution from the sample's own pid's maps, read later than a second before its lookup |
| Pipeline.RecentHitsAreLast | src/server.rs:341-346 | the buffer is the last `limit` hits of the whole run, and a query gets the last of them all in ascending sequence |
| HitPath.HitsOfOneBreakpoint | src/watch.rs:66-84 | in every run of queue and worker, whatever other watches offer: what one watch hands on is, in order, what its filter text wants of the samples polled, and the breakpoint's hits show the accepted of these in order |
| HitPath.KeptIsWanted | src/watch.rs:81-83 | a watch keeps everything without a filter, and with one what the text wants |
| Registry.ListingUnique | src/server.rs:283-291 | there is only one ascending listing of the live entries, whatever order the map yields |
| Registry.Registry.AllocateId | src/server.rs:223-226 | the Allocate step: a new id that no live or starting entry has |
| Registry.Registry.StartFailed | src/server.rs:243-254 | the StartFails step: a create whose watch did not start leaves no entry and spends its id |
| Registry.Registry.Insert | src/server.rs:268-279 | the InsertView step: the entry is stored under its own id, which had none, the others kept |
| Registry.Registry.Delete | src/server.rs:310-311 | the DeleteId step: that id and no other is gone, and the answer is what it held |
| Registry.Registry.List | src/server.rs:284-291 | exactly the live entries in strictly increasing id order, no deleted or failed id among them |
| Registry.StepKeepsInv | src/server.rs:223-335 | every id handed out is starting, live, failed or deleted, and only one of these |
| Registry.IdsNeverReused | src/server.rs:223-280 | over every run ids ascend without repetition, and each entry is keyed by its own id, one that was handed out |
| Registry.DeletedStaysDeleted | src/server.rs:306-335 | a deleted id, or one whose create failed, is in no later listing |
| Registry.GoneForGood | src/server.rs:306-335 | after a delete of a live id, or a failed start, no later listing of any run holds that id |
| Blocking.Limiter.Admit | src/blocking.rs:23-29 | admits exactly when fewer than eight jobs are unfinished, takes a permit only then, and tells a refused caller so |
| Blocking.Limiter.Detach | src/blocking.rs:30-36 | a timed-out caller leaves with the job and its permit unchanged |
| Blocking.Limiter.Abandon | src/blocking.rs:18-38 | a caller that goes away without a reply leaves the job and its permit unchanged |
| Blocking.Limiter.Release | src/blocking.rs:26-32 | a job that ends gives its one permit back; a waiting caller is told whether it finished or panicked, any other caller nothing |
| Blocking.StepKeepsInv | src/blocking.rs:18-38 | arrivals, timeouts, dropped callers, ends and panics all keep the accounting below |
| Blocking.PermitsConserved | src/blocking.rs:18-38 | in every interleaving, dropped callers included, free permits + unfinished jobs = 8, every admitted job is unfinished or gave back exactly one permit, and of the unfinished exactly the timed-out have a reply |
| Blocking.RefusedIffFull | src/blocking.rs:23-25 | a request is refused exactly when eight jobs are unfinished, timed-out and abandoned ones included |
| MemoryApi.ValidateIff | src/memory_api.rs:66-85 | a request passes with an address exactly when pid and size are in range, its text is white space, perhaps a prefix, 1 to 16 hex digits of that value and white space, and the range ends by 2^64 |
| MemoryApi.ValidateErrors | src/memory_api.rs:66-85 | which of pid, size, address and range a refused request is told, in that order |
| MemoryApi.AddressTextParses | src/memory_api.rs:66-85 | a printed address passes validation as itself whenever the range fits |
| MemoryApi.DecodeHexIff | src/memory_api.rs:87-111 | a text decodes to given bytes exactly when, blanks aside and in either case, it is their hex pairs, for 1 to 4096 bytes |
| MemoryApi.BlankAnywhere | src/memory_api.rs:88-96 | a blank, tab, line feed, form feed or carriage return may stand anywhere, and any other character that is no digit refuses the text |
| MemoryApi.HexViewRoundTrip | src/memory_api.rs:87-135 | the hex columns of all rows joined by spaces decode to the data |
| MemoryApi.RowsTile | src/memory_api.rs:114-135 | row i starts 16i bytes in, shows those bytes and no others, and its address stays below 2^64 |
| MemoryApi.ResponseShowsData | src/memory_api.rs:113-146 | pid, address and size as asked; each row, column by column, has its address, two digits and a space per byte, and each byte as a character where it prints |
| MemoryApi.NextAddressIff | src/memory_api.rs:140-142 | there is no next address exactly when the page ends at 2^64 |
| MemoryApi.WalkReadsMemory | src/memory_api.rs:66-146 | paging by next addresses reads the memory with no gap or overlap, and completes exactly when the range fits below 2^64 |
| Sse.SplitResumes | pwatch-ui/app.js:272-282 | splitting what came and then the leftover with the next chunk is splitting it all at once |
| Sse.SplitConserves | pwatch-ui/app.js:274-282 | frames, delimiters and leftover put together are the text |
| Sse.NoDelimiterLeft | pwatch-ui/app.js:274-282 | neither leftover nor any frame holds a delimiter |
| Sse.FirstFrameIff | pwatch-ui/app.js:274-282 | a sent frame is split off as it was exactly when it has no blank line inside and no line break at its end |
| Sse.TrailingBreakMoves | pwatch-ui/app.js:274-282 | a frame "a" and line break, then "b", is split into "a" and line break "b" |
| Sse.FramesRoundTrip | pwatch-ui/app.js:274-282 | frames free of blank lines, each closed by one, split back into exactly those frames with nothing left |
| SseFrame.Page.Receive | pwatch-ui/app.js:272-282 | a chunk hands on the frames of leftover plus chunk split leftmost-first, keeps the new leftover, and appends the hits of those frames |
| SseFrame.Page.Follow | pwatch-ui/app.js:264-283 | for every way of cutting the stream up, with loads and clears in between, the frames handled and the leftover are those of the whole text, and if frames were sent, exactly those; the list is the tail, as long as the limits leave room for, of what was last loaded and the hits since |
| SseFrame.FrameRoundTrip | pwatch-ui/app.js:292-302 | an event the server sends is read back with its name and data |
| SseFrame.LinesOfBroken | pwatch-ui/app.js:293-293 | line feeds, alone or after a carriage return, part a frame into its lines |
| SseFrame.EventOfFrame | pwatch-ui/app.js:294-297 | any frame is named by its first event line, trimmed, and is a message when there is none or it is blank |
| SseFrame.DataOfLine | pwatch-ui/app.js:298-301 | each data line, wherever it stands, gives its text without the white space before it, and no other line any |
| SseFrame.JoinedDataPartsAgain | pwatch-ui/app.js:298-302 | the data lines are joined so that they can be told apart again |
| SseFrame.CommentIsSilent | pwatch-ui/app.js:292-308 | a comment line such as a keep-alive is framed like an event and appends nothing |
| SseFrame.HitsArrive | pwatch-ui/app.js:264-308 | a stream of sent events and comments splits into frames that yield the data of exactly the hit events, in order, with nothing left over |
| SseFrame.Page.AppendHit | pwatch-ui/app.js:310-317 | the list becomes the last `limit` of old list and new hit, empty for a limit of zero or less |
| SseFrame.SteadyLimit | pwatch-ui/app.js:310-317 | under a limit that stays, a starting list within it becomes the last `limit` of that list and the hits delivered |
| SseFrame.LoadedThenFollowed | pwatch-ui/app.js:144-148 | a list loaded as the last `limit` of the server's hits and then followed is the last `limit` of those and the stream's |
| SseFrame.PageShowsLatest | pwatch-ui/app.js:264-317 | a page that starts with any list within its limit shows the last `limit` of that list and the hits sent among events and comments, whatever the network did to the stream |

## Left out

- FilterParser.ParseFilterText: errors are values of a datatype; their message texts are not modelled.
- FilterText.SpellingInvariance: which error a refused filter reports may name a different token or spelling.
- MapsResolve: file names are sequences of characters; paths that are not UTF-8 cannot occur in a `String`.
- MapsResolve.SymbolRoundTripIff: the region that `resolve_expression` looks up afterwards is not part of the result.
- MapsCache.MapsCache.RegionsWith: one thread at a time, its file read a parameter; interleavings are in `MapsProtocol`.
- MapsProtocol.AgreeingReads: `read_maps` is a parameter; its per-line parser is `MapsLine.ParseMapsLine`.
- Watch.PollLoop: cancellation is given as the number of rounds that start before the flag is seen set; the 10 ms sleep and `stop`'s detaching of tasks are not modelled.
- Watch: `parse_len`, `parse_watchpoint_type`, `parse_addr` and the choice of length and flags are flat case analyses.
- Watch: on x86_64 the filter theorems hold as well, but the driver's samples have the aarch64 shape.
- Pipeline: the broadcast channel behind `stream_hits`, and its lag, is not modelled.
- Pipeline, Registry: the busy (503) and poisoned-lock (500) replies of `try_lock` change no state and are not modelled.
- PerfMap.PerfMap.Publish: here the kernel writes between records only; writes while a record is being read are in `PerfRing`.
- Pipeline.AppState.WorkOne: a turn of the worker is one call; samples offered in the middle of it are in the transition system of the same module.
- Registry: what a create does between allocating its id and inserting its entry is one arbitrary delay that may fail; a listed breakpoint may have no live poller, and hits may follow a delete.
- Blocking: the three-second clock; a timeout, or the caller's end, may happen at any moment while the job runs.
- MemoryApi: the driver's reads and writes and the write request's reply.
- SseFrame: a hit that falls between loading the list and opening the stream, or reaches the page by both, is not accounted for; the browser's own `EventSource`, which the page tries first, is not modelled.
- SseFrame: `JSON.parse` of the data, rendering, fractional or non-numeric limits, and the framework's own code that writes an event; the frames it sends are stated as `FrameOf`.
- SseFrame.Page.Receive: a chunk is text; the streaming `TextDecoder` that makes it from bytes, across chunks that cut a character, is not modelled.
- Reading `/proc` for processes, routing, CORS, logging, the command line, and the ioctls and ABI of src/lk1337.rs.
- Memory ordering on the mapped ring page and the wake-ups of the async runtime.
