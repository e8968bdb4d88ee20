# Verified models of the compile cache, the job-slot pool and the relocation tools

This project models, in Dafny, the parts of the repository whose correctness everything else leans on,
and proves what they promise:

- **jigd's pack store** (`PackFormat`, `PackStore`, `PackSteps`, `StoreRuns`, `StoreHistory`, `StoreOpen`,
  `StoreLives`, `StoreRestart`, `StoreResurfaces`, `Demotion`, `StoreDaemon`, `PackNames`): an append-only
  log of packs in tiers, with an in-memory index, hint files, rotation, a demoter that copies packs
  without the lock, eviction and recovery after a crash. `StoreRuns` is the step system, one event per
  critical section or unlocked step; `TieredStore` is the object. Its `Lookup` and `Insert` perform one
  event each, `Close` two, `MoveDown` and `Demote` whole runs of them, `Open` the loading of all packs.
- **Host-wide admission** (`Slots`, `Admission`, `Host`): the token pool, the connections that hold its
  tokens, and the brokers that re-export slots as tokens of a semaphore, split at every single
  semaphore operation.
- **The two-key compile cache** (`HashFields`, `Manifest`, `CompileCache`, `Wire`, `StoreNames`,
  `MaskCoverage`): the hasher's field encoding, manifests, lookups and stores over whole runs, the client's
  end of the socket, and the masking of store paths.
- **In-place binary surgery and loading** (`BinaryImage`, `ElfFixup`, `ElfReadBack`, `ElfVersions`,
  `ElfSearch`, `MachOFixup`, `CodeSign`, `Loader`).
- `Sums`, `Bytes`, `Texts`, `Decimal`, `Options` are shared foundations.

`dafny verify dfyconfig.toml` checks everything. No lemma needs automatic induction: with
`--manual-lemma-induction` the same proofs are checked without it.

## What is assumed

- **Pack store.** Operations on files succeed or the daemon stops. After a crash every pack and hint file
  is some prefix of what was written (the active pack possibly with part of one more record), names may
  be gone, but the name of the newest pack is still there. A restart finds only ids below a million
  (what happens otherwise is below). Clocks and mtimes are arbitrary arguments, and
  so is the order in which seal walks the index. Pack ids are unbounded; the source counts them in 32
  bits.
- **Admission.** Clients send DONE only for a token no compiler runs under, the compilers of a client
  that hangs up run no longer, the daemon does not hang up a connection that a live client or broker still
  owns, and a broker's destructor starts when ghc holds nothing. The semaphore may be created with any
  number of tokens; the exact equality is stated for one created empty.
- **Compile cache.** Store files are identified by path. The hash is injective and its text has no tab
  or newline, store paths never change, appear or vanish, the environment does not change while one
  compile and its manifest are made, and a path and its key name the same file unless the key masks a
  random cmake name; no recorded path carries one. The compiler is deterministic: what it has seen decides
  what it looks at next. It reports everything it read and everything it missed, and may report more. What
  it writes is outside the modelled environment. Requests are in the normal form the request key hashes. The
  daemon answers a get with anything ever put under that key or with a miss, which is what `NothingInvented`
  proves of the store.
- **Binary surgery.** Directory listings and new spellings are arguments, SHA-256 is any function to 32
  bytes, and the well-formedness predicates (`SaneImage`, `WellFormed`, `Sane`) say what a layout must
  satisfy for reading back. The page size is a power of two, so that masking rounds down.

## Where the code does not do what one would expect

- A pack file's name is read back with six digits. Once a pack has reached a million, a restart skips it:
  `FreshAboveIff` proves that opening gives a free name above all others exactly if no id on disk has
  reached a million, and `MillionthPackBlocksOpen` gives a disk on which opening fails.
- A manifest line of an input whose key starts with `!` reads as an absent path, so nothing watches that
  input. `ChangedInputIff` says of every input that has changed whether its manifest still validates to its
  own key: exactly if the key starts with `!`, no newline tears the line, and what the line then names does
  not exist. `BangReplaysStale` gives a stale hit for each of them. `CacheSound` holds of every run whose `!`
  inputs, as far as they get a line, are store paths, which never change, or have a line torn by a newline,
  which leads to no hit (`Watched`).
- In an unchanged environment a manifest validates to its own key exactly if its paths are spelled as
  `RoundTripIff` says. A store path that is not its own normal form never is, in whatever environment
  (`UnnormalisedNeverHits`).
- The documentation of `MaskHashes` promises every occurrence. The scan goes on one character behind the
  prefix it has looked at, so it misses a prefix that starts within that one, sharing its slash, or
  right behind it. `SurvivesIff` says of every hash whether it stays, by the prefixes looked at, and
  `SkippedNear` that for an absolute store directory this is the only reason. `MissedInNixStore` gives
  both shapes in `/nix/store`, `AllMaskedIff` says when every hash is masked, and `SparseMasksAll` that
  it is wherever no prefix starts within another or right behind it.
- The stub that maps the loader clears the rest of the last file page of a bss only in writable segments:
  `BssZeroIff` says exactly when the bss is all zero, and `ReadOnlyBssShowsFile` gives a segment where it
  is not.
- FixRunpath takes a library's directory off the RUNPATH because the library is then opened by its path, and
  leaves libc's alone; but a package's own directories are never put on the RUNPATH. `FoundAgainIff`: a library
  the RUNPATH and the own directories provide is found in the same directory afterwards exactly if that
  directory is not libc's or stays on the RUNPATH. `OwnLibcIsLost`: a library of an own directory that is
  libc's is not found at all.
- A library has the version needs it had exactly if no version need of another name becomes its name
  (`VersionsReadBack`), and two names become the same exactly if one of them is redirected to what the other
  is called already (`BecomeSameIff`).
- "Latest put or miss" is true of one lifetime of the daemon (`GetIsLastPut`) and not across a restart.
  `OlderResurfaces` is a whole run in which a value that had been overwritten is answered, because the
  newer value's pack was evicted. `ReopenedIff` says exactly when a reopened store has the record put
  last or misses, that record being the latest in the logs of the whole history: if no record of the key
  survived in the fastest copy of any pack, or that record did.

## Model

| member | source | states |
|---|---|---|
| PackFormat.ScanPack | pkgs/ji/jigd/src/store.go:168-186 | the scan of an unsealed pack finds the whole records up to the first incomplete one, and where that one starts |
| PackFormat.RecordBytes | pkgs/ji/jigd/src/store.go:300-316 | at a record's offset the pack holds its encoding, at the indexed value offset its value |
| PackFormat.ScanRecovers | pkgs/ji/jigd/src/store.go:168-193 | a pack cut at any byte scans to exactly the records that are entirely there, and truncating at the scan's end leaves exactly their bytes |
| PackFormat.HintsRoundTrip | pkgs/ji/jigd/src/store.go:148-164 | a hint file reads back as the entries it was written from |
| PackFormat.HintsCut | pkgs/ji/jigd/src/store.go:146-167 | a hint file cut at any byte reads as a prefix of what the whole file reads as |
| PackStore.AddKeepsLive | pkgs/ji/jigd/src/store.go:134-144 | indexing a record, in whatever pack order, keeps each pack's live bytes equal to the sum of indexed lengths in it |
| PackStore.FitsIn32Bits | pkgs/ji/jigd/src/store.go:294-320 | every offset plus length fits in 32 bits although one record may be 2 GiB |
| PackSteps.SealedHintOk | pkgs/ji/jigd/src/store.go:199-225 | a hint sealed from the index, walked in any order, lists records of that pack only |
| PackSteps.WalkHintOk | pkgs/ji/jigd/src/store.go:206-216 | a hint written by any walk over the index reads back as that walk and lists records of the pack |
| PackSteps.SealKeepsInv | pkgs/ji/jigd/src/store.go:199-225 | sealing keeps the invariant |
| PackSteps.FreshKeepsInv | pkgs/ji/jigd/src/store.go:233-241 | starting a pack above all others keeps the invariant |
| PackSteps.RotateKeepsInv | pkgs/ji/jigd/src/store.go:227-242 | sealing the active pack and starting the next keeps the store's invariant |
| PackSteps.AppendKeepsInv | pkgs/ji/jigd/src/store.go:294-327 | appending a record keeps index, live bytes, tier totals and files in agreement |
| PackSteps.TouchKeepsInv | pkgs/ji/jigd/src/store.go:252-258 | marking a pack as read keeps the invariant |
| PackSteps.PickKeepsInv | pkgs/ji/jigd/src/store.go:343-345 | so does choosing a pack to move |
| PackSteps.CopyPackKeepsInv | pkgs/ji/jigd/src/store.go:406-411 | the unlocked copy of a pack into the next tier keeps the invariant, linked or copied |
| PackSteps.CopyHintKeepsInv | pkgs/ji/jigd/src/store.go:406-411 | so does the copy of its hint, even over one left there |
| PackSteps.SwitchKeepsInv | pkgs/ji/jigd/src/store.go:412-426 | switching a pack to the tier below keeps totals, files and every indexed location in agreement |
| PackSteps.EvictKeepsInv | pkgs/ji/jigd/src/store.go:391-404 | deleting a pack with its keys and its files keeps index, live bytes and totals in agreement |
| StoreRuns.PutKeepsInv | pkgs/ji/jigd/src/store.go:263-328 | a whole put, rotation included, keeps the invariant and appends exactly its record to the log |
| StoreRuns.StepKeepsInv | pkgs/ji/jigd/src/store.go:246-427 | every event of the store, enabled in any state, keeps the invariant: the interleaving of puts, gets, rotations and demotion does not matter |
| StoreHistory.ReadsTheLog | pkgs/ji/jigd/src/store.go:246-260 | every indexed key can be read, and reads the bytes its log record holds |
| StoreHistory.StoryIsLastPut | pkgs/ji/jigd/src/store.go:263-328 | the latest record of a key in the history of a run is the last put of it |
| StoreHistory.GetIsLastPut | pkgs/ji/jigd/src/store.go:246-427 | after any run, a get answers with the last successful put of its key or what was there at the start, and misses exactly if there is neither or its pack was evicted |
| StoreHistory.ReadersSurvive | pkgs/ji/jigd/src/store.go:51-53 | a reader handed out earlier still reads its value after any run, its pack moved or evicted |
| StoreOpen.SurvivingInside | pkgs/ji/jigd/src/store.go:145-195 | whatever a crash left of a pack, what is indexed of it are records of that pack that lie entirely inside the file |
| StoreOpen.AddAllIs | pkgs/ji/jigd/src/store.go:134-144 | indexing a pack's entries gives each key its last entry there unless a newer pack has the key, and changes no other key |
| StoreOpen.OpenStep | pkgs/ji/jigd/src/store.go:96-111 | one round of the loading loop keeps index, accounting and files in agreement and removes the slower copy of a pack |
| StoreOpen.OpenRecovers | pkgs/ji/jigd/src/store.go:82-242 | opening after a crash, with ids below a million, gives a consistent store whose index is last-write-wins over the surviving records in pack-id order, each pack taken from its fastest tier, with a fresh active pack above all others |
| StoreOpen.FreshAboveIff | pkgs/ji/jigd/src/store.go:96-115 | the fresh pack's name is free and its id above all others if and only if every id on disk is below a million |
| StoreOpen.MillionthPackBlocksOpen | pkgs/ji/jigd/src/store.go:98-115 | with packs 999999 and 1000000 on disk the fresh pack's name is taken |
| StoreRestart.LatestOrMissIff | pkgs/ji/jigd/src/store.go:82-196 | after opening, a key is missing or located at the record put last, and then reads its value, if and only if no record of the key survived or that one did |
| StoreRestart.ReopenedIff | pkgs/ji/jigd/src/store.go:82-427 | the same from an empty directory through any number of lifetimes and crashes: the logs are those the steps wrote, the latest record of the key in them holds the last put of the whole history, and the reopened store has that record or misses if and only if no record of the key survived or that one did; a key never put is missing |
| StoreResurfaces.Reopens | pkgs/ji/jigd/src/store.go:82-118 | whatever a crash left, opening can be gone through to a serving store |
| StoreResurfaces.OlderResurfaces | pkgs/ji/jigd/src/store.go:82-427 | a run written out, two puts of a key, rotations, the eviction of the newer pack and a restart, after which the older value is read |
| PackNames.NameRoundTrip | pkgs/ji/jigd/src/store.go:76-100 | a pack file's id is read back from its name exactly while it has six digits |
| StoreLives.CutRecoverable | pkgs/ji/jigd/src/store.go:120-196 | what any crash leaves can be opened again |
| StoreLives.LifeStep | pkgs/ji/jigd/src/store.go:82-427 | every step of every lifetime, a crash in any event, between sealing and rotating or while loading included, keeps what the next step needs |
| StoreLives.NothingInvented | pkgs/ji/jigd/src/store.go:82-427 | through any number of crashes and reopenings a get reads whole values that some put, finished or not, wrote for that very key |
| Demotion.VictimUnique | pkgs/ji/jigd/src/store.go:361-386 | there is one victim whatever order the packs are looked at in |
| Demotion.MoveKeepsInv | pkgs/ji/jigd/src/store.go:389-427 | a whole move keeps the invariant |
| Demotion.MoveIsSteps | pkgs/ji/jigd/src/store.go:389-427 | moveDown without interference is a run of the demoter's steps |
| Demotion.MoveLowers | pkgs/ji/jigd/src/store.go:339-355 | every move lowers the summed remaining tier depth of sealed packs by one |
| Demotion.MovesBounded | pkgs/ji/jigd/src/store.go:339-427 | in any run, whatever is interleaved, the demoter finishes at most the summed depth of sealed packs plus one full descent per put: between puts it comes to rest |
| Demotion.WithinBudget | pkgs/ji/jigd/src/store.go:361-386 | when the demoter stops every bounded tier is within its budget, except a first tier holding only the active pack |
| StoreDaemon.TieredStore.Open | pkgs/ji/jigd/src/store.go:82-118 | on any recoverable disk: a valid store, its index last-write-wins over that disk, its active id above all others |
| StoreDaemon.TieredStore.Blank | pkgs/ji/jigd/src/store.go:83-84 | a store with nothing indexed and no packs |
| StoreDaemon.TieredStore.ListPacks | pkgs/ji/jigd/src/store.go:87-100 | every recognised pack once, fast tiers first; within a tier no order is relied on |
| StoreDaemon.TieredStore.LoadPacks | pkgs/ji/jigd/src/store.go:87-112 | loads every listed pack and returns the largest id loaded |
| StoreDaemon.TieredStore.LoadNext | pkgs/ji/jigd/src/store.go:101-110 | loads a pack, or removes the copy of one already loaded from a faster tier |
| StoreDaemon.TieredStore.LoadPack | pkgs/ji/jigd/src/store.go:121-196 | the loops over a hint or a scan, truncation and sealing do one round of StoreOpen |
| StoreDaemon.TieredStore.LoadHinted | pkgs/ji/jigd/src/store.go:146-167 | indexes the hint entries that fit in the file and counts its size |
| StoreDaemon.TieredStore.LoadScanned | pkgs/ji/jigd/src/store.go:168-195 | indexes the whole records, cuts the torn tail and seals |
| StoreDaemon.TieredStore.IndexHint | pkgs/ji/jigd/src/store.go:148-164 | the loop over a hint indexes its fitting entries in order |
| StoreDaemon.TieredStore.IndexScan | pkgs/ji/jigd/src/store.go:169-186 | the loop over a pack indexes its whole records in order |
| StoreDaemon.TieredStore.IndexOne | pkgs/ji/jigd/src/store.go:135-144 | one entry, newest pack id first, with both packs' live bytes adjusted |
| StoreDaemon.TieredStore.HintOf | pkgs/ji/jigd/src/store.go:199-216 | the walk over the index yields the encoding of exactly that pack's keys, each once |
| StoreDaemon.TieredStore.SealPack | pkgs/ji/jigd/src/store.go:199-225 | puts the hint beside the pack |
| StoreDaemon.TieredStore.Rotate | pkgs/ji/jigd/src/store.go:227-242 | seals the active pack and starts the next |
| StoreDaemon.TieredStore.Lookup | pkgs/ji/jigd/src/store.go:246-260 | a reader exactly for indexed keys, at the indexed place; only the time of last use changes |
| StoreDaemon.TieredStore.AppendRecord | pkgs/ji/jigd/src/store.go:300-323 | the record at the end of the active pack, indexed and counted; the store stays valid |
| StoreDaemon.TieredStore.Insert | pkgs/ji/jigd/src/store.go:263-328 | refuses exactly bad or late puts and changes nothing then; otherwise does the put event and stays valid |
| StoreDaemon.TieredStore.Victim | pkgs/ji/jigd/src/store.go:361-386 | the one victim, or none and then no tier over budget has a pack to give |
| StoreDaemon.TieredStore.BestIn | pkgs/ji/jigd/src/store.go:366-383 | the pack of a tier that leaves first, or none exactly when the tier has none to give |
| StoreDaemon.TieredStore.ForgetPack | pkgs/ji/jigd/src/store.go:394-398 | removes exactly the keys located in the pack |
| StoreDaemon.TieredStore.MoveDown | pkgs/ji/jigd/src/store.go:389-427 | performs the whole move and stays valid |
| StoreDaemon.TieredStore.Demote | pkgs/ji/jigd/src/store.go:339-355 | without puts in between the loop ends, with no tier over budget that has a pack to give |
| StoreDaemon.TieredStore.Close | pkgs/ji/jigd/src/store.go:482-491 | closes and seals the active pack |
| Slots.Best | pkgs/ji/jigd/src/slots.go:56-61 | the waiter whose build holds fewest tokens, the earliest among equals |
| Slots.GrantConserves | pkgs/ji/jigd/src/slots.go:54-68 | granting until nothing can be granted restores conservation |
| Slots.AcquireConserves | pkgs/ji/jigd/src/slots.go:29-41 | asking keeps out equal to the sum of held, held positive, and somebody waiting only if every token is out |
| Slots.ReleaseConserves | pkgs/ji/jigd/src/slots.go:43-68 | so does returning a token and the grants that follow |
| Slots.BoundedBypass | pkgs/ji/jigd/src/slots.go:53-68 | a waiter first of its build, whose build holds nothing, is served within its place plus one grants, however many requests arrive |
| Slots.ServedInArrivalOrder | pkgs/ji/jigd/src/slots.go:53-68 | waiters of one build are served in arrival order over any run |
| Slots.SlotPool.constructor | pkgs/ji/jigd/src/slots.go:24-26 | an empty pool conserves |
| Slots.SlotPool.Acquire | pkgs/ji/jigd/src/slots.go:29-41 | takes a token or queues, by the same rule as the pool's function, and conserves |
| Slots.SlotPool.Release | pkgs/ji/jigd/src/slots.go:43-51 | returns a token and wakes waiters; woken and still waiting are together who waited |
| Slots.SlotPool.Wake | pkgs/ji/jigd/src/slots.go:54-68 | the grant loop is the pool's grant function and loses no waiter |
| Slots.SlotPool.WakeOne | pkgs/ji/jigd/src/slots.go:56-66 | one grant: the best waiter leaves the queue with a token |
| Slots.SlotPool.PickBest | pkgs/ji/jigd/src/slots.go:56-61 | the inner loop finds the best waiter |
| Admission.GrantBalances | pkgs/ji/jigd/src/slots.go:54-68 | what granting adds to a build is what its connections gain |
| Admission.SlotRequestKeepsInv | pkgs/ji/jigd/src/main.go:137-140 | SLOT keeps the balance, granted or queued |
| Admission.ReleaseKeepsInv | pkgs/ji/jigd/src/main.go:141-145 | returning one token keeps the balance |
| Admission.StepKeepsInv | pkgs/ji/jigd/src/main.go:94-160 | every step of every connection keeps tokens per build equal to what connections count, were granted or are returning |
| Admission.AdmissionSafety | pkgs/ji/jigd/src/main.go:94-160 | over any run of SLOT, DONE and hang-ups the pool's count of every build is what its connections count, were granted or are returning, the total stays within the limit, and waiting means the limit is reached |
| Admission.NoTokenLost | pkgs/ji/jigd/src/main.go:101-109 | once every connection is gone no token is out and nobody waits |
| Host.ResizeKeepsInv | pkgs/js/jsem/src/broker.cc:168-169 | giving slots back keeps every remaining token backed |
| Host.PlaceOrderKeepsInv | pkgs/js/jsem/src/broker.cc:140-146 | ordering a slot keeps the host's invariant |
| Host.TakeOrderKeepsInv | pkgs/js/jsem/src/broker.cc:147-152 | so does taking a granted one |
| Host.StopEndKeepsInv | pkgs/js/jsem/src/broker.cc:156-159 | the destructor's hand-back of all slots keeps the host's invariant |
| Host.SemStepKeepsInv | pkgs/js/jsem/src/broker.cc:161-177 | a single semaphore operation of Tick or of ghc keeps the broker's backing |
| Host.DoKeepsInv | pkgs/js/jsem/src/broker.cc:131-177 | every step of brokers, ghc, compiler wrappers and the daemon keeps the host's invariant |
| Host.WithinLimit | pkgs/js/jsem/src/broker.cc:161-177 | running compilers plus ghc's extra capabilities stay within the host limit plus what semaphores were created with |
| Host.HostSafety | pkgs/js/jsem/src/broker.cc:131-177 | after any interleaving, that bound holds and semaphore tokens plus those ghc holds never exceed the slots behind them, with equality between ticks on a semaphore created empty |
| Host.FromIdle | pkgs/js/jsem/src/broker.cc:131-177 | from an idle host with a limit, that limit holds after any interleaving, and nothing is added to it where every semaphore was created empty |
| HashFields.FieldsInjective | pkgs/ji/jig/src/base.cc:270-275 | different field sequences never feed the hasher the same text |
| HashFields.FieldEnds | pkgs/ji/jig/src/base.cc:270-275 | where a field ends is decided by what was fed |
| HashFields.Hasher.Add | pkgs/ji/jig/src/base.cc:270-275 | what was fed stays the encoding of the fields added, the new one last, so by FieldsInjective it determines them |
| Manifest.SplitText | pkgs/ji/jig/src/base.cc:191-205 | the non-empty pieces between separators |
| Manifest.BuildManifest | pkgs/ji/jig/src/manifest.cc:110-140 | the text and the result key are those of the same lines: inputs with identities, then each missed path once |
| Manifest.ValidateManifest | pkgs/ji/jig/src/manifest.cc:142-170 | the outcome of Validated: the key of the lines, or the first line that does not hold |
| Manifest.ValidatedIff | pkgs/ji/jig/src/manifest.cc:142-170 | a key comes out exactly if every line holds, and it is the key of those lines |
| Manifest.ResultKeyInjective | pkgs/ji/jig/src/manifest.cc:139-170 | a result key tells request keys and manifest lines apart |
| Manifest.SplitOfText | pkgs/ji/jig/src/manifest.cc:72-120 | lines without newlines are read back from the text as they are |
| Manifest.RoundTripIff | pkgs/ji/jig/src/manifest.cc:110-170 | in an unchanged environment a built manifest validates to its own key if and only if no line is torn by a newline and every listed input is spelled to last: a store path is its own key, any other key lies outside the store and names the same contents, neither has a tab, and a line read as absent names nothing |
| Manifest.PlainLasting | pkgs/ji/jig/src/store.cc:152-156 | of a plain path outside the store only the spelling of its key counts |
| Manifest.UnnormalisedNeverHits | pkgs/ji/jig/src/manifest.cc:121-128 | with a listed store path that is not its own normal form the manifest validates to its own key in no environment, and to no key at all where no line is torn by a newline |
| Manifest.UnnormalisedNeverHolds | pkgs/ji/jig/src/manifest.cc:142-170 | the line of such a path holds in no environment |
| CompileCache.Deterministic | pkgs/ji/jig/src/cc_mode.cc:286-349 | one environment, one compile |
| CompileCache.RequestKeyInjective | pkgs/ji/jig/src/cc_mode.cc:90-119 | the request key tells requests apart, source text and toolchain included |
| CompileCache.LinesJustify | pkgs/ji/jig/src/manifest.cc:110-140 | wherever the lines of a compile hold, the compiler does the same again |
| CompileCache.StepKeepsInv | pkgs/ji/jig/src/cc_mode.cc:352-391 | compiles storing any part of their puts, and environment changes, keep every stored value justified |
| CompileCache.HitIsCompile | pkgs/ji/jig/src/cc_mode.cc:192-226 | whatever the daemon answers, a hit is what compiling in the current environment gives: status, object, depfile, and the messages unless they alone were lost |
| CompileCache.CacheSound | pkgs/ji/jig/src/cc_mode.cc:192-391 | so after any run from an empty cache, whatever was lost or half-stored in it, that lists no unwatched `!` input |
| CompileCache.WarmHit | pkgs/ji/jig/src/cc_mode.cc:192-226 | with nothing changed and nothing lost the lookup hits and replays the compile |
| CompileCache.ChangedInputIff | pkgs/ji/jig/src/manifest.cc:72-170 | the manifest of a changed input validates to its own key if and only if the key starts with `!`, the line has no newline and the path it is read as does not exist |
| CompileCache.BangReplaysStale | pkgs/ji/jig/src/manifest.cc:72-85 | for every such input some compiler's result is replayed after that file changed, in a run that meets every other assumption |
| CompileCache.SlotsApart | pkgs/ji/jig/src/keys.h:53-58 | slots of different kinds never collide, nor do status, object, depfile and message slots of different keys |
| CompileCache.StatusRoundTrip | pkgs/ji/jig/src/cc_mode.cc:212-214 | a stored exit status is read back |
| Decimal.ParseDigits | pkgs/ji/jig/src/base.cc:238-247 | a 64-bit number written in decimal is parsed back |
| Wire.Connection.RecvLine | pkgs/ji/jig/src/cache_client.cc:67-81 | the next line exactly, however read cut the stream; none and a dead stream if no line is complete |
| Wire.Connection.Fill | pkgs/ji/jig/src/cache_client.cc:58-65 | reading on takes nothing but what was pending from the stream, and fails only when all there is is pending |
| Wire.Connection.RecvExactly | pkgs/ji/jig/src/cache_client.cc:83-101 | exactly that many bytes and the stream behind them, or none if it ends first |
| Wire.Connection.RecvValue | pkgs/ji/jig/src/cache_client.cc:143-155 | one reply: value, miss, end of stream, or a dropped connection |
| Wire.Connection.GetMany | pkgs/ji/jig/src/cache_client.cc:164-177 | the i-th value is the daemon's i-th reply, misses and undecodable values in place; a stream cut anywhere gives right values or none |
| Wire.Connection.Identities | pkgs/ji/jig/src/cache_client.cc:179-200 | the daemon's lines in order; nothing from a stream cut anywhere inside them or without a connection |
| Wire.Whole | pkgs/ji/jigd/src/main.go:38-59 | a whole reply is taken exactly, to its last byte |
| Wire.Cut | pkgs/ji/jigd/src/main.go:38-59 | a reply cut anywhere is recognised as the end of the stream |
| StoreNames.SwapText | pkgs/ji/jig/src/store.cc:79-91 | the in-place loop replaces what is met from left to right |
| StoreNames.SwappedReplaces | pkgs/ji/jig/src/store.cc:87-89 | of a pattern that cannot overlap itself every occurrence becomes the other, and nothing else changes |
| StoreNames.SwapTwice | pkgs/ji/jig/src/store.cc:79-91 | replacing by a pattern the text did not have and then that one is replacing once |
| StoreNames.MaskThenUnmask | pkgs/ji/jig/src/store.cc:74-91 | of bytes without the placeholder and a pattern that cannot overlap itself: masked under one hash and unmasked under another, exactly the first pattern's occurrences become the second and the length stays; under the same hash nothing changes |
| StoreNames.NixStorePatterns | pkgs/ji/jig/src/store.cc:83-84 | the patterns of the usual store directory never overlap themselves |
| MaskCoverage.MaskText | pkgs/ji/jig/src/store.cc:61-72 | the in-place scan is MaskHashes, and that is the text with exactly the hashes behind the prefixes it looks at replaced |
| MaskCoverage.VisitedIff | pkgs/ji/jig/src/store.cc:63-70 | an occurrence of the prefix is looked at unless it starts before the scan goes on from one that was |
| MaskCoverage.MaskIs | pkgs/ji/jig/src/store.cc:61-72 | a scan from any place on changes nothing but the hashes behind the prefixes it looks at |
| MaskCoverage.SurvivesIff | pkgs/ji/jig/src/store.cc:61-72 | a hash behind a prefix stays, dash and all, if that prefix is skipped and becomes a star otherwise; before and behind it stands what is made of those parts |
| MaskCoverage.SkippedNear | pkgs/ji/jig/src/store.cc:69-69 | below an absolute store directory skipped means starting within a prefix looked at or right behind it |
| MaskCoverage.AllMaskedIff | pkgs/ji/jig/src/store.cc:61-72 | every hash behind a prefix is masked exactly if none of those prefixes is skipped |
| MaskCoverage.SparseMasksAll | pkgs/ji/jig/src/store.cc:61-72 | where no prefix starts within another or right behind it, exactly the hashes behind prefixes are replaced and none is left |
| MaskCoverage.MissedInNixStore | pkgs/ji/jig/src/store.cc:61-72 | both ways a hash is missed in /nix/store, for every hash |
| StoreNames.MaskIdempotent | pkgs/ji/jig/src/store.cc:51-72 | masking hashes twice is masking once, on every text |
| StoreNames.ResolveMasked | pkgs/ji/jig/src/store.cc:158-168 | under a declared root with a unique masked name, resolving a masked path gives the path back |
| StoreNames.UniqueRoot | pkgs/ji/jig/src/store.cc:37-44 | a uniquely masked root is found in the table of declared roots |
| BinaryImage.CStringIs | pkgs/ji/jig/src/fixup_mode.cc:105-111 | a text followed by its NUL reads back as itself |
| BinaryImage.Image.WritePadded | pkgs/ji/jig/src/fixup_mode.cc:113-119 | writes the text and NULs over exactly the slot, or refuses and changes nothing |
| BinaryImage.Image.Overwrite | pkgs/ji/jig/src/fixup_mode.cc:121-127 | overwrites exactly that range, or refuses and changes nothing |
| BinaryImage.CoherentLands | pkgs/ji/jig/src/fixup_mode.cc:113-127 | edits that do not touch one another are all there afterwards |
| BinaryImage.LastLands | pkgs/ji/jig/src/fixup_mode.cc:113-127 | of edits that write the same place or do not touch, the last one of each place is there afterwards |
| BinaryImage.Image.WriteWord | pkgs/ji/jig/src/fixup_mode.h:69-77 | overwrites one little-endian word, or refuses and changes nothing |
| ElfFixup.ReadDynamic | pkgs/ji/jig/src/elf_fixup.cc:88-131 | the needed libraries, their version-need words and the last RUNPATH, as the chains say |
| ElfFixup.ReadDyns | pkgs/ji/jig/src/elf_fixup.cc:97-114 | the dynamic entries up to DT_NULL or the end |
| ElfFixup.ReadNeeded | pkgs/ji/jig/src/elf_fixup.cc:97-114 | the needed libraries in order, and the last RUNPATH |
| ElfFixup.NoteVersions | pkgs/ji/jig/src/elf_fixup.cc:117-129 | notes every version-need word at the libraries of its name |
| ElfFixup.NoteOne | pkgs/ji/jig/src/elf_fixup.cc:121-126 | notes one word at every library of that name and at no other |
| ElfFixup.ReadVns | pkgs/ji/jig/src/elf_fixup.cc:117-129 | the chain of version needs |
| ElfFixup.SymbolInside | pkgs/ji/jig/src/elf_fixup.cc:135-150 | the first symbol whose name starts inside the range |
| ElfFixup.NeededInside | pkgs/ji/jig/src/elf_fixup.cc:97-129 | every word that may be rewritten lies inside the image |
| ElfFixup.WriteDeps | pkgs/ji/jig/src/elf_fixup.cc:247-254 | redirects every word of every dependency to its place in the slot |
| ElfFixup.OutcomeFits | pkgs/ji/jig/src/elf_fixup.cc:234-256 | every planned edit lies inside the image |
| ElfFixup.FixRunpath | pkgs/ji/jig/src/elf_fixup.cc:194-262 | false leaves all bytes alone; otherwise nothing changed or exactly the planned edits were made |
| ElfReadBack.EditsAligned | pkgs/ji/jig/src/elf_fixup.cc:234-256 | two planned edits write the same place or do not touch, two libraries of one name included |
| ElfReadBack.OnlyTheSlotAndWords | pkgs/ji/jig/src/elf_fixup.cc:234-256 | the length stays and nothing outside the RUNPATH slot and the redirected words changed |
| ElfReadBack.ReadsBack | pkgs/ji/jig/src/elf_fixup.cc:188-262 | the rewritten image reads back with the kept RUNPATH in place and every NEEDED under its path or its old name |
| ElfReadBack.VersionsFollow | pkgs/ji/jig/src/elf_fixup.cc:247-254 | every version-need word that named a redirected library names the same path |
| ElfReadBack.NewNameIs | pkgs/ji/jig/src/elf_fixup.cc:204-221 | when every redirection is planned, exactly the libraries of a directory other than libc's become that directory's entry, a slash and the name |
| ElfVersions.VersionsReadBack | pkgs/ji/jig/src/elf_fixup.cc:117-254 | where the names of version needs are clear of the RUNPATH slot, re-reading the rewritten image gives the same version-need entries, each naming its library by that library's new name, and a library has the version-need words it had if and only if no version need of another name becomes its name |
| ElfVersions.BecomeSameIff | pkgs/ji/jig/src/elf_fixup.cc:204-222 | two names become the same if and only if one is redirected to what the other is called and stays |
| ElfSearch.FoundBefore | pkgs/ji/jig/src/elf_fixup.cc:208-209 | the directory taken for a library is the one a search in order finds |
| ElfSearch.FoundAgainIff | pkgs/ji/jig/src/elf_fixup.cc:188-233 | a library is found afterwards in the directory that provided it, by its path or by the new RUNPATH, if and only if that directory is not libc's or stays on the RUNPATH |
| ElfSearch.OwnLibcIsLost | pkgs/ji/jig/src/elf_fixup.cc:172-220 | a library of an own directory that is libc's is not found afterwards |
| MachOFixup.SetPathIs | pkgs/ji/jig/src/macho_fixup.cc:70-79 | the respelled command is whole, a multiple of 8 long, and carries the new path |
| MachOFixup.ReadLoadCommands | pkgs/ji/jig/src/macho_fixup.cc:92-129 | the commands and the header room, as far as whole commands go |
| MachOFixup.RoomAfter | pkgs/ji/jig/src/macho_fixup.cc:107-124 | a segment lowers the header room to what its file offset or its sections leave |
| MachOFixup.CommandsReadBack | pkgs/ji/jig/src/macho_fixup.cc:92-129 | proper commands laid out one after another are read back as they are |
| MachOFixup.HeaderReadsBack | pkgs/ji/jig/src/macho_fixup.cc:265-301 | re-reading gives the original commands with exactly the intended paths replaced, each respelled command saying its new path and a multiple of 8 long; of the rest of the file only the size field of the header changed |
| CodeSign.Resign | pkgs/ji/jig/src/macho_fixup.cc:142-199 | nothing happens without a signature; one that is no embedded signature blob is an error and changes nothing; with a sane one every slot of every code directory is hashed again; with any, the length and everything before it stay |
| CodeSign.FindSignature | pkgs/ji/jig/src/macho_fixup.cc:152-164 | where the last code-signature command points, if the commands can be walked to it |
| CodeSign.SignDir | pkgs/ji/jig/src/macho_fixup.cc:178-196 | the loop over the slots of one directory: of a sane signature each is hashed again; of any, nothing before the first slot changes |
| CodeSign.EverySlotSigned | pkgs/ji/jig/src/macho_fixup.cc:188-196 | every slot of every directory of the final image holds the hash of its page of the final image, and nothing outside the slots changed |
| CodeSign.FixMachO | pkgs/ji/jig/src/macho_fixup.cc:265-313 | other files, and files with nothing to respell, are left alone without error, files without room with one; the rest are rewritten and signed: of a well-formed image whose signature, if any, is sane and lies behind its header room, the written one has the intended paths, the same signature, no other change but hash slots behind the header room, and every slot signed |
| CodeSign.FixedMachO | pkgs/ji/jig/src/macho_fixup.cc:265-313 | the new header leaves a sane signature where it was and sane; of the written image: intended paths only, behind the header room only hash slots, every slot signed |
| Loader.Range | pkgs/cr/crt-interp/src/crt_interp.c:262-271 | the reserved range is from the first page of some segment to the last page of some segment and holds the pages of all |
| Loader.MapSegment | pkgs/cr/crt-interp/src/crt_interp.c:274-298 | the segment's pages become what the header prescribes and no other page is touched |
| Loader.Clear | pkgs/cr/crt-interp/src/crt_interp.c:284-292 | zeroes a writable range and nothing else |
| Loader.MapFile | pkgs/cr/crt-interp/src/crt_interp.c:274-283 | maps file bytes, zero behind the end of the file |
| Loader.MapZero | pkgs/cr/crt-interp/src/crt_interp.c:293-296 | maps zeros |
| Loader.LoadImage | pkgs/cr/crt-interp/src/crt_interp.c:262-298 | for well-formed segments in any order, sharing pages or not, the range holds all of them and every address is as the last segment mapped over it prescribes |
| Loader.FinalIsPlaced | pkgs/cr/crt-interp/src/crt_interp.c:274-298 | a segment is whole on the pages no later one is mapped over |
| Loader.ApartIsWhole | pkgs/cr/crt-interp/src/crt_interp.c:274-298 | so is every segment of an image whose segments share no page |
| Loader.GapsStay | pkgs/cr/crt-interp/src/crt_interp.c:272-298 | addresses on no segment's pages stay inaccessible |
| Loader.PlacedIsFile | pkgs/cr/crt-interp/src/crt_interp.c:274-283 | every segment byte is the file byte its header prescribes |
| Loader.BssZeroIff | pkgs/cr/crt-interp/src/crt_interp.c:284-297 | the bss is zero to its page's end if and only if the segment is writable or the file is zero there |
| Loader.ReadOnlyBssShowsFile | pkgs/cr/crt-interp/src/crt_interp.c:287-291 | a read-only segment whose bss shows the byte of the file behind it |

## Left out

- StoreDaemon.TieredStore.Demote: the loop is run without puts in between; with them `Demotion.MovesBounded` bounds its moves and `StoreRuns.StepKeepsInv` keeps the invariant.
- CodeSign.SignDir: of a directory outside a sane signature it states only that the length and what lies before its slots stay.
- I/O failures while loading, sealing or moving packs, and the temporary files of large puts: operations succeed or the daemon stops.
- Wrap-around of pack ids at 2^32, and a crash that loses the name of the newest pack.
- The throttled update of a pack file's mtime, statistics and logging.
- Content identity (`JIG_STORE_IDENTITY=content`) in keys and manifests, daemon-side identities and `known_ids_`; links, precompiled headers and the rustc, Go and directory modes; parsing of command lines and depfiles.
- CodeSign.Resign: of a signature whose slots overlap its tables, one another or the end of the file it states only that the length and what lies before the signature stay, nor does it say which hash types are refused.
- CodeSign.FixMachO: the same restriction, of a signature that is not sane or begins in the header room.
- CompileCache.HitIsCompile: does not model the rewriting of a replayed depfile's target to the current run's, because the target is no part of the request.
- `NormalizePathArg` and `MaskRandomNames`: the key of a path is an argument, with the assumption above.
- The masking of the build's own output path in stored values (`MaskOut`) is proved in `StoreNames` and not composed with the lookup.
- `ResolveAll`, `ToolId` and the environment the store's settings come from.
- FixInterp and the stub's entry, RelativizeRunpath, NewSpelling and other path arithmetic of the fixups: their results are arguments.
- Mach-O images with more than one architecture, signatures other than SHA-256, and the page-size exponents the shift is undefined for.
- The stub's path handling, system calls and per-architecture assembly; failures of mmap.
- Zstandard, BLAKE3, SHA-256 and Wyhash internals, sockets and peer credentials.
- Nix expressions, Nushell builders, bootstrap recipes and benchmarks.
